/** Reading a derivation's text from both ends, leaving the unescaped platform between. */
module PlatformReader {
  import opened Wrappers
  import opened ATerm

  // ----- what is read ------------------------------------------------------------------------

  /** After the string `s` is inside of, an escape hiding the character it is before. */
  function SkipString(s: string): (r: Option<string>)
    ensures r.Some? ==> |r.value| < |s| && r.value == s[|s| - |r.value|..]
    decreases |s|
  {
    if s == "" then None
    else if s[0] == '\"' then Some(s[1..])
    else if s[0] != '\\' then SkipString(s[1..])
    else if |s| < 2 then None
    else SkipString(s[2..])
  }

  function StartsWith(s: string, c: char): bool {
    |s| > 0 && s[0] == c
  }

  function EndsWith(s: string, c: char): bool {
    |s| > 0 && s[|s| - 1] == c
  }

  /** After the string, list or tuple `s` starts with. */
  function SkipTerm(s: string): (r: Option<string>)
    ensures r.Some? ==> |r.value| < |s| && r.value == s[|s| - |r.value|..]
    decreases |s|, 0
  {
    if StartsWith(s, '\"') then SkipString(s[1..])
    else if StartsWith(s, '[') then SkipItems(s[1..], ']')
    else if StartsWith(s, '(') then SkipItems(s[1..], ')')
    else None
  }

  function SkipItems(s: string, close: char): (r: Option<string>)
    ensures r.Some? ==> |r.value| < |s| && r.value == s[|s| - |r.value|..]
    decreases |s|, 2
  {
    if StartsWith(s, close) then Some(s[1..]) else SkipMoreItems(s, close)
  }

  function SkipMoreItems(s: string, close: char): (r: Option<string>)
    ensures r.Some? ==> |r.value| < |s| && r.value == s[|s| - |r.value|..]
    decreases |s|, 1
  {
    match SkipTerm(s)
    case None => None
    case Some(t) =>
      if StartsWith(t, close) then Some(t[1..])
      else if StartsWith(t, ',') then SkipMoreItems(t[1..], close)
      else None
  }

  function TrailingBackslashes(s: string): (n: nat)
    ensures n <= |s|
  {
    if EndsWith(s, '\\') then 1 + TrailingBackslashes(s[..|s| - 1]) else 0
  }

  /** Before the last `"` that an even number of backslashes precedes. */
  function BeforeOpening(s: string): (r: Option<string>)
    ensures r.Some? ==> r.value < s
    decreases |s|
  {
    if s == "" then None
    else
      var before := s[..|s| - 1];
      if EndsWith(s, '\"') && TrailingBackslashes(before) % 2 == 0 then Some(before) else BeforeOpening(before)
  }

  /** Before the escaped string `s` ends with. */
  function StripString(s: string): (r: Option<string>)
    ensures r.Some? ==> r.value < s
  {
    if EndsWith(s, '\"') then BeforeOpening(s[..|s| - 1]) else None
  }

  function StripChar(s: Option<string>, c: char): (r: Option<string>)
    ensures r.Some? ==> s.Some? && s.value == r.value + [c]
  {
    if s.Some? && EndsWith(s.value, c) then Some(s.value[..|s.value| - 1]) else None
  }

  function StripPair(s: string): (r: Option<string>)
    ensures r.Some? ==> r.value < s
  {
    match StripChar(Some(s), ')')
    case None => None
    case Some(inner) =>
      match StripChar(StripString(inner), ',')
      case None => None
      case Some(key) => StripChar(StripString(key), '(')
  }

  datatype Element = StringElement | PairElement

  function StripElement(s: string, element: Element): (r: Option<string>)
    ensures r.Some? ==> r.value < s
  {
    match element
    case StringElement => StripString(s)
    case PairElement => StripPair(s)
  }

  function StripItems(s: string, element: Element): (r: Option<string>)
    ensures r.Some? ==> r.value < s
    decreases |s|
  {
    match StripElement(s, element)
    case None => None
    case Some(t) =>
      if EndsWith(t, '[') then Some(t[..|t| - 1])
      else if EndsWith(t, ',') then StripItems(t[..|t| - 1], element)
      else None
  }

  /** Before the list `s` ends with. */
  function StripList(s: string, element: Element): (r: Option<string>)
    ensures r.Some? ==> r.value < s
  {
    match StripChar(Some(s), ']')
    case None => None
    case Some(items) => if EndsWith(items, '[') then Some(items[..|items| - 1]) else StripItems(items, element)
  }

  function StripPrefix(s: Option<string>, prefix: string): (r: Option<string>)
    ensures r.Some? ==> s.Some? && s.value == prefix + r.value
  {
    if s.Some? && prefix <= s.value then Some(s.value[|prefix|..]) else None
  }

  function SkipField(s: Option<string>): (r: Option<string>)
    ensures r.Some? ==> s.Some? && |r.value| < |s.value| && r.value == s.value[|s.value| - |r.value|..]
  {
    if s.None? then None else StripPrefix(SkipTerm(s.value), ",")
  }

  function StripField(s: Option<string>, element: Element): (r: Option<string>)
    ensures r.Some? ==> s.Some? && r.value < s.value
  {
    if s.None? then None else StripChar(StripList(s.value, element), ',')
  }

  function StripStringField(s: Option<string>): (r: Option<string>)
    ensures r.Some? ==> s.Some? && r.value < s.value
  {
    if s.None? then None else StripChar(StripString(s.value), ',')
  }

  /** What follows the platform's opening quote: the fields before it are read from the start. */
  function FromPlatform(drv: string): Option<string> {
    var outputs := StripPrefix(Some(drv), "Derive(");
    var inputs := SkipField(outputs);
    var sources := SkipField(inputs);
    StripPrefix(SkipField(sources), "\"")
  }

  /** What comes before the closing quote: the fields after it are read from the end. */
  function UpToPlatform(s: string): Option<string> {
    var env := StripChar(Some(s), ')');
    var args := StripField(env, PairElement);
    var builder := StripField(args, StringElement);
    StripChar(StripStringField(builder), '\"')
  }

  function Platform(drv: string): Option<string> {
    match FromPlatform(drv)
    case None => None
    case Some(s) => UpToPlatform(s)
  }

  predicate NeedsEscape(platform: string) {
    '\"' in platform || '\\' in platform
  }

  predicate Misreads(drv: string) {
    Platform(drv).Some? && NeedsEscape(Platform(drv).value)
  }

  // ----- reading forwards ------------------------------------------------------------------------

  /** Whatever follows it, exactly `text` is read. Two such texts cannot start one string. */
  ghost predicate Skippable(text: string) {
    forall rest :: SkipTerm(text + rest) == Some(rest)
  }

  lemma Assoc4(a: string, b: string, c: string, d: string)
    ensures (a + b) + c + d == a + (b + c + d)
  {
  }

  lemma EscapeSkipped(c: char, tail: string)
    ensures SkipString(Escape(c) + tail) == SkipString(tail)
  {
    var e := Escape(c);
    var text := e + tail;
    if |e| == 1 {
      assert text[0] == c && c != '\"' && c != '\\' && text[1..] == tail;
    } else {
      assert text[0] == '\\' && text[2..] == tail;
    }
  }

  lemma {:induction false} EscapedSkipped(s: string, rest: string)
    ensures SkipString(EscapeAll(s) + "\"" + rest) == Some(rest)
  {
    if s == "" {
      assert (EscapeAll(s) + "\"" + rest)[1..] == rest;
    } else {
      EscapedSkipped(s[1..], rest);
      EscapeSkipped(s[0], EscapeAll(s[1..]) + "\"" + rest);
      Assoc4(Escape(s[0]), EscapeAll(s[1..]), "\"", rest);
    }
  }

  lemma BehindQuote(body: string, rest: string)
    ensures var t := "\"" + body + "\"" + rest; |t| > 0 && t[0] == '\"' && t[1..] == body + "\"" + rest
  {
  }

  lemma QuotedSkipped(s: string, rest: string)
    ensures SkipTerm(Quoted(s) + rest) == Some(rest)
  {
    BehindQuote(EscapeAll(s), rest);
    EscapedSkipped(s, rest);
  }

  lemma QuotedSkippable(s: string)
    ensures Skippable(Quoted(s))
  {
    forall rest
      ensures SkipTerm(Quoted(s) + rest) == Some(rest)
    {
      QuotedSkipped(s, rest);
    }
  }

  lemma MoreItems(first: string, more: string, close: char)
    requires Skippable(first) && close != ','
    ensures SkipMoreItems(first + ("," + more), close) == SkipMoreItems(more, close)
  {
    AfterItem(first + ("," + more), "," + more, close);
    assert ("," + more)[1..] == more;
  }

  lemma AfterItem(s: string, t: string, close: char)
    requires SkipTerm(s) == Some(t) && t != "" && t[0] == ',' && close != ','
    ensures SkipMoreItems(s, close) == SkipMoreItems(t[1..], close)
  {
  }

  lemma LastItem(last: string, close: char, rest: string)
    requires Skippable(last)
    ensures SkipMoreItems(last + ([close] + rest), close) == Some(rest)
  {
    assert ([close] + rest)[1..] == rest;
  }

  lemma {:induction false} ItemsSkipped(texts: seq<string>, close: char, rest: string)
    requires texts != [] && close != ',' && forall t :: t in texts ==> Skippable(t)
    ensures SkipMoreItems(Joined(texts) + [close] + rest, close) == Some(rest)
    decreases |texts|
  {
    assert Skippable(texts[0]);
    if |texts| == 1 {
      LastItem(texts[0], close, rest);
      Assoc(texts[0], [close], rest);
    } else {
      var more := Joined(texts[1..]) + [close] + rest;
      ItemsSkipped(texts[1..], close, rest);
      MoreItems(texts[0], more, close);
      Assoc4(texts[0] + ",", Joined(texts[1..]), [close], rest);
      Assoc(texts[0], ",", more);
    }
  }

  lemma SkippableStart(text: string)
    requires Skippable(text)
    ensures text != "" && text[0] != ']' && text[0] != ')'
  {
    assert SkipTerm(text + "") == Some("") && text + "" == text;
  }

  lemma ItemsOfTermSkipped(texts: seq<string>, close: char, rest: string)
    requires (close == ']' || close == ')') && forall t :: t in texts ==> Skippable(t)
    ensures SkipItems(Joined(texts) + [close] + rest, close) == Some(rest)
  {
    var s := Joined(texts) + [close] + rest;
    if texts == [] {
      assert s[1..] == rest;
    } else {
      ItemsSkipped(texts, close, rest);
      SkippableStart(texts[0]);
      assert texts[0] <= Joined(texts) <= s;
    }
  }

  lemma ListSkippable(texts: seq<string>)
    requires forall t :: t in texts ==> Skippable(t)
    ensures Skippable(ListText(texts))
  {
    forall rest
      ensures SkipTerm(ListText(texts) + rest) == Some(rest)
    {
      var s := ListText(texts) + rest;
      assert s[0] == '[' && s[1..] == Joined(texts) + "]" + rest;
      ItemsOfTermSkipped(texts, ']', rest);
    }
  }

  lemma TupleSkippable(texts: seq<string>)
    requires forall t :: t in texts ==> Skippable(t)
    ensures Skippable(TupleText(texts))
  {
    forall rest
      ensures SkipTerm(TupleText(texts) + rest) == Some(rest)
    {
      var s := TupleText(texts) + rest;
      assert s[0] == '(' && s[1..] == Joined(texts) + ")" + rest;
      ItemsOfTermSkipped(texts, ')', rest);
    }
  }

  lemma EachSkippable<T>(items: seq<T>, f: T -> string)
    requires forall x :: x in items ==> Skippable(f(x))
    ensures Skippable(ListText(Each(items, f)))
  {
    ListSkippable(Each(items, f));
  }

  lemma StringsSkippable(items: seq<string>)
    ensures Skippable(ListText(Each(items, Quoted)))
  {
    forall x | x in items {
      QuotedSkippable(x);
    }
    EachSkippable(items, Quoted);
  }

  lemma OutputSkippable(o: (string, Output))
    ensures Skippable(OutputText(o))
  {
    QuotedSkippable(o.0);
    QuotedSkippable(o.1.path);
    QuotedSkippable(o.1.hashAlgo);
    QuotedSkippable(o.1.hash);
    TupleSkippable([Quoted(o.0), Quoted(o.1.path), Quoted(o.1.hashAlgo), Quoted(o.1.hash)]);
  }

  lemma InputSkippable(i: (string, seq<string>))
    ensures Skippable(InputText(i))
  {
    QuotedSkippable(i.0);
    StringsSkippable(i.1);
    TupleSkippable([Quoted(i.0), ListText(Each(i.1, Quoted))]);
  }

  lemma PairSkippable(kv: (string, string))
    ensures Skippable(PairText(kv))
  {
    QuotedSkippable(kv.0);
    QuotedSkippable(kv.1);
    TupleSkippable([Quoted(kv.0), Quoted(kv.1)]);
  }

  // ----- reading backwards -----------------------------------------------------------------------

  /** Whatever stands before it, if not a backslash, exactly `text` is read. */
  ghost predicate Strippable(text: string, element: Element) {
    forall pre :: pre != "" && !EndsWith(pre, '\\') ==> StripElement(pre + text, element) == Some(pre)
  }

  lemma OneLess(x: string, c: char)
    ensures EndsWith(x + [c], c) && (x + [c])[..|x + [c]| - 1] == x
  {
  }

  lemma OneMore(x: string, c: char)
    ensures TrailingBackslashes(x + [c]) == if c == '\\' then 1 + TrailingBackslashes(x) else 0
    ensures c != '\"' || TrailingBackslashes(x) % 2 == 1 ==> BeforeOpening(x + [c]) == BeforeOpening(x)
  {
    OneLess(x, c);
  }

  /** A character escaped stands for itself or follows a backslash. */
  lemma EscapeShape(c: char)
    ensures (Escape(c) == [c] && c != '\"' && c != '\\') || exists d: char :: Escape(c) == ['\\', d]
  {
    var e := Escape(c);
    if |e| == 2 {
      assert e == ['\\', e[1]];
    }
  }

  lemma PairKeepsParity(x: string, d: char)
    requires TrailingBackslashes(x) % 2 == 0
    ensures TrailingBackslashes(x + ['\\', d]) % 2 == 0
    ensures BeforeOpening(x + ['\\', d]) == BeforeOpening(x)
  {
    OneMore(x, '\\');
    OneMore(x + ['\\'], d);
    assert x + ['\\', d] == x + ['\\'] + [d];
  }

  /** An escape before which backslashes pair up leaves them paired and opens no string. */
  lemma EscapeKeepsParity(x: string, c: char)
    requires TrailingBackslashes(x) % 2 == 0
    ensures TrailingBackslashes(x + Escape(c)) % 2 == 0
    ensures BeforeOpening(x + Escape(c)) == BeforeOpening(x)
  {
    EscapeShape(c);
    if d: char :| Escape(c) == ['\\', d] {
      PairKeepsParity(x, d);
    } else {
      OneMore(x, c);
    }
  }

  lemma {:induction false} OpeningFound(pre: string, s: string)
    requires TrailingBackslashes(pre) % 2 == 0
    ensures TrailingBackslashes(pre + "\"" + EscapeAll(s)) % 2 == 0
    ensures BeforeOpening(pre + "\"" + EscapeAll(s)) == Some(pre)
    decreases |s|
  {
    if s == "" {
      OneLess(pre, '\"');
      assert pre + "\"" + EscapeAll(s) == pre + ['\"'];
    } else {
      var t, c := s[..|s| - 1], s[|s| - 1];
      OpeningFound(pre, t);
      assert s == t + [c];
      EscapeAllAppend(t, [c]);
      assert EscapeAll([c]) == Escape(c) + EscapeAll([c][1..]) == Escape(c);
      Assoc(pre + "\"", EscapeAll(t), Escape(c));
      EscapeKeepsParity(pre + "\"" + EscapeAll(t), c);
    }
  }

  lemma QuotedEnds(pre: string, body: string)
    ensures pre + ("\"" + body + "\"") == pre + "\"" + body + ['\"']
  {
  }

  lemma QuotedStripped(pre: string, s: string)
    requires TrailingBackslashes(pre) % 2 == 0
    ensures StripString(pre + Quoted(s)) == Some(pre)
  {
    QuotedEnds(pre, EscapeAll(s));
    OneLess(pre + "\"" + EscapeAll(s), '\"');
    OpeningFound(pre, s);
  }

  lemma QuotedStrippable(s: string)
    ensures Strippable(Quoted(s), StringElement)
  {
    forall pre | pre != "" && !EndsWith(pre, '\\')
      ensures StripElement(pre + Quoted(s), StringElement) == Some(pre)
    {
      QuotedStripped(pre, s);
    }
  }

  lemma PairStripped(pre: string, k: string, v: string)
    ensures StripPair(pre + PairText((k, v))) == Some(pre)
  {
    var a := pre + ['('];
    var b := a + Quoted(k) + [','];
    assert Joined([Quoted(k), Quoted(v)]) == Quoted(k) + "," + Quoted(v);
    assert pre + PairText((k, v)) == (b + Quoted(v)) + [')'];
    OneLess(b + Quoted(v), ')');
    QuotedStripped(b, v);
    OneLess(a + Quoted(k), ',');
    QuotedStripped(a, k);
    OneLess(pre, '(');
  }

  lemma PairStrippable(kv: (string, string))
    ensures Strippable(PairText(kv), PairElement)
  {
    forall pre | pre != "" && !EndsWith(pre, '\\')
      ensures StripElement(pre + PairText(kv), PairElement) == Some(pre)
    {
      PairStripped(pre, kv.0, kv.1);
    }
  }

  lemma FirstItem(pre: string, item: string, element: Element)
    requires Strippable(item, element)
    ensures StripItems(pre + ['['] + item, element) == Some(pre)
  {
    OneLess(pre, '[');
    assert StripElement(pre + ['['] + item, element) == Some(pre + ['[']);
  }

  lemma LaterItem(before: string, item: string, element: Element)
    requires Strippable(item, element)
    ensures StripItems(before + [','] + item, element) == StripItems(before, element)
  {
    OneLess(before, ',');
    assert StripElement(before + [','] + item, element) == Some(before + [',']);
  }

  lemma {:induction false} ItemsStripped(pre: string, texts: seq<string>, element: Element)
    requires texts != [] && forall t :: t in texts ==> Strippable(t, element)
    ensures StripItems(pre + "[" + Joined(texts), element) == Some(pre)
    decreases |texts|
  {
    var n := |texts|;
    var last := texts[n - 1];
    if n == 1 {
      FirstItem(pre, last, element);
    } else {
      var rest := texts[..n - 1];
      assert texts == rest + [last];
      JoinedAppend(rest, last);
      Assoc4(pre + "[", Joined(rest), ",", last);
      LaterItem(pre + "[" + Joined(rest), last, element);
      ItemsStripped(pre, rest, element);
    }
  }

  lemma ElementEnd(s: string, element: Element)
    requires StripElement(s, element).Some?
    ensures EndsWith(s, '\"') || EndsWith(s, ')')
  {
  }

  lemma StrippableEnd(text: string, element: Element)
    requires Strippable(text, element)
    ensures text != "" && !EndsWith(text, '[')
  {
    var s := " " + text;
    assert StripElement(s, element) == Some(" ");
    ElementEnd(s, element);
    assert text != "" ==> text[|text| - 1] == s[|s| - 1];
  }

  lemma ListStripped(pre: string, texts: seq<string>, element: Element)
    requires forall t :: t in texts ==> Strippable(t, element)
    ensures StripList(pre + ListText(texts), element) == Some(pre)
  {
    var items := pre + "[" + Joined(texts);
    assert pre + ListText(texts) == items + [']'];
    ClosingStripped(items, element);
    if texts == [] {
      assert items == pre + ['['];
      OneLess(pre, '[');
    } else {
      ItemsStripped(pre, texts, element);
      ItemsEnd(pre, texts, element);
    }
  }

  lemma ClosingStripped(items: string, element: Element)
    ensures StripList(items + [']'], element) ==
      if EndsWith(items, '[') then Some(items[..|items| - 1]) else StripItems(items, element)
  {
    OneLess(items, ']');
  }

  lemma ItemsEnd(pre: string, texts: seq<string>, element: Element)
    requires texts != [] && Strippable(texts[|texts| - 1], element)
    ensures !EndsWith(pre + "[" + Joined(texts), '[')
  {
    StrippableEnd(texts[|texts| - 1], element);
    JoinedEnd(texts);
    LastOf(pre + "[", Joined(texts));
  }

  lemma LastOf(a: string, b: string)
    requires b != ""
    ensures (a + b)[|a + b| - 1] == b[|b| - 1]
  {
  }

  lemma {:induction false} JoinedEnd(texts: seq<string>)
    requires texts != [] && texts[|texts| - 1] != ""
    ensures var last := texts[|texts| - 1];
      Joined(texts) != "" && Joined(texts)[|Joined(texts)| - 1] == last[|last| - 1]
    decreases |texts|
  {
    if |texts| > 1 {
      JoinedEnd(texts[1..]);
    }
  }

  // ----- the platform comes back ---------------------------------------------------------------

  lemma PrefixStripped(prefix: string, rest: string)
    ensures StripPrefix(Some(prefix + rest), prefix) == Some(rest)
  {
  }

  lemma FieldSkipped(field: string, rest: string)
    requires Skippable(field)
    ensures SkipField(Some(field + ("," + rest))) == Some(rest)
  {
    assert SkipTerm(field + ("," + rest)) == Some("," + rest);
    PrefixStripped(",", rest);
  }

  lemma FieldsSkippable(d: Derivation, inputs: Inputs)
    ensures Skippable(ListText(Each(d.outputs, OutputText)))
    ensures Skippable(ListText(Each(inputs, InputText)))
    ensures Skippable(ListText(Each(d.inputSrcs, Quoted)))
    ensures Skippable(Quoted(d.builder))
    ensures Skippable(ListText(Each(d.args, Quoted)))
    ensures Skippable(ListText(Each(d.env, PairText)))
  {
    forall o | o in d.outputs {
      OutputSkippable(o);
    }
    EachSkippable(d.outputs, OutputText);
    forall i | i in inputs {
      InputSkippable(i);
    }
    EachSkippable(inputs, InputText);
    StringsSkippable(d.inputSrcs);
    QuotedSkippable(d.builder);
    StringsSkippable(d.args);
    forall kv | kv in d.env {
      PairSkippable(kv);
    }
    EachSkippable(d.env, PairText);
  }

  lemma RegroupFields(l1: string, l2: string, l3: string, r: string)
    ensures "Derive(" + l1 + "," + l2 + "," + l3 + "," + r == "Derive(" + (l1 + ("," + (l2 + ("," + (l3 + ("," + r))))))
  {
    var x1 := "Derive(" + l1;
    var x2 := x1 + "," + l2;
    var x3 := x2 + "," + l3;
    Assoc(x3, ",", r);
    Assoc(x2 + ",", l3, "," + r);
    Assoc(x2, ",", l3 + ("," + r));
    var r2 := "," + (l3 + ("," + r));
    Assoc(x1 + ",", l2, r2);
    Assoc(x1, ",", l2 + r2);
    Assoc("Derive(", l1, "," + (l2 + r2));
  }

  lemma ForwardsToPlatform(l1: string, l2: string, l3: string, rest: string)
    requires Skippable(l1) && Skippable(l2) && Skippable(l3)
    ensures FromPlatform("Derive(" + l1 + "," + l2 + "," + l3 + "," + ("\"" + rest)) == Some(rest)
  {
    var r3 := "\"" + rest;
    var r2 := l3 + ("," + r3);
    var r1 := l2 + ("," + r2);
    RegroupFields(l1, l2, l3, r3);
    PrefixStripped("Derive(", l1 + ("," + r1));
    FieldSkipped(l1, r1);
    FieldSkipped(l2, r2);
    FieldSkipped(l3, r3);
    PrefixStripped("\"", rest);
  }

  /** The text after the platform, grouped as the reader comes to it from the end. */
  lemma RegroupAfter(p: string, b: string, la: string, le: string)
    ensures p + ("\"" + "," + b + "," + la + "," + le + ")") == p + "\"" + "," + b + "," + la + "," + le + ")"
  {
    var y1 := "\"" + "," + b;
    var y2 := y1 + "," + la;
    var y3 := y2 + "," + le;
    Assoc(p, y3, ")");
    Assoc(p, y2 + ",", le);
    Assoc(p, y2, ",");
    Assoc(p, y1 + ",", la);
    Assoc(p, y1, ",");
    Assoc(p, "\"" + ",", b);
    Assoc(p, "\"", ",");
  }

  lemma CharStripped(x: string, c: char)
    ensures StripChar(Some(x + [c]), c) == Some(x)
  {
    OneLess(x, c);
  }

  lemma BackwardsToPlatform(p: string, builder: string, args: seq<string>, env: seq<(string, string)>)
    ensures UpToPlatform(p + "\"" + "," + Quoted(builder) + "," + ListText(Each(args, Quoted)) + ","
      + ListText(Each(env, PairText)) + ")") == Some(p)
  {
    var x0 := p + "\"" + "," + Quoted(builder);
    var x1 := x0 + "," + ListText(Each(args, Quoted));
    var x2 := x1 + "," + ListText(Each(env, PairText));
    CharStripped(x2, ')');
    EnvStripped(x1 + ",", env);
    CharStripped(x1, ',');
    StringsStripped(x0 + ",", args);
    CharStripped(x0, ',');
    NoTrailingBackslash(p + "\"", ',');
    QuotedStripped(p + "\"" + ",", builder);
    CharStripped(p + "\"", ',');
    CharStripped(p, '\"');
  }

  lemma NoTrailingBackslash(x: string, c: char)
    requires c != '\\'
    ensures TrailingBackslashes(x + [c]) == 0
  {
    OneLess(x, c);
  }

  lemma EnvStripped(pre: string, env: seq<(string, string)>)
    ensures StripList(pre + ListText(Each(env, PairText)), PairElement) == Some(pre)
  {
    forall kv | kv in env {
      PairStrippable(kv);
    }
    ListStripped(pre, Each(env, PairText), PairElement);
  }

  lemma StringsStripped(pre: string, items: seq<string>)
    ensures StripList(pre + ListText(Each(items, Quoted)), StringElement) == Some(pre)
  {
    forall x | x in items {
      QuotedStrippable(x);
    }
    ListStripped(pre, Each(items, Quoted), StringElement);
  }

  /** All of the text before the platform's opening quote. */
  function Head(d: Derivation, inputs: Inputs): string {
    "Derive(" + ListText(Each(d.outputs, OutputText)) + "," + ListText(Each(inputs, InputText)) + ","
    + ListText(Each(d.inputSrcs, Quoted)) + ","
  }

  lemma SplitAtPlatform(d: Derivation, inputs: Inputs)
    ensures UnparseText(d, inputs) == Head(d, inputs) + ("\"" + (d.platform + AfterPlatform(d)))
  {
    Assoc(BeforePlatform(d, inputs), d.platform, AfterPlatform(d));
    Assoc(Head(d, inputs), "\"", d.platform + AfterPlatform(d));
  }

  /** Whatever the platform is, even text imitating what follows it, it is read back whole. */
  lemma PlatformRecovered(d: Derivation, inputs: Inputs)
    ensures FromPlatform(UnparseText(d, inputs)) == Some(d.platform + AfterPlatform(d))
    ensures Platform(UnparseText(d, inputs)) == Some(d.platform)
    ensures Misreads(UnparseText(d, inputs)) <==> NeedsEscape(d.platform)
  {
    FieldsSkippable(d, inputs);
    ForwardsToPlatform(ListText(Each(d.outputs, OutputText)), ListText(Each(inputs, InputText)),
      ListText(Each(d.inputSrcs, Quoted)), d.platform + AfterPlatform(d));
    SplitAtPlatform(d, inputs);
    BackwardsToPlatform(d.platform, d.builder, d.args, d.env);
    RegroupAfter(d.platform, Quoted(d.builder), ListText(Each(d.args, Quoted)), ListText(Each(d.env, PairText)));
  }

  // ----- the text determines the derivation --------------------------------------------------

  lemma SplitFields(a: string, r: string, b: string, q: string)
    requires Skippable(a) && Skippable(b) && a + r == b + q
    ensures a == b && r == q
  {
    assert SkipTerm(a + r) == Some(r) && SkipTerm(b + q) == Some(q);
    assert (a + r)[..|a|] == a && (b + q)[..|b|] == b;
  }

  function Rest(texts: seq<string>): string
    requires texts != []
  {
    if |texts| == 1 then "" else "," + Joined(texts[1..])
  }

  lemma JoinedSplit(texts: seq<string>)
    requires texts != []
    ensures Joined(texts) == texts[0] + Rest(texts) && texts == [texts[0]] + texts[1..]
    ensures |texts| > 1 ==> Rest(texts) != "" && Rest(texts)[1..] == Joined(texts[1..])
  {
    if |texts| > 1 {
      Assoc(texts[0], ",", Joined(texts[1..]));
    }
  }

  lemma {:induction false} JoinedInjective(ts: seq<string>, us: seq<string>)
    requires forall t :: t in ts ==> Skippable(t)
    requires forall u :: u in us ==> Skippable(u)
    requires Joined(ts) == Joined(us)
    ensures ts == us
    decreases |ts|
  {
    if ts == [] && us != [] {
      SkippableStart(us[0]);
      JoinedSplit(us);
    } else if us == [] && ts != [] {
      SkippableStart(ts[0]);
      JoinedSplit(ts);
    } else if ts != [] {
      JoinedSplit(ts);
      JoinedSplit(us);
      SplitFields(ts[0], Rest(ts), us[0], Rest(us));
      if |ts| > 1 {
        JoinedInjective(ts[1..], us[1..]);
      }
    }
  }

  lemma {:induction false} EscapeAllInjective(a: string, b: string)
    requires EscapeAll(a) == EscapeAll(b)
    ensures a == b
  {
    if a != "" && b != "" {
      var e, f := Escape(a[0]), Escape(b[0]);
      assert EscapeAll(a)[0] == e[0] && EscapeAll(b)[0] == f[0];
      if |e| == 2 {
        assert EscapeAll(a)[1] == e[1];
      }
      if |f| == 2 {
        assert EscapeAll(b)[1] == f[1];
      }
      assert e == f && a[0] == b[0];
      assert EscapeAll(a)[|e|..] == EscapeAll(a[1..]) && EscapeAll(b)[|f|..] == EscapeAll(b[1..]);
      EscapeAllInjective(a[1..], b[1..]);
      assert a == [a[0]] + a[1..] && b == [b[0]] + b[1..];
    }
  }

  lemma QuotedInjective(a: string, b: string)
    requires Quoted(a) == Quoted(b)
    ensures a == b
  {
    assert Quoted(a)[1..|Quoted(a)| - 1] == EscapeAll(a) && Quoted(b)[1..|Quoted(b)| - 1] == EscapeAll(b);
    EscapeAllInjective(a, b);
  }

  /** Distinct items have distinct texts, none starting another. */
  ghost predicate Readable<T(!new)>(f: T -> string) {
    && (forall x :: Skippable(f(x)))
    && (forall x, y :: f(x) == f(y) ==> x == y)
  }

  lemma ListInjective<T(!new)>(xs: seq<T>, ys: seq<T>, f: T -> string)
    requires Readable(f) && ListText(Each(xs, f)) == ListText(Each(ys, f))
    ensures xs == ys
  {
    var ts, us := Each(xs, f), Each(ys, f);
    assert ListText(ts)[1..|ListText(ts)| - 1] == Joined(ts) && ListText(us)[1..|ListText(us)| - 1] == Joined(us);
    JoinedInjective(ts, us);
    assert forall i :: 0 <= i < |xs| ==> ts[i] == f(xs[i]) && us[i] == f(ys[i]);
  }

  lemma TupleInjective(ts: seq<string>, us: seq<string>)
    requires forall t :: t in ts ==> Skippable(t)
    requires forall u :: u in us ==> Skippable(u)
    requires TupleText(ts) == TupleText(us)
    ensures ts == us
  {
    assert TupleText(ts)[1..|TupleText(ts)| - 1] == Joined(ts) && TupleText(us)[1..|TupleText(us)| - 1] == Joined(us);
    JoinedInjective(ts, us);
  }

  lemma StringsReadable()
    ensures Readable(Quoted)
  {
    forall x {
      QuotedSkippable(x);
    }
    forall x, y | Quoted(x) == Quoted(y)
      ensures x == y
    {
      QuotedInjective(x, y);
    }
  }

  lemma OutputsReadable()
    ensures Readable(OutputText)
  {
    StringsReadable();
    forall o {
      OutputSkippable(o);
    }
    forall o: (string, Output), p: (string, Output) | OutputText(o) == OutputText(p)
      ensures o == p
    {
      var ts := [Quoted(o.0), Quoted(o.1.path), Quoted(o.1.hashAlgo), Quoted(o.1.hash)];
      var us := [Quoted(p.0), Quoted(p.1.path), Quoted(p.1.hashAlgo), Quoted(p.1.hash)];
      TupleInjective(ts, us);
      assert ts[0] == us[0] && ts[1] == us[1] && ts[2] == us[2] && ts[3] == us[3];
    }
  }

  lemma InputsReadable()
    ensures Readable(InputText)
  {
    StringsReadable();
    forall i {
      InputSkippable(i);
    }
    forall i: (string, seq<string>), j: (string, seq<string>) | InputText(i) == InputText(j)
      ensures i == j
    {
      StringsSkippable(i.1);
      StringsSkippable(j.1);
      var ts := [Quoted(i.0), ListText(Each(i.1, Quoted))];
      var us := [Quoted(j.0), ListText(Each(j.1, Quoted))];
      TupleInjective(ts, us);
      assert ts[0] == us[0] && ts[1] == us[1];
      ListInjective(i.1, j.1, Quoted);
    }
  }

  lemma PairsReadable()
    ensures Readable(PairText)
  {
    StringsReadable();
    forall kv {
      PairSkippable(kv);
    }
    forall kv: (string, string), lw: (string, string) | PairText(kv) == PairText(lw)
      ensures kv == lw
    {
      var ts, us := [Quoted(kv.0), Quoted(kv.1)], [Quoted(lw.0), Quoted(lw.1)];
      TupleInjective(ts, us);
      assert ts[0] == us[0] && ts[1] == us[1];
    }
  }

  lemma HeadInjective(d: Derivation, inputs: Inputs, e: Derivation, others: Inputs)
    requires Head(d, inputs) == Head(e, others)
    ensures d.outputs == e.outputs && inputs == others && d.inputSrcs == e.inputSrcs
  {
    var o1, i1, s1 := ListText(Each(d.outputs, OutputText)), ListText(Each(inputs, InputText)),
      ListText(Each(d.inputSrcs, Quoted));
    var o2, i2, s2 := ListText(Each(e.outputs, OutputText)), ListText(Each(others, InputText)),
      ListText(Each(e.inputSrcs, Quoted));
    FieldsSkippable(d, inputs);
    FieldsSkippable(e, others);
    RegroupFields(o1, i1, s1, "");
    RegroupFields(o2, i2, s2, "");
    assert Head(d, inputs) + "" == Head(d, inputs) && Head(e, others) + "" == Head(e, others);
    var r1, q1 := i1 + ("," + (s1 + ("," + ""))), i2 + ("," + (s2 + ("," + "")));
    PrefixStripped("Derive(", o1 + ("," + r1));
    PrefixStripped("Derive(", o2 + ("," + q1));
    SplitFields(o1, "," + r1, o2, "," + q1);
    PrefixStripped(",", r1);
    PrefixStripped(",", q1);
    SplitFields(i1, "," + (s1 + ("," + "")), i2, "," + (s2 + ("," + "")));
    PrefixStripped(",", s1 + ("," + ""));
    PrefixStripped(",", s2 + ("," + ""));
    SplitFields(s1, "," + "", s2, "," + "");
    OutputsReadable();
    ListInjective(d.outputs, e.outputs, OutputText);
    InputsReadable();
    ListInjective(inputs, others, InputText);
    StringsReadable();
    ListInjective(d.inputSrcs, e.inputSrcs, Quoted);
  }

  lemma RegroupTail(b: string, la: string, le: string)
    ensures "\"" + "," + b + "," + la + "," + le + ")" == ("\"" + ",") + (b + ("," + (la + ("," + (le + ")")))))
  {
    var y1 := "\"" + "," + b;
    var y2 := y1 + "," + la;
    Assoc(y2 + ",", le, ")");
    Assoc(y2, ",", le + ")");
    Assoc(y1 + ",", la, "," + (le + ")"));
    Assoc(y1, ",", la + ("," + (le + ")")));
    Assoc("\"" + ",", b, "," + (la + ("," + (le + ")"))));
  }

  lemma TailInjective(d: Derivation, e: Derivation)
    requires AfterPlatform(d) == AfterPlatform(e)
    ensures d.builder == e.builder && d.args == e.args && d.env == e.env
  {
    var b1, a1, v1 := Quoted(d.builder), ListText(Each(d.args, Quoted)), ListText(Each(d.env, PairText));
    var b2, a2, v2 := Quoted(e.builder), ListText(Each(e.args, Quoted)), ListText(Each(e.env, PairText));
    FieldsSkippable(d, []);
    FieldsSkippable(e, []);
    RegroupTail(b1, a1, v1);
    RegroupTail(b2, a2, v2);
    var r1, q1 := a1 + ("," + (v1 + ")")), a2 + ("," + (v2 + ")"));
    PrefixStripped("\"" + ",", b1 + ("," + r1));
    PrefixStripped("\"" + ",", b2 + ("," + q1));
    SplitFields(b1, "," + r1, b2, "," + q1);
    PrefixStripped(",", r1);
    PrefixStripped(",", q1);
    SplitFields(a1, "," + (v1 + ")"), a2, "," + (v2 + ")"));
    PrefixStripped(",", v1 + ")");
    PrefixStripped(",", v2 + ")");
    SplitFields(v1, ")", v2, ")");
    QuotedInjective(d.builder, e.builder);
    StringsReadable();
    ListInjective(d.args, e.args, Quoted);
    PairsReadable();
    ListInjective(d.env, e.env, PairText);
  }

  lemma SplitAtEnd(a: string, r: string, b: string, q: string)
    requires a + r == b + q && |r| == |q|
    ensures a == b && r == q
  {
    assert (a + r)[..|a|] == a && (a + r)[|a|..] == r && (b + q)[..|b|] == b && (b + q)[|b|..] == q;
  }

  /** Derivations with the same text differ at most in what the text does not hold: the name,
    * and the inputs where `inputs` stands in for them.
    */
  lemma UnparseInjective(d: Derivation, inputs: Inputs, e: Derivation, others: Inputs)
    requires UnparseText(d, inputs) == UnparseText(e, others)
    ensures inputs == others
    ensures d.(name := e.name, inputDrvs := e.inputDrvs) == e
  {
    PlatformRecovered(d, inputs);
    PlatformRecovered(e, others);
    SplitAtPlatform(d, inputs);
    SplitAtPlatform(e, others);
    SplitAtEnd(d.platform, AfterPlatform(d), e.platform, AfterPlatform(e));
    SplitAtEnd(Head(d, inputs), "\"" + (d.platform + AfterPlatform(d)), Head(e, others),
      "\"" + (e.platform + AfterPlatform(e)));
    HeadInjective(d, inputs, e, others);
    TailInjective(d, e);
  }

  // ----- the reader ------------------------------------------------------------------------------

  lemma {:induction false} SkipsPlain(s: string, i: nat)
    requires i <= |s| && forall k :: 0 <= k < i ==> s[k] != '\"' && s[k] != '\\'
    ensures SkipString(s) == SkipString(s[i..])
    decreases i
  {
    if i > 0 {
      SkipsPlain(s[1..], i - 1);
      assert s[1..][i - 1..] == s[i..];
    } else {
      assert s[0..] == s;
    }
  }

  method FindSpecial(s: string) returns (i: nat)
    ensures i <= |s| && forall k :: 0 <= k < i ==> s[k] != '\"' && s[k] != '\\'
    ensures i < |s| ==> s[i] == '\"' || s[i] == '\\'
  {
    i := 0;
    while i < |s| && s[i] != '\"' && s[i] != '\\'
      invariant i <= |s| && forall k :: 0 <= k < i ==> s[k] != '\"' && s[k] != '\\'
    {
      i := i + 1;
    }
  }

  method SkipRestOfString(start: string) returns (r: Option<string>)
    ensures r == SkipString(start)
  {
    var s := start;
    while true
      invariant SkipString(s) == SkipString(start)
      decreases |s|
    {
      var i := FindSpecial(s);
      SkipsPlain(s, i);
      if i == |s| {
        return None;
      }
      var rest := s[i + 1..];
      assert s[i..][1..] == rest;
      if s[i] == '\"' {
        return Some(rest);
      }
      if rest == "" {
        return None;
      }
      assert s[i..][2..] == rest[1..];
      s := rest[1..];
    }
  }

  method SkipAterm(start: string) returns (r: Option<string>)
    ensures r == SkipTerm(start)
    decreases |start|
  {
    if start == "" {
      return None;
    }
    var close;
    match start[0] {
      case '\"' =>
        r := SkipRestOfString(start[1..]);
        return;
      case '[' => close := ']';
      case '(' => close := ')';
      case _ => return None;
    }
    var s := start[1..];
    if StartsWith(s, close) {
      return Some(s[1..]);
    }
    while true
      invariant |s| < |start| && SkipMoreItems(s, close) == SkipTerm(start)
      decreases |s|
    {
      var t := SkipAterm(s);
      if t.None? {
        return None;
      }
      s := t.value;
      if StartsWith(s, close) {
        return Some(s[1..]);
      }
      if !StartsWith(s, ',') {
        return None;
      }
      s := s[1..];
    }
  }

  /** Before the last `"` of `s`. */
  method BeforeLastQuote(s: string) returns (r: Option<string>)
    ensures r.None? ==> BeforeOpening(s) == None
    ensures r.Some? ==> r.value < s
    ensures r.Some? && TrailingBackslashes(r.value) % 2 == 0 ==> BeforeOpening(s) == r
    ensures r.Some? && TrailingBackslashes(r.value) % 2 != 0 ==> BeforeOpening(s) == BeforeOpening(r.value)
  {
    var n := |s|;
    assert s[..n] == s;
    while n > 0 && s[n - 1] != '\"'
      invariant n <= |s| && BeforeOpening(s[..n]) == BeforeOpening(s)
    {
      assert s[..n][..n - 1] == s[..n - 1];
      n := n - 1;
    }
    if n == 0 {
      return None;
    }
    assert s[..n][..n - 1] == s[..n - 1];
    return Some(s[..n - 1]);
  }

  method StripEscapedString(start: string) returns (r: Option<string>)
    ensures r == StripString(start)
  {
    if !EndsWith(start, '\"') {
      return None;
    }
    var s := start[..|start| - 1];
    while true
      invariant BeforeOpening(s) == StripString(start)
      decreases |s|
    {
      var before := BeforeLastQuote(s);
      if before.None? || TrailingBackslashes(before.value) % 2 == 0 {
        return before;
      }
      s := before.value;
    }
  }

  lemma ItemsFrom(s: string, element: Element)
    ensures var t := StripElement(s, element);
      StripItems(s, element) ==
        if t.None? then None
        else if EndsWith(t.value, '[') then Some(t.value[..|t.value| - 1])
        else if EndsWith(t.value, ',') then StripItems(t.value[..|t.value| - 1], element)
        else None
    ensures StripElement(s, element).Some? ==> |StripElement(s, element).value| < |s|
  {
  }

  method StripListOf(start: string, element: Element) returns (r: Option<string>)
    ensures r == StripList(start, element)
  {
    if !EndsWith(start, ']') {
      return None;
    }
    var s := start[..|start| - 1];
    if EndsWith(s, '[') {
      return Some(s[..|s| - 1]);
    }
    while true
      invariant StripItems(s, element) == StripList(start, element)
      decreases |s|
    {
      var t := StripElement(s, element);
      ItemsFrom(s, element);
      if t.None? {
        return None;
      }
      s := t.value;
      if EndsWith(s, '[') {
        return Some(s[..|s| - 1]);
      }
      if !EndsWith(s, ',') {
        return None;
      }
      s := s[..|s| - 1];
    }
  }

  method ReadField(s: Option<string>) returns (r: Option<string>)
    ensures r == SkipField(s)
  {
    if s.None? {
      return None;
    }
    var after := SkipAterm(s.value);
    r := StripPrefix(after, ",");
  }

  method ReadFieldBack(s: Option<string>, element: Element) returns (r: Option<string>)
    ensures r == StripField(s, element)
  {
    if s.None? {
      return None;
    }
    var before := StripListOf(s.value, element);
    r := StripChar(before, ',');
  }

  method ReadStringBack(s: Option<string>) returns (r: Option<string>)
    ensures r == StripStringField(s)
  {
    if s.None? {
      return None;
    }
    var before := StripEscapedString(s.value);
    r := StripChar(before, ',');
  }

  method ReadFields(drv: string) returns (r: Option<string>)
    ensures r == FromPlatform(drv)
  {
    // Outputs, input derivations and input sources.
    var outputs := StripPrefix(Some(drv), "Derive(");
    var inputs := ReadField(outputs);
    var sources := ReadField(inputs);
    var rest := ReadField(sources);
    r := StripPrefix(rest, "\"");
  }

  method ReadFieldsBack(s: string) returns (r: Option<string>)
    ensures r == UpToPlatform(s)
  {
    // Environment, arguments and builder.
    var env := StripChar(Some(s), ')');
    var args := ReadFieldBack(env, PairElement);
    var builder := ReadFieldBack(args, StringElement);
    var quoted := ReadStringBack(builder);
    r := StripChar(quoted, '\"');
  }

  method ReadPlatform(drv: string) returns (r: Option<string>)
    ensures r == Platform(drv)
  {
    r := ReadFields(drv);
    if r.Some? {
      r := ReadFieldsBack(r.value);
    }
  }

  /** Whether `drv` is a derivation's text that is well formed but for its platform. */
  method UnescapedPlatform(drv: string) returns (found: bool)
    ensures found == Misreads(drv)
  {
    var platform := ReadPlatform(drv);
    found := platform.Some? && NeedsEscape(platform.value);
  }
}
