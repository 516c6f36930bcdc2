/** A parser of derivations, from the ATerm grammar alone: strings with their escapes undone, lists,
  * tuples, and fields taken by their position. It reads back all that a derivation's text holds.
  */
module ATermParser {
  import opened Wrappers
  import opened ATerm
  import opened PlatformReader

  // ----- terms -----------------------------------------------------------------------------------

  datatype Term = Str(text: string) | List(items: seq<Term>) | Tuple(fields: seq<Term>)

  /** What was read, and what comes after it. */
  datatype Parsed<+T> = Malformed | Parsed(value: T, rest: string)

  /** What a backslash and `c` stand for. */
  function Unescaped(c: char): char {
    if c == 'n' then '\n' else if c == 'r' then '\r' else if c == 't' then '\t' else c
  }

  /** The string that `s` is inside of. */
  function ParseString(s: string): (p: Parsed<string>)
    ensures p.Parsed? ==> |p.rest| < |s|
    decreases |s|
  {
    if s == "" then Malformed
    else if s[0] == '\"' then Parsed("", s[1..])
    else if s[0] != '\\' then Prepended(s[0], ParseString(s[1..]))
    else if |s| < 2 then Malformed
    else Prepended(Unescaped(s[1]), ParseString(s[2..]))
  }

  function Prepended(c: char, p: Parsed<string>): Parsed<string> {
    if p.Malformed? then Malformed else Parsed([c] + p.value, p.rest)
  }

  /** The term `s` starts with. */
  function ParseTerm(s: string): (p: Parsed<Term>)
    ensures p.Parsed? ==> |p.rest| < |s|
    decreases |s|, 0
  {
    if StartsWith(s, '\"') then
      match ParseString(s[1..])
      case Malformed => Malformed
      case Parsed(text, rest) => Parsed(Str(text), rest)
    else if StartsWith(s, '[') then
      match ParseItems(s[1..], ']')
      case Malformed => Malformed
      case Parsed(items, rest) => Parsed(List(items), rest)
    else if StartsWith(s, '(') then
      match ParseItems(s[1..], ')')
      case Malformed => Malformed
      case Parsed(items, rest) => Parsed(Tuple(items), rest)
    else Malformed
  }

  /** The terms up to `close`. */
  function ParseItems(s: string, close: char): (p: Parsed<seq<Term>>)
    ensures p.Parsed? ==> |p.rest| < |s|
    decreases |s|, 2
  {
    if StartsWith(s, close) then Parsed([], s[1..]) else ParseMoreItems(s, close)
  }

  function ParseMoreItems(s: string, close: char): (p: Parsed<seq<Term>>)
    ensures p.Parsed? ==> |p.rest| < |s|
    decreases |s|, 1
  {
    match ParseTerm(s)
    case Malformed => Malformed
    case Parsed(first, rest) =>
      if StartsWith(rest, close) then Parsed([first], rest[1..])
      else if !StartsWith(rest, ',') then Malformed
      else
        match ParseMoreItems(rest[1..], close)
        case Malformed => Malformed
        case Parsed(more, end) => Parsed([first] + more, end)
  }

  // ----- fields, by position ---------------------------------------------------------------------

  predicate AllStrings(terms: seq<Term>) {
    forall i :: 0 <= i < |terms| ==> terms[i].Str?
  }

  function TextOf(term: Term): string {
    if term.Str? then term.text else ""
  }

  function Strings(term: Term): Option<seq<string>> {
    if term.List? && AllStrings(term.items) then
      Some(seq(|term.items|, i requires 0 <= i < |term.items| => TextOf(term.items[i])))
    else None
  }

  function AsOutput(term: Term): Option<(string, Output)> {
    if term.Tuple? && |term.fields| == 4 && AllStrings(term.fields) then
      Some((term.fields[0].text,
        Output(path := term.fields[1].text, hashAlgo := term.fields[2].text, hash := term.fields[3].text)))
    else None
  }

  function AsInput(term: Term): Option<(string, seq<string>)> {
    if term.Tuple? && |term.fields| == 2 && term.fields[0].Str? && Strings(term.fields[1]).Some? then
      Some((term.fields[0].text, Strings(term.fields[1]).value))
    else None
  }

  function AsPair(term: Term): Option<(string, string)> {
    if term.Tuple? && |term.fields| == 2 && AllStrings(term.fields) then
      Some((term.fields[0].text, term.fields[1].text))
    else None
  }

  /** Each of `terms` read by `f`. */
  function ReadAll<T>(terms: seq<Term>, f: Term -> Option<T>): Option<seq<T>> {
    if terms == [] then Some([])
    else
      var first, more := f(terms[0]), ReadAll(terms[1..], f);
      if first.Some? && more.Some? then Some([first.value] + more.value) else None
  }

  function ReadList<T>(term: Term, f: Term -> Option<T>): Option<seq<T>> {
    if term.List? then ReadAll(term.items, f) else None
  }

  /** What a derivation's text holds, in the order it holds it. */
  datatype Contents = Contents(
    outputs: seq<(string, Output)>,
    inputs: Inputs,
    inputSrcs: seq<string>,
    platform: string,
    builder: string,
    args: seq<string>,
    env: seq<(string, string)>)

  /** A term and the comma after it. */
  function ParseField(s: string): Parsed<Term> {
    match ParseTerm(s)
    case Malformed => Malformed
    case Parsed(term, rest) => if StartsWith(rest, ',') then Parsed(term, rest[1..]) else Malformed
  }

  /** The three fields before the platform, and what its opening quote is before. */
  function ParseHead(text: string): Parsed<(Term, Term, Term)> {
    if !("Derive(" <= text) then Malformed
    else
      match ParseField(text[7..])
      case Malformed => Malformed
      case Parsed(outputs, afterOutputs) =>
        match ParseField(afterOutputs)
        case Malformed => Malformed
        case Parsed(inputs, afterInputs) =>
          match ParseField(afterInputs)
          case Malformed => Malformed
          case Parsed(sources, rest) =>
            if StartsWith(rest, '\"') then Parsed((outputs, inputs, sources), rest[1..]) else Malformed
  }

  /** The three fields after the platform's closing quote, up to the end. */
  function ParseTail(s: string): Option<(Term, Term, Term)> {
    if !("\"," <= s) then None
    else
      match ParseField(s[2..])
      case Malformed => None
      case Parsed(builder, afterBuilder) =>
        match ParseField(afterBuilder)
        case Malformed => None
        case Parsed(args, afterArgs) =>
          match ParseTerm(afterArgs)
          case Malformed => None
          case Parsed(env, end) => if end == ")" then Some((builder, args, env)) else None
  }

  function AsContents(head: (Term, Term, Term), platform: string, tail: (Term, Term, Term)): Option<Contents> {
    var outputs, inputs, sources := ReadList(head.0, AsOutput), ReadList(head.1, AsInput), Strings(head.2);
    var args, env := Strings(tail.1), ReadList(tail.2, AsPair);
    if outputs.Some? && inputs.Some? && sources.Some? && tail.0.Str? && args.Some? && env.Some? then
      Some(Contents(outputs := outputs.value, inputs := inputs.value, inputSrcs := sources.value,
        platform := platform, builder := tail.0.text, args := args.value, env := env.value))
    else None
  }

  /** The unescaped platform is as long as reading from the end leaves it. */
  function ParseDerivation(text: string): Option<Contents> {
    match ParseHead(text)
    case Malformed => None
    case Parsed(head, s) =>
      match UpToPlatform(s)
      case None => None
      case Some(platform) =>
        if !(platform <= s) then None
        else
          match ParseTail(s[|platform|..])
          case None => None
          case Some(tail) => AsContents(head, platform, tail)
  }

  // ----- terms are read back ---------------------------------------------------------------------

  /** Whatever follows it, `text` is read as `term`. */
  ghost predicate Writes(text: string, term: Term) {
    forall rest :: ParseTerm(text + rest) == Parsed(term, rest)
  }

  ghost predicate WriteEach(texts: seq<string>, terms: seq<Term>) {
    |texts| == |terms| && forall i :: 0 <= i < |texts| ==> Writes(texts[i], terms[i])
  }

  lemma EscapeParsed(c: char, tail: string)
    ensures ParseString(Escape(c) + tail) == Prepended(c, ParseString(tail))
  {
    var e := Escape(c);
    var text := e + tail;
    if |e| == 1 {
      assert text[0] == c && c != '\"' && c != '\\' && text[1..] == tail;
    } else {
      assert text[0] == '\\' && text[2..] == tail && Unescaped(text[1]) == c;
    }
  }

  lemma {:induction false} EscapedParsed(s: string, rest: string)
    ensures ParseString(EscapeAll(s) + "\"" + rest) == Parsed(s, rest)
  {
    if s == "" {
      assert (EscapeAll(s) + "\"" + rest)[1..] == rest;
    } else {
      EscapedParsed(s[1..], rest);
      EscapeParsed(s[0], EscapeAll(s[1..]) + "\"" + rest);
      Assoc4(Escape(s[0]), EscapeAll(s[1..]), "\"", rest);
      assert [s[0]] + s[1..] == s;
    }
  }

  lemma QuotedWrites(s: string)
    ensures Writes(Quoted(s), Str(s))
  {
    forall rest
      ensures ParseTerm(Quoted(s) + rest) == Parsed(Str(s), rest)
    {
      BehindQuote(EscapeAll(s), rest);
      EscapedParsed(s, rest);
    }
  }

  lemma AnotherItem(text: string, term: Term, more: string, close: char)
    requires Writes(text, term) && close != ','
    ensures ParseMoreItems(text + ("," + more), close) ==
      if ParseMoreItems(more, close).Malformed? then Malformed
      else Parsed([term] + ParseMoreItems(more, close).value, ParseMoreItems(more, close).rest)
  {
    assert ParseTerm(text + ("," + more)) == Parsed(term, "," + more);
    assert ("," + more)[1..] == more;
  }

  lemma FinalItem(text: string, term: Term, close: char, rest: string)
    requires Writes(text, term)
    ensures ParseMoreItems(text + ([close] + rest), close) == Parsed([term], rest)
  {
    assert ParseTerm(text + ([close] + rest)) == Parsed(term, [close] + rest);
    assert ([close] + rest)[1..] == rest;
  }

  lemma {:induction false} ItemsParsed(texts: seq<string>, terms: seq<Term>, close: char, rest: string)
    requires texts != [] && close != ',' && WriteEach(texts, terms)
    ensures ParseMoreItems(Joined(texts) + [close] + rest, close) == Parsed(terms, rest)
    decreases |texts|
  {
    assert Writes(texts[0], terms[0]);
    if |texts| == 1 {
      FinalItem(texts[0], terms[0], close, rest);
      Assoc(texts[0], [close], rest);
      assert terms == [terms[0]];
    } else {
      var more := Joined(texts[1..]) + [close] + rest;
      ItemsParsed(texts[1..], terms[1..], close, rest);
      AnotherItem(texts[0], terms[0], more, close);
      Assoc4(texts[0] + ",", Joined(texts[1..]), [close], rest);
      Assoc(texts[0], ",", more);
      assert [terms[0]] + terms[1..] == terms;
    }
  }

  lemma WritesStart(text: string, term: Term)
    requires Writes(text, term)
    ensures text != "" && text[0] != ']' && text[0] != ')'
  {
    assert ParseTerm(text + "") == Parsed(term, "") && text + "" == text;
  }

  lemma ItemsOfTermParsed(texts: seq<string>, terms: seq<Term>, close: char, rest: string)
    requires (close == ']' || close == ')') && WriteEach(texts, terms)
    ensures ParseItems(Joined(texts) + [close] + rest, close) == Parsed(terms, rest)
  {
    var s := Joined(texts) + [close] + rest;
    if texts == [] {
      assert s[1..] == rest;
    } else {
      ItemsParsed(texts, terms, close, rest);
      WritesStart(texts[0], terms[0]);
      assert texts[0] <= Joined(texts) <= s;
    }
  }

  lemma ListWrites(texts: seq<string>, terms: seq<Term>)
    requires WriteEach(texts, terms)
    ensures Writes(ListText(texts), List(terms))
  {
    forall rest
      ensures ParseTerm(ListText(texts) + rest) == Parsed(List(terms), rest)
    {
      var s := ListText(texts) + rest;
      assert s[0] == '[' && s[1..] == Joined(texts) + "]" + rest;
      ItemsOfTermParsed(texts, terms, ']', rest);
    }
  }

  lemma TupleWrites(texts: seq<string>, terms: seq<Term>)
    requires WriteEach(texts, terms)
    ensures Writes(TupleText(texts), Tuple(terms))
  {
    forall rest
      ensures ParseTerm(TupleText(texts) + rest) == Parsed(Tuple(terms), rest)
    {
      var s := TupleText(texts) + rest;
      assert s[0] == '(' && s[1..] == Joined(texts) + ")" + rest;
      ItemsOfTermParsed(texts, terms, ')', rest);
    }
  }

  // ----- fields are read back --------------------------------------------------------------------

  function StrTerms(items: seq<string>): (terms: seq<Term>)
    ensures |terms| == |items| && forall i :: 0 <= i < |items| ==> terms[i] == Str(items[i])
  {
    seq(|items|, i requires 0 <= i < |items| => Str(items[i]))
  }

  lemma StringsWrite(items: seq<string>)
    ensures Writes(ListText(Each(items, Quoted)), List(StrTerms(items)))
    ensures Strings(List(StrTerms(items))) == Some(items)
  {
    forall i | 0 <= i < |items|
      ensures Writes(Each(items, Quoted)[i], StrTerms(items)[i])
    {
      QuotedWrites(items[i]);
    }
    ListWrites(Each(items, Quoted), StrTerms(items));
    assert Strings(List(StrTerms(items))).value == items;
  }

  /** `f` writes texts that `g` reads back, by way of the term `of` makes. */
  ghost predicate ReadsBack<T(!new)>(f: T -> string, g: Term -> Option<T>, of: T -> Term) {
    forall x :: Writes(f(x), of(x)) && g(of(x)) == Some(x)
  }

  function TermOfEach<T>(items: seq<T>, of: T -> Term): (terms: seq<Term>)
    ensures |terms| == |items| && forall i :: 0 <= i < |items| ==> terms[i] == of(items[i])
  {
    seq(|items|, i requires 0 <= i < |items| => of(items[i]))
  }

  lemma {:induction false} AllReadBack<T(!new)>(items: seq<T>, f: T -> string, g: Term -> Option<T>, of: T -> Term)
    requires ReadsBack(f, g, of)
    ensures ReadAll(TermOfEach(items, of), g) == Some(items)
    decreases |items|
  {
    if items != [] {
      AllReadBack(items[1..], f, g, of);
      assert TermOfEach(items, of)[1..] == TermOfEach(items[1..], of);
      assert Writes(f(items[0]), of(items[0]));
      assert [items[0]] + items[1..] == items;
    }
  }

  lemma ListReadBack<T(!new)>(items: seq<T>, f: T -> string, g: Term -> Option<T>, of: T -> Term)
    requires ReadsBack(f, g, of)
    ensures Writes(ListText(Each(items, f)), List(TermOfEach(items, of)))
    ensures ReadList(List(TermOfEach(items, of)), g) == Some(items)
  {
    forall i | 0 <= i < |items|
      ensures Writes(Each(items, f)[i], TermOfEach(items, of)[i])
    {
      assert Writes(f(items[i]), of(items[i]));
    }
    ListWrites(Each(items, f), TermOfEach(items, of));
    AllReadBack(items, f, g, of);
  }

  function OfOutput(o: (string, Output)): Term {
    Tuple([Str(o.0), Str(o.1.path), Str(o.1.hashAlgo), Str(o.1.hash)])
  }

  function OfInput(i: (string, seq<string>)): Term {
    Tuple([Str(i.0), List(StrTerms(i.1))])
  }

  function OfPair(kv: (string, string)): Term {
    Tuple([Str(kv.0), Str(kv.1)])
  }

  lemma OutputsReadBack()
    ensures ReadsBack(OutputText, AsOutput, OfOutput)
  {
    forall o: (string, Output)
      ensures Writes(OutputText(o), OfOutput(o)) && AsOutput(OfOutput(o)) == Some(o)
    {
      QuotedWrites(o.0);
      QuotedWrites(o.1.path);
      QuotedWrites(o.1.hashAlgo);
      QuotedWrites(o.1.hash);
      TupleWrites([Quoted(o.0), Quoted(o.1.path), Quoted(o.1.hashAlgo), Quoted(o.1.hash)], OfOutput(o).fields);
    }
  }

  lemma InputsReadBack()
    ensures ReadsBack(InputText, AsInput, OfInput)
  {
    forall i: (string, seq<string>)
      ensures Writes(InputText(i), OfInput(i)) && AsInput(OfInput(i)) == Some(i)
    {
      QuotedWrites(i.0);
      StringsWrite(i.1);
      TupleWrites([Quoted(i.0), ListText(Each(i.1, Quoted))], OfInput(i).fields);
    }
  }

  lemma PairsReadBack()
    ensures ReadsBack(PairText, AsPair, OfPair)
  {
    forall kv: (string, string)
      ensures Writes(PairText(kv), OfPair(kv)) && AsPair(OfPair(kv)) == Some(kv)
    {
      QuotedWrites(kv.0);
      QuotedWrites(kv.1);
      TupleWrites([Quoted(kv.0), Quoted(kv.1)], OfPair(kv).fields);
    }
  }

  // ----- derivations are read back ---------------------------------------------------------------

  lemma FieldParsed(text: string, term: Term, rest: string)
    requires Writes(text, term)
    ensures ParseField(text + ("," + rest)) == Parsed(term, rest)
  {
    assert ParseTerm(text + ("," + rest)) == Parsed(term, "," + rest);
    assert ("," + rest)[1..] == rest;
  }

  lemma HeadParsed(l1: string, l2: string, l3: string, t1: Term, t2: Term, t3: Term, rest: string)
    requires Writes(l1, t1) && Writes(l2, t2) && Writes(l3, t3)
    ensures ParseHead("Derive(" + l1 + "," + l2 + "," + l3 + "," + ("\"" + rest)) == Parsed((t1, t2, t3), rest)
  {
    var r3 := "\"" + rest;
    var r2 := l3 + ("," + r3);
    var r1 := l2 + ("," + r2);
    RegroupFields(l1, l2, l3, r3);
    var text := "Derive(" + (l1 + ("," + r1));
    assert text[7..] == l1 + ("," + r1);
    FieldParsed(l1, t1, r1);
    FieldParsed(l2, t2, r2);
    FieldParsed(l3, t3, r3);
    assert r3[1..] == rest;
  }

  lemma TailParsed(l1: string, l2: string, l3: string, t1: Term, t2: Term, t3: Term)
    requires Writes(l1, t1) && Writes(l2, t2) && Writes(l3, t3)
    ensures ParseTail("\"" + "," + l1 + "," + l2 + "," + l3 + ")") == Some((t1, t2, t3))
  {
    var r2 := l3 + ")";
    var r1 := l2 + ("," + r2);
    var text := "\"" + "," + l1 + "," + l2 + "," + l3 + ")";
    RegroupTail(l1, l2, l3);
    assert text == "\"," + (l1 + ("," + r1));
    assert text[2..] == l1 + ("," + r1);
    FieldParsed(l1, t1, r1);
    FieldParsed(l2, t2, r2);
    assert ParseTerm(l3 + ")") == Parsed(t3, ")");
  }

  function HeadTerms(d: Derivation, inputs: Inputs): (Term, Term, Term) {
    (List(TermOfEach(d.outputs, OfOutput)), List(TermOfEach(inputs, OfInput)), List(StrTerms(d.inputSrcs)))
  }

  function TailTerms(d: Derivation): (Term, Term, Term) {
    (Str(d.builder), List(StrTerms(d.args)), List(TermOfEach(d.env, OfPair)))
  }

  lemma HeadReadBack(d: Derivation, inputs: Inputs)
    ensures ParseHead(UnparseText(d, inputs)) == Parsed(HeadTerms(d, inputs), d.platform + AfterPlatform(d))
  {
    var head := HeadTerms(d, inputs);
    OutputsReadBack();
    ListReadBack(d.outputs, OutputText, AsOutput, OfOutput);
    InputsReadBack();
    ListReadBack(inputs, InputText, AsInput, OfInput);
    StringsWrite(d.inputSrcs);
    HeadParsed(ListText(Each(d.outputs, OutputText)), ListText(Each(inputs, InputText)),
      ListText(Each(d.inputSrcs, Quoted)), head.0, head.1, head.2, d.platform + AfterPlatform(d));
    SplitAtPlatform(d, inputs);
  }

  lemma TailReadBack(d: Derivation)
    ensures ParseTail(AfterPlatform(d)) == Some(TailTerms(d))
  {
    var tail := TailTerms(d);
    QuotedWrites(d.builder);
    StringsWrite(d.args);
    PairsReadBack();
    ListReadBack(d.env, PairText, AsPair, OfPair);
    TailParsed(Quoted(d.builder), ListText(Each(d.args, Quoted)), ListText(Each(d.env, PairText)), tail.0, tail.1,
      tail.2);
  }

  lemma FieldsReadBack(d: Derivation, inputs: Inputs)
    ensures AsContents(HeadTerms(d, inputs), d.platform, TailTerms(d)) ==
      Some(Contents(outputs := d.outputs, inputs := inputs, inputSrcs := d.inputSrcs, platform := d.platform,
        builder := d.builder, args := d.args, env := d.env))
  {
    OutputsReadBack();
    AllReadBack(d.outputs, OutputText, AsOutput, OfOutput);
    InputsReadBack();
    AllReadBack(inputs, InputText, AsInput, OfInput);
    PairsReadBack();
    AllReadBack(d.env, PairText, AsPair, OfPair);
    StringsWrite(d.inputSrcs);
    StringsWrite(d.args);
  }

  /** A derivation's text is read back as its outputs, inputs, sources, platform, builder,
    * arguments and environment, whatever these are.
    */
  lemma DerivationReadBack(d: Derivation, inputs: Inputs)
    ensures ParseDerivation(UnparseText(d, inputs)) ==
      Some(Contents(outputs := d.outputs, inputs := inputs, inputSrcs := d.inputSrcs, platform := d.platform,
        builder := d.builder, args := d.args, env := d.env))
  {
    HeadReadBack(d, inputs);
    PlatformRecovered(d, inputs);
    SplitAtStart(d.platform, AfterPlatform(d));
    TailReadBack(d);
    FieldsReadBack(d, inputs);
  }

  lemma SplitAtStart(a: string, b: string)
    ensures a <= a + b && (a + b)[|a|..] == b
  {
  }

  // ----- the reader skips what the parser reads --------------------------------------------------

  lemma {:induction false} SkipsString(s: string)
    ensures SkipString(s) == RestOf(ParseString(s))
    decreases |s|
  {
    if s != "" && s[0] != '\"' {
      if s[0] != '\\' {
        SkipsString(s[1..]);
      } else if |s| >= 2 {
        SkipsString(s[2..]);
      }
    }
  }

  function RestOf<T>(p: Parsed<T>): Option<string> {
    if p.Malformed? then None else Some(p.rest)
  }

  /** On any text, well formed or not, a term is skipped exactly where one is read, and as far. */
  lemma {:induction false} SkipsTerm(s: string)
    ensures SkipTerm(s) == RestOf(ParseTerm(s))
    decreases |s|, 0
  {
    if StartsWith(s, '\"') {
      SkipsString(s[1..]);
    } else if StartsWith(s, '[') {
      SkipsItems(s[1..], ']');
    } else if StartsWith(s, '(') {
      SkipsItems(s[1..], ')');
    }
  }

  lemma {:induction false} SkipsItems(s: string, close: char)
    ensures SkipItems(s, close) == RestOf(ParseItems(s, close))
    decreases |s|, 2
  {
    if !StartsWith(s, close) {
      SkipsMoreItems(s, close);
    }
  }

  lemma {:induction false} SkipsMoreItems(s: string, close: char)
    ensures SkipMoreItems(s, close) == RestOf(ParseMoreItems(s, close))
    decreases |s|, 1
  {
    SkipsTerm(s);
    var first := ParseTerm(s);
    if first.Parsed? && !StartsWith(first.rest, close) && StartsWith(first.rest, ',') {
      SkipsMoreItems(first.rest[1..], close);
    }
  }

  lemma SkipsField(s: string)
    ensures SkipField(Some(s)) == RestOf(ParseField(s))
  {
    SkipsTerm(s);
    var first := ParseTerm(s);
    if first.Parsed? && StartsWith(first.rest, ',') {
      assert "," <= first.rest;
    }
  }

  /** So on any text the reader looks for the platform where the parser does. */
  lemma SkipsHead(text: string)
    ensures FromPlatform(text) == RestOf(ParseHead(text))
  {
    if "Derive(" <= text {
      var s := text[7..];
      SkipsField(s);
      var outputs := ParseField(s);
      if outputs.Parsed? {
        SkipsField(outputs.rest);
        var inputs := ParseField(outputs.rest);
        if inputs.Parsed? {
          SkipsField(inputs.rest);
          var sources := ParseField(inputs.rest);
          if sources.Parsed? && StartsWith(sources.rest, '\"') {
            assert "\"" <= sources.rest;
          }
        }
      }
    }
  }
}
