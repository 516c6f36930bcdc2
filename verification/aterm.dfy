/** The ATerm text of a store derivation. A byte stands as the character with its code: the
  * escaped ones are all ASCII, so the text reads the same as bytes or as decoded UTF-8.
  */
module ATerm {
  function Escape(c: char): string {
    match c
    case '\"' => "\\\""
    case '\\' => "\\\\"
    case '\n' => "\\n"
    case '\r' => "\\r"
    case '\t' => "\\t"
    case _ => [c]
  }

  function EscapeAll(s: string): string {
    if s == "" then "" else Escape(s[0]) + EscapeAll(s[1..])
  }

  function Quoted(s: string): string {
    "\"" + EscapeAll(s) + "\""
  }

  /** `texts` with commas between. */
  function Joined(texts: seq<string>): string {
    if texts == [] then ""
    else if |texts| == 1 then texts[0]
    else texts[0] + "," + Joined(texts[1..])
  }

  function ListText(texts: seq<string>): string {
    "[" + Joined(texts) + "]"
  }

  function TupleText(texts: seq<string>): string {
    "(" + Joined(texts) + ")"
  }

  function Each<T>(items: seq<T>, f: T -> string): (texts: seq<string>)
    ensures |texts| == |items| && forall i :: 0 <= i < |items| ==> texts[i] == f(items[i])
  {
    seq(|items|, i requires 0 <= i < |items| => f(items[i]))
  }

  // ----- derivations -------------------------------------------------------------------------

  datatype Output = Output(path: string, hashAlgo: string, hash: string)

  /** An ordered map is given by its entries in the order they are written. */
  type Inputs = seq<(string, seq<string>)>

  datatype Derivation = Derivation(
    name: string,
    outputs: seq<(string, Output)>,
    inputDrvs: Inputs,
    inputSrcs: seq<string>,
    platform: string,
    builder: string,
    args: seq<string>,
    env: seq<(string, string)>)

  function OutputText(o: (string, Output)): string {
    TupleText([Quoted(o.0), Quoted(o.1.path), Quoted(o.1.hashAlgo), Quoted(o.1.hash)])
  }

  function InputText(i: (string, seq<string>)): string {
    TupleText([Quoted(i.0), ListText(Each(i.1, Quoted))])
  }

  function PairText(kv: (string, string)): string {
    TupleText([Quoted(kv.0), Quoted(kv.1)])
  }

  function BeforePlatform(d: Derivation, inputs: Inputs): string {
    "Derive(" + ListText(Each(d.outputs, OutputText)) + "," + ListText(Each(inputs, InputText)) + ","
    + ListText(Each(d.inputSrcs, Quoted)) + "," + "\""
  }

  function AfterPlatform(d: Derivation): string {
    "\"" + "," + Quoted(d.builder) + "," + ListText(Each(d.args, Quoted)) + "," + ListText(Each(d.env, PairText)) + ")"
  }

  /** The whole text: every string escaped but the platform. */
  function UnparseText(d: Derivation, inputs: Inputs): string {
    BeforePlatform(d, inputs) + d.platform + AfterPlatform(d)
  }

  // ----- the writer ----------------------------------------------------------------------------

  class Buffer {
    var text: string

    constructor (start: string)
      ensures text == start
    {
      text := start;
    }

    method Push(c: char)
      modifies this
      ensures text == old(text) + [c]
    {
      text := text + [c];
    }

    method Extend(s: string)
      modifies this
      ensures text == old(text) + s
    {
      text := text + s;
    }
  }

  lemma Assoc(a: string, b: string, c: string)
    ensures (a + b) + c == a + (b + c)
  {
  }

  lemma {:induction false} EscapeAllAppend(a: string, b: string)
    ensures EscapeAll(a + b) == EscapeAll(a) + EscapeAll(b)
  {
    if a == "" {
      assert a + b == b;
    } else {
      EscapeAllAppend(a[1..], b);
      assert (a + b)[1..] == a[1..] + b;
      Assoc(Escape(a[0]), EscapeAll(a[1..]), EscapeAll(b));
    }
  }

  lemma {:induction false} JoinedAppend(texts: seq<string>, last: string)
    requires texts != []
    ensures Joined(texts + [last]) == Joined(texts) + "," + last
  {
    assert (texts + [last])[1..] == texts[1..] + [last];
    if |texts| == 1 {
      assert (texts + [last])[1..] == [last];
    } else {
      JoinedAppend(texts[1..], last);
    }
  }

  method AtermStr(out: Buffer, s: string)
    modifies out
    ensures out.text == old(out.text) + Quoted(s)
  {
    out.Push('\"');
    for i := 0 to |s|
      invariant out.text == old(out.text) + "\"" + EscapeAll(s[..i])
    {
      EscapeAllAppend(s[..i], [s[i]]);
      assert EscapeAll([s[i]]) == Escape(s[i]) + EscapeAll([s[i]][1..]) == Escape(s[i]);
      assert s[..i + 1] == s[..i] + [s[i]];
      match s[i] {
        case '\"' => out.Extend("\\\"");
        case '\\' => out.Extend("\\\\");
        case '\n' => out.Extend("\\n");
        case '\r' => out.Extend("\\r");
        case '\t' => out.Extend("\\t");
        case c => out.Push(c);
      }
    }
    assert s[..|s|] == s;
    out.Push('\"');
  }

  /** `f` is what the caller writes for each item. */
  method AtermList<T>(out: Buffer, items: seq<T>, f: T -> string)
    modifies out
    ensures out.text == old(out.text) + ListText(Each(items, f))
  {
    out.Push('[');
    for i := 0 to |items|
      invariant out.text == old(out.text) + "[" + Joined(Each(items, f)[..i])
    {
      var texts := Each(items, f);
      assert texts[..i + 1] == texts[..i] + [texts[i]];
      if i > 0 {
        JoinedAppend(texts[..i], texts[i]);
        out.Push(',');
      }
      out.Extend(f(items[i]));
    }
    assert Each(items, f)[..|items|] == Each(items, f);
    out.Push(']');
  }

  method WriteAfterPlatform(out: Buffer, d: Derivation)
    modifies out
    ensures out.text == old(out.text) + AfterPlatform(d)
  {
    ghost var start, done := out.text, "\"";
    out.Push('\"');
    Assoc(start, done, ",");
    done := done + ",";
    out.Push(',');
    Assoc(start, done, Quoted(d.builder));
    done := done + Quoted(d.builder);
    AtermStr(out, d.builder);
    Assoc(start, done, ",");
    done := done + ",";
    out.Push(',');
    Assoc(start, done, ListText(Each(d.args, Quoted)));
    done := done + ListText(Each(d.args, Quoted));
    AtermList(out, d.args, Quoted);
    Assoc(start, done, ",");
    done := done + ",";
    out.Push(',');
    Assoc(start, done, ListText(Each(d.env, PairText)));
    done := done + ListText(Each(d.env, PairText));
    AtermList(out, d.env, PairText);
    Assoc(start, done, ")");
    out.Push(')');
  }

  method Unparse(d: Derivation, inputs: Inputs) returns (text: string)
    ensures text == UnparseText(d, inputs)
  {
    var out := new Buffer("Derive(");
    AtermList(out, d.outputs, OutputText);
    out.Push(',');
    AtermList(out, inputs, InputText);
    out.Push(',');
    AtermList(out, d.inputSrcs, Quoted);
    out.Push(',');
    out.Push('\"');
    out.Extend(d.platform);
    WriteAfterPlatform(out, d);
    text := out.text;
  }
}
