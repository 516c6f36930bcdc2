/** Reading archives back: a reader that undoes the writer, and accepts nothing else. */
module NarReader {
  import opened Wrappers
  import opened MemTrees
  import opened Nar

  // ----- strings ---------------------------------------------------------------------------------

  function FromLittleEndian(s: string): nat {
    if s == "" then 0 else s[0] as nat + 256 * FromLittleEndian(s[1..])
  }

  /** One string, and what follows it. */
  function ReadStr(s: string): (r: Option<(string, string)>)
    ensures r.Some? ==> |r.value.1| < |s|
  {
    if |s| < 8 then None else ReadBytes(s, FromLittleEndian(s[..8]))
  }

  predicate AllZero(s: string) {
    forall i :: 0 <= i < |s| ==> s[i] == '\0'
  }

  /** The `n` bytes after the length, and what follows the zeros that fill them up to eight. */
  function ReadBytes(s: string, n: nat): (r: Option<(string, string)>)
    requires |s| >= 8
    ensures r.Some? ==> |r.value.1| < |s|
  {
    var end := 8 + (n + 7) / 8 * 8;
    if end > |s| || !AllZero(s[8 + n..end]) then None else Some((s[8..8 + n], s[end..]))
  }

  function ReadField(s: Option<string>): (r: Option<(string, string)>)
    ensures r.Some? ==> s.Some? && |r.value.1| < |s.value|
  {
    if s.None? then None else ReadStr(s.value)
  }

  /** What follows `token`, if that comes next. */
  function Expect(s: Option<string>, token: string): (r: Option<string>)
    ensures r.Some? ==> s.Some? && |r.value| < |s.value|
  {
    match ReadField(s)
    case None => None
    case Some((t, rest)) => if t == token then Some(rest) else None
  }

  // ----- nodes -----------------------------------------------------------------------------------

  function ReadNode(s: string): (r: Option<(Listing, string)>)
    ensures r.Some? ==> |r.value.1| < |s|
    decreases |s|, 1
  {
    var inner := Expect(Expect(Some(s), "("), "type");
    if inner.None? then None else ReadBody(inner.value)
  }

  function ReadBody(s: string): (r: Option<(Listing, string)>)
    ensures r.Some? ==> |r.value.1| < |s|
    decreases |s|, 1
  {
    match ReadStr(s)
    case None => None
    case Some((kind, rest)) =>
      if kind == "symlink" then ReadLink(rest)
      else if kind == "regular" then ReadFile(rest)
      else if kind == "directory" then
        match ReadEntries(rest)
        case None => None
        case Some((entries, more)) => Some((DirListing(entries), more))
      else None
  }

  function ReadLink(s: string): (r: Option<(Listing, string)>)
    ensures r.Some? ==> |r.value.1| < |s|
  {
    match ReadField(Expect(Some(s), "target"))
    case None => None
    case Some((target, rest)) => Closed(LinkListing(target), rest)
  }

  function ReadFile(s: string): (r: Option<(Listing, string)>)
    ensures r.Some? ==> |r.value.1| < |s|
  {
    match ReadStr(s)
    case None => None
    case Some((word, rest)) =>
      if word == "executable" then ReadContents(Expect(Expect(Some(rest), ""), "contents"), true)
      else if word == "contents" then ReadContents(Some(rest), false)
      else None
  }

  function ReadContents(s: Option<string>, executable: bool): (r: Option<(Listing, string)>)
    ensures r.Some? ==> s.Some? && |r.value.1| < |s.value|
  {
    match ReadField(s)
    case None => None
    case Some((contents, rest)) => Closed(FileListing(contents, executable), rest)
  }

  function Closed(t: Listing, s: string): (r: Option<(Listing, string)>)
    ensures r.Some? ==> |r.value.1| < |s|
  {
    match Expect(Some(s), ")")
    case None => None
    case Some(rest) => Some((t, rest))
  }

  /** The entries of a directory up to its closing `)`. */
  function ReadEntries(s: string): (r: Option<(seq<Named>, string)>)
    ensures r.Some? ==> |r.value.1| < |s|
    decreases |s|, 0
  {
    match ReadStr(s)
    case None => None
    case Some((word, rest)) =>
      if word == ")" then Some(([], rest))
      else if word != "entry" then None
      else
        match ReadEntry(rest)
        case None => None
        case Some((entry, more)) =>
          match ReadEntries(more)
          case None => None
          case Some((entries, end)) => Some(([entry] + entries, end))
  }

  function ReadEntry(s: string): (r: Option<(Named, string)>)
    ensures r.Some? ==> |r.value.1| < |s|
    decreases |s|, 2
  {
    match ReadField(Expect(Expect(Some(s), "("), "name"))
    case None => None
    case Some((name, rest)) =>
      var node := Expect(Some(rest), "node");
      if node.None? then None
      else
        match ReadNode(node.value)
        case None => None
        case Some((t, more)) =>
          match Expect(Some(more), ")")
          case None => None
          case Some(end) => Some((Named(name, t), end))
  }

  function ReadArchive(s: string): Option<(Listing, string)> {
    var node := Expect(Some(s), "nix-archive-1");
    if node.None? then None else ReadNode(node.value)
  }

  // ----- what was written is read back -----------------------------------------------------------

  lemma {:induction false} NumberReadBack(n: nat, bytes: nat)
    requires n < Pow256(bytes)
    ensures FromLittleEndian(LittleEndian(n, bytes)) == n
    decreases bytes
  {
    if bytes > 0 {
      var s := LittleEndian(n, bytes);
      assert s[0] == (n % 256) as char && s[1..] == LittleEndian(n / 256, bytes - 1);
      NumberReadBack(n / 256, bytes - 1);
    }
  }

  lemma EightBytes()
    ensures Pow256(8) == TWO_64
  {
    assert Pow256(2) == 0x1_0000 && Pow256(4) == 0x1_0000_0000 && Pow256(6) == 0x1_0000_0000_0000;
  }

  lemma Sections(a: string, b: string, c: string, d: string)
    ensures var s := a + (b + (c + d));
      && s[..|a|] == a && s[|a|..|a| + |b|] == b
      && s[|a| + |b|..|a| + |b| + |c|] == c && s[|a| + |b| + |c|..] == d
  {
  }

  /** Padding fills up to eight bytes, with zeros. */
  lemma PaddingIs(n: nat, s: string)
    ensures n + |Padding(n)| == (n + 7) / 8 * 8
    ensures s == Padding(n) <==> |s| == |Padding(n)| && AllZero(s)
  {
    ZerosAre((8 - n % 8) % 8, s);
  }

  lemma {:induction false} ZerosAre(n: nat, s: string)
    ensures s == Zeros(n) <==> |s| == n && AllZero(s)
    decreases n
  {
    if n > 0 && |s| > 0 {
      ZerosAre(n - 1, s[1..]);
      assert s == [s[0]] + s[1..];
    }
  }

  lemma StrReadBack(x: string, rest: string)
    requires |x| < TWO_64
    ensures ReadStr(Str(x, rest)) == Some((x, rest))
  {
    EightBytes();
    NumberReadBack(|x|, 8);
    Sections(LittleEndian(|x|, 8), x, Padding(|x|), rest);
    PaddingIs(|x|, Padding(|x|));
  }

  lemma TokenReadBack(token: string, rest: string)
    requires |token| < TWO_64
    ensures Expect(Some(Str(token, rest)), token) == Some(rest)
  {
    StrReadBack(token, rest);
  }

  lemma NodeOpened(t: Listing, rest: string)
    ensures ReadNode(NodeText(t, rest)) == ReadBody(Body(t, rest))
  {
    TokenReadBack("(", Str("type", Body(t, rest)));
    TokenReadBack("type", Body(t, rest));
  }

  lemma DirectoryOpened(entries: seq<Named>, rest: string)
    requires ReadEntries(EntriesText(entries, Str(")", rest))) == Some((entries, rest))
    ensures ReadBody(Body(DirListing(entries), rest)) == Some((DirListing(entries), rest))
  {
    StrReadBack("directory", EntriesText(entries, Str(")", rest)));
  }

  /** A written node is read back, whatever follows it. */
  lemma {:induction false} NodeReadBack(t: Listing, rest: string)
    requires Fits(t)
    ensures ReadNode(NodeText(t, rest)) == Some((t, rest))
    decreases t, 1
  {
    NodeOpened(t, rest);
    match t {
      case LinkListing(target) => LinkReadBack(target, rest);
      case DirListing(entries) =>
        EntriesReadBack(entries, rest);
        DirectoryOpened(entries, rest);
      case FileListing(contents, executable) => FileReadBack(contents, executable, rest);
    }
  }

  lemma LinkReadBack(target: string, rest: string)
    requires |target| < TWO_64
    ensures ReadBody(Body(LinkListing(target), rest)) == Some((LinkListing(target), rest))
  {
    var end := Str(")", rest);
    StrReadBack("symlink", Str("target", Str(target, end)));
    TokenReadBack("target", Str(target, end));
    StrReadBack(target, end);
    TokenReadBack(")", rest);
  }

  lemma ContentsReadBack(contents: string, executable: bool, rest: string)
    requires |contents| < TWO_64
    ensures ReadContents(Some(Str(contents, Str(")", rest))), executable) ==
      Some((FileListing(contents, executable), rest))
  {
    StrReadBack(contents, Str(")", rest));
    TokenReadBack(")", rest);
  }

  lemma TailReadBack(contents: string, executable: bool, rest: string)
    requires |contents| < TWO_64
    ensures ReadFile(FileTail(contents, executable, rest)) == Some((FileListing(contents, executable), rest))
  {
    var text := Str(contents, Str(")", rest));
    if executable {
      StrReadBack("executable", Str("", Str("contents", text)));
      TokenReadBack("", Str("contents", text));
      TokenReadBack("contents", text);
    } else {
      StrReadBack("contents", text);
    }
    ContentsReadBack(contents, executable, rest);
  }

  lemma FileReadBack(contents: string, executable: bool, rest: string)
    requires |contents| < TWO_64
    ensures ReadBody(Body(FileListing(contents, executable), rest)) == Some((FileListing(contents, executable), rest))
  {
    StrReadBack("regular", FileTail(contents, executable, rest));
    TailReadBack(contents, executable, rest);
  }

  lemma EntriesStartWith(e: Named, entries: seq<Named>, rest: string)
    ensures EntriesText([e] + entries, rest) == Str("entry", EntryText(e, EntriesText(entries, rest)))
  {
    assert ([e] + entries)[1..] == entries;
  }

  ghost predicate ReadsBack(entries: seq<Named>, rest: string) {
    ReadEntries(EntriesText(entries, Str(")", rest))) == Some((entries, rest))
  }

  lemma NoneReadBack(rest: string)
    ensures ReadsBack([], rest)
  {
    StrReadBack(")", rest);
  }

  lemma OneMoreReadBack(e: Named, entries: seq<Named>, rest: string)
    requires |e.name| < TWO_64 && Fits(e.node) && ReadsBack(entries, rest)
    requires ReadEntry(EntryText(e, EntriesText(entries, Str(")", rest)))) ==
      Some((e, EntriesText(entries, Str(")", rest))))
    ensures ReadsBack([e] + entries, rest)
  {
    var more := EntriesText(entries, Str(")", rest));
    EntryThenMore(EntryText(e, more), e, more, entries, rest);
    EntriesStartWith(e, entries, Str(")", rest));
  }

  lemma {:induction false} EntriesReadBack(entries: seq<Named>, rest: string)
    requires AllFit(entries)
    ensures ReadsBack(entries, rest)
    decreases entries, 0
  {
    if entries == [] {
      NoneReadBack(rest);
    } else {
      FitRest(entries);
      EntriesReadBack(entries[1..], rest);
      EntryReadBack(entries[0], EntriesText(entries[1..], Str(")", rest)));
      OneMoreReadBack(entries[0], entries[1..], rest);
      assert entries == [entries[0]] + entries[1..];
    }
  }

  lemma EntryThenMore(tail: string, e: Named, more: string, entries: seq<Named>, rest: string)
    requires ReadEntry(tail) == Some((e, more)) && ReadEntries(more) == Some((entries, rest))
    ensures ReadEntries(Str("entry", tail)) == Some(([e] + entries, rest))
  {
    StrReadBack("entry", tail);
  }

  lemma {:induction false} EntryReadBack(e: Named, more: string)
    requires |e.name| < TWO_64 && Fits(e.node)
    ensures ReadEntry(EntryText(e, more)) == Some((e, more))
    decreases e
  {
    var node := NodeText(e.node, Str(")", more));
    TokenReadBack("(", Str("name", Str(e.name, Str("node", node))));
    TokenReadBack("name", Str(e.name, Str("node", node)));
    StrReadBack(e.name, Str("node", node));
    TokenReadBack("node", node);
    NodeReadBack(e.node, Str(")", more));
    TokenReadBack(")", more);
  }

  /** An archive followed by anything is read back with just that left. */
  lemma ArchiveReadBack(t: Listing, rest: string)
    requires Fits(t)
    ensures ReadArchive(Str("nix-archive-1", NodeText(t, rest))) == Some((t, rest))
  {
    TokenReadBack("nix-archive-1", NodeText(t, rest));
    NodeReadBack(t, rest);
  }

  // ----- what is read was written ----------------------------------------------------------------

  ghost predicate Bytes(s: string) {
    forall i :: 0 <= i < |s| ==> s[i] as int < 256
  }

  lemma {:induction false} NumberRead(s: string)
    requires Bytes(s)
    ensures FromLittleEndian(s) < Pow256(|s|) && LittleEndian(FromLittleEndian(s), |s|) == s
    decreases |s|
  {
    if s != "" {
      NumberRead(s[1..]);
      var n := FromLittleEndian(s);
      assert n % 256 == s[0] as nat && n / 256 == FromLittleEndian(s[1..]);
      assert s == [s[0]] + s[1..];
    }
  }

  lemma Whole(s: string, i: nat, j: nat, k: nat)
    requires i <= j <= k <= |s|
    ensures s == s[..i] + (s[i..j] + (s[j..k] + s[k..]))
  {
  }

  lemma PartBytes(s: string, i: nat)
    requires Bytes(s) && i <= |s|
    ensures Bytes(s[..i]) && Bytes(s[i..])
  {
  }

  lemma StrParts(s: string, n: nat, end: nat)
    requires end == 8 + n + |Padding(n)| && end <= |s|
    requires LittleEndian(n, 8) == s[..8] && s[8 + n..end] == Padding(n)
    ensures s == Str(s[8..8 + n], s[end..])
  {
    assert |s[8..8 + n]| == n;
    Whole(s, 8, 8 + n, end);
  }

  /** `s` starts with the text of `x`. */
  ghost predicate IsStr(s: string, x: string, rest: string) {
    s == Str(x, rest) && |x| < TWO_64 && Bytes(rest)
  }

  lemma StrRead(s: string)
    requires Bytes(s) && ReadStr(s).Some?
    ensures IsStr(s, ReadStr(s).value.0, ReadStr(s).value.1)
  {
    var n := FromLittleEndian(s[..8]);
    LengthRead(s);
    BytesRead(s, n);
  }

  lemma LengthRead(s: string)
    requires Bytes(s) && |s| >= 8
    ensures var n := FromLittleEndian(s[..8]); n < TWO_64 && LittleEndian(n, 8) == s[..8]
  {
    PartBytes(s, 8);
    EightBytes();
    NumberRead(s[..8]);
  }

  lemma BytesRead(s: string, n: nat)
    requires Bytes(s) && |s| >= 8 && ReadBytes(s, n).Some? && n < TWO_64 && LittleEndian(n, 8) == s[..8]
    ensures IsStr(s, ReadBytes(s, n).value.0, ReadBytes(s, n).value.1)
  {
    var end := 8 + (n + 7) / 8 * 8;
    PaddingIs(n, s[8 + n..end]);
    PartBytes(s, end);
    StrParts(s, n, end);
  }

  lemma TokenRead(s: string, token: string)
    requires Bytes(s) && Expect(Some(s), token).Some?
    ensures s == Str(token, Expect(Some(s), token).value) && Bytes(Expect(Some(s), token).value)
  {
    StrRead(s);
  }

  lemma ClosedRead(t: Listing, s: string)
    requires Bytes(s) && Closed(t, s).Some?
    ensures Closed(t, s).value.0 == t && s == Str(")", Closed(t, s).value.1) && Bytes(Closed(t, s).value.1)
  {
    TokenRead(s, ")");
  }

  /** Only what is the text of a node is read as one. */
  lemma {:induction false} NodeRead(s: string)
    requires Bytes(s) && ReadNode(s).Some?
    ensures var (t, rest) := ReadNode(s).value; s == NodeText(t, rest) && Fits(t) && Bytes(rest)
    decreases |s|, 2
  {
    TokenRead(s, "(");
    var typed := Expect(Some(s), "(").value;
    TokenRead(typed, "type");
    BodyRead(Expect(Some(typed), "type").value);
  }

  lemma {:induction false} BodyRead(s: string)
    requires Bytes(s) && ReadBody(s).Some?
    ensures var (t, rest) := ReadBody(s).value; s == Body(t, rest) && Fits(t) && Bytes(rest)
    decreases |s|, 1
  {
    StrRead(s);
    var (kind, more) := ReadStr(s).value;
    if kind == "symlink" {
      LinkRead(more);
    } else if kind == "regular" {
      FileRead(more);
    } else {
      EntriesRead(more);
    }
  }

  lemma LinkRead(s: string)
    requires Bytes(s) && ReadLink(s).Some?
    ensures var (t, rest) := ReadLink(s).value;
      t.LinkListing? && s == Str("target", Str(t.target, Str(")", rest))) && Fits(t) && Bytes(rest)
  {
    TokenRead(s, "target");
    var text := Expect(Some(s), "target").value;
    StrRead(text);
    ClosedRead(LinkListing(ReadStr(text).value.0), ReadStr(text).value.1);
  }

  lemma FileRead(s: string)
    requires Bytes(s) && ReadFile(s).Some?
    ensures var (t, rest) := ReadFile(s).value;
      t.FileListing? && s == FileTail(t.contents, t.executable, rest) && Fits(t) && Bytes(rest)
  {
    StrRead(s);
    var (word, more) := ReadStr(s).value;
    if word == "executable" {
      TokenRead(more, "");
      var tail := Expect(Some(more), "").value;
      TokenRead(tail, "contents");
      ContentsRead(Expect(Some(tail), "contents").value, true);
    } else {
      ContentsRead(more, false);
    }
  }

  lemma ContentsRead(s: string, executable: bool)
    requires Bytes(s) && ReadContents(Some(s), executable).Some?
    ensures var (t, rest) := ReadContents(Some(s), executable).value;
      && t.FileListing? && t.executable == executable && s == Str(t.contents, Str(")", rest)) && Fits(t) && Bytes(rest)
  {
    StrRead(s);
    ClosedRead(FileListing(ReadStr(s).value.0, executable), ReadStr(s).value.1);
  }

  lemma {:induction false} EntriesRead(s: string)
    requires Bytes(s) && ReadEntries(s).Some?
    ensures var (entries, rest) := ReadEntries(s).value;
      s == EntriesText(entries, Str(")", rest)) && AllFit(entries) && Bytes(rest)
    decreases |s|, 0
  {
    StrRead(s);
    var (word, more) := ReadStr(s).value;
    if word == "entry" {
      EntryRead(more);
      var (entry, after) := ReadEntry(more).value;
      EntriesRead(after);
      EntriesStartWith(entry, ReadEntries(after).value.0, Str(")", ReadEntries(after).value.1));
      FitsMore(entry, ReadEntries(after).value.0);
    }
  }

  lemma FitsMore(e: Named, entries: seq<Named>)
    requires |e.name| < TWO_64 && Fits(e.node) && AllFit(entries)
    ensures AllFit([e] + entries)
  {
  }

  lemma {:induction false} EntryRead(s: string)
    requires Bytes(s) && ReadEntry(s).Some?
    ensures var (e, rest) := ReadEntry(s).value;
      && s == EntryText(e, rest)
      && |e.name| < TWO_64 && Fits(e.node) && Bytes(rest)
    decreases |s|, 3
  {
    TokenRead(s, "(");
    var named := Expect(Some(s), "(").value;
    TokenRead(named, "name");
    var text := Expect(Some(named), "name").value;
    StrRead(text);
    var after := ReadStr(text).value.1;
    TokenRead(after, "node");
    var node := Expect(Some(after), "node").value;
    NodeRead(node);
    TokenRead(ReadNode(node).value.1, ")");
  }

  /** A text of bytes is read as an archive exactly when it starts with one. */
  lemma ReadsExactlyArchives(s: string, t: Listing, rest: string)
    requires Bytes(s)
    ensures ReadArchive(s) == Some((t, rest)) <==> Fits(t) && s == Str("nix-archive-1", NodeText(t, rest))
  {
    if ReadArchive(s) == Some((t, rest)) {
      TokenRead(s, "nix-archive-1");
      NodeRead(Expect(Some(s), "nix-archive-1").value);
    }
    if Fits(t) && s == Str("nix-archive-1", NodeText(t, rest)) {
      ArchiveReadBack(t, rest);
    }
  }
}
