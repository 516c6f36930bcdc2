/** Nix Archive serialisation ("Nix Archive" section of the Nix manual), and why no archive
  * starts another. A byte is the character with its code.
  */
module Nar {
  import opened MemTrees

  /** A tree as its accessor lists it: the entries of a directory in order. */
  datatype Listing =
    | FileListing(contents: string, executable: bool)
    | LinkListing(target: string)
    | DirListing(entries: seq<Named>)

  datatype Named = Named(name: Name, node: Listing)

  const TWO_64 := 0x1_0000_0000_0000_0000

  /** Every string's length fits the eight bytes it is written in. */
  ghost predicate Fits(t: Listing) {
    match t
    case FileListing(contents, _) => |contents| < TWO_64
    case LinkListing(target) => |target| < TWO_64
    case DirListing(entries) => forall i | 0 <= i < |entries| :: |entries[i].name| < TWO_64 && Fits(entries[i].node)
  }

  // ----- strings ---------------------------------------------------------------------------------

  function LittleEndian(n: nat, bytes: nat): (s: string)
    ensures |s| == bytes
  {
    if bytes == 0 then "" else [(n % 256) as char] + LittleEndian(n / 256, bytes - 1)
  }

  function Zeros(n: nat): (s: string)
    ensures |s| == n
  {
    if n == 0 then "" else ['\0'] + Zeros(n - 1)
  }

  function Padding(n: nat): string {
    Zeros((8 - n % 8) % 8)
  }

  /** One string, then `rest`. */
  function Str(s: string, rest: string): string {
    LittleEndian(|s|, 8) + (s + (Padding(|s|) + rest))
  }

  function Pow256(k: nat): nat {
    if k == 0 then 1 else 256 * Pow256(k - 1)
  }

  lemma {:induction false} LittleEndianInjective(m: nat, n: nat, bytes: nat)
    requires m < Pow256(bytes) && n < Pow256(bytes) && LittleEndian(m, bytes) == LittleEndian(n, bytes)
    ensures m == n
    decreases bytes
  {
    if bytes > 0 {
      var a, b := LittleEndian(m, bytes), LittleEndian(n, bytes);
      assert a[0] == b[0] && a[1..] == LittleEndian(m / 256, bytes - 1) && b[1..] == LittleEndian(n / 256, bytes - 1);
      LittleEndianInjective(m / 256, n / 256, bytes - 1);
    }
  }

  lemma SplitAt(a: string, r: string, b: string, q: string)
    requires a + r == b + q && |a| == |b|
    ensures a == b && r == q
  {
    assert a == (a + r)[..|a|] && b == (b + q)[..|b|] && r == (a + r)[|a|..] && q == (b + q)[|b|..];
  }

  /** Equal texts start with the same string and go on the same. */
  lemma StrInjective(s: string, r: string, t: string, q: string)
    requires |s| < TWO_64 && |t| < TWO_64 && Str(s, r) == Str(t, q)
    ensures s == t && r == q
  {
    SplitAt(LittleEndian(|s|, 8), s + (Padding(|s|) + r), LittleEndian(|t|, 8), t + (Padding(|t|) + q));
    assert Pow256(8) == TWO_64 by {
      assert Pow256(2) == 0x1_0000 && Pow256(4) == 0x1_0000_0000 && Pow256(6) == 0x1_0000_0000_0000;
    }
    LittleEndianInjective(|s|, |t|, 8);
    SplitAt(s, Padding(|s|) + r, t, Padding(|t|) + q);
    SplitAt(Padding(|s|), r, Padding(|t|), q);
  }

  // ----- trees ---------------------------------------------------------------------------------------

  /** The text of a node, then `rest`. */
  function NodeText(t: Listing, rest: string): string
    decreases t, 1
  {
    Str("(", Str("type", Body(t, rest)))
  }

  function Body(t: Listing, rest: string): string
    decreases t, 0
  {
    match t
    case LinkListing(target) => Str("symlink", Str("target", Str(target, Str(")", rest))))
    case DirListing(entries) => Str("directory", EntriesText(entries, Str(")", rest)))
    case FileListing(contents, executable) => Str("regular", FileTail(contents, executable, rest))
  }

  function FileTail(contents: string, executable: bool, rest: string): string {
    var tail := Str("contents", Str(contents, Str(")", rest)));
    if executable then Str("executable", Str("", tail)) else tail
  }

  function EntriesText(entries: seq<Named>, rest: string): string
    decreases entries, 0
  {
    if entries == [] then rest
    else
      Str("entry", Str("(", Str("name", Str(entries[0].name, Str("node",
        NodeText(entries[0].node, Str(")", EntriesText(entries[1..], rest))))))))
  }

  function DumpText(t: Listing): string {
    Str("nix-archive-1", NodeText(t, ""))
  }

  /** Where two node texts agree, so do the nodes and what follows. */
  lemma {:induction false} NodeInjective(t: Listing, r: string, u: Listing, q: string)
    requires Fits(t) && Fits(u) && NodeText(t, r) == NodeText(u, q)
    ensures t == u && r == q
    decreases t, 0
  {
    var (bodyT, bodyU) := (Body(t, r), Body(u, q));
    StrInjective("(", Str("type", bodyT), "(", Str("type", bodyU));
    StrInjective("type", bodyT, "type", bodyU);
    BodyKind(t, r, u, q);
    match t {
      case LinkListing(target) =>
        var tailT, tailU := Str(target, Str(")", r)), Str(u.target, Str(")", q));
        StrInjective("symlink", Str("target", tailT), "symlink", Str("target", tailU));
        StrInjective("target", tailT, "target", tailU);
        StrInjective(target, Str(")", r), u.target, Str(")", q));
        StrInjective(")", r, ")", q);
      case DirListing(entries) =>
        StrInjective("directory", EntriesText(entries, Str(")", r)), "directory", EntriesText(u.entries, Str(")", q)));
        EntriesInjective(entries, r, u.entries, q);
      case FileListing(contents, executable) =>
        FileInjective(t, r, u, q);
    }
  }

  lemma BodyKind(t: Listing, r: string, u: Listing, q: string)
    requires Body(t, r) == Body(u, q)
    ensures (t.LinkListing? <==> u.LinkListing?) && (t.DirListing? <==> u.DirListing?)
  {
    var (kindT, restT) := Kind(t, r);
    var (kindU, restU) := Kind(u, q);
    StrInjective(kindT, restT, kindU, restU);
  }

  function Kind(t: Listing, rest: string): (k: (string, string))
    ensures Body(t, rest) == Str(k.0, k.1) && |k.0| < TWO_64
    ensures k.0 == if t.LinkListing? then "symlink" else if t.DirListing? then "directory" else "regular"
  {
    match t
    case LinkListing(target) => ("symlink", Str("target", Str(target, Str(")", rest))))
    case DirListing(entries) => ("directory", EntriesText(entries, Str(")", rest)))
    case FileListing(contents, executable) => ("regular", FileTail(contents, executable, rest))
  }

  lemma FileInjective(t: Listing, r: string, u: Listing, q: string)
    requires t.FileListing? && u.FileListing? && Fits(t) && Fits(u) && Body(t, r) == Body(u, q)
    ensures t == u && r == q
  {
    StrInjective("regular", FileTail(t.contents, t.executable, r), "regular", FileTail(u.contents, u.executable, q));
    var endT, endU := Str(t.contents, Str(")", r)), Str(u.contents, Str(")", q));
    var tailT, tailU := Str("contents", endT), Str("contents", endU);
    StrInjective(if t.executable then "executable" else "contents", if t.executable then Str("", tailT) else endT,
      if u.executable then "executable" else "contents", if u.executable then Str("", tailU) else endU);
    if t.executable {
      StrInjective("", tailT, "", tailU);
      StrInjective("contents", endT, "contents", endU);
    }
    StrInjective(t.contents, Str(")", r), u.contents, Str(")", q));
    StrInjective(")", r, ")", q);
  }

  lemma {:induction false} EntriesInjective(es: seq<Named>, r: string, fs: seq<Named>, q: string)
    requires AllFit(es) && AllFit(fs) && EntriesText(es, Str(")", r)) == EntriesText(fs, Str(")", q))
    ensures es == fs && r == q
    decreases es, 0
  {
    EntriesEnd(es, r, fs, q);
    if es == [] {
      StrInjective(")", r, ")", q);
    } else {
      FitRest(es);
      FitRest(fs);
      var moreE, moreF := EntriesText(es[1..], Str(")", r)), EntriesText(fs[1..], Str(")", q));
      EntryInjective(es, Str(")", r), fs, Str(")", q));
      NodeInjective(es[0].node, Str(")", moreE), fs[0].node, Str(")", moreF));
      StrInjective(")", moreE, ")", moreF);
      EntriesInjective(es[1..], r, fs[1..], q);
      SameParts(es, fs);
    }
  }

  lemma SameParts(es: seq<Named>, fs: seq<Named>)
    requires es != [] && fs != [] && es[0] == fs[0] && es[1..] == fs[1..]
    ensures es == fs
  {
    assert es == [es[0]] + es[1..] && fs == [fs[0]] + fs[1..];
  }

  ghost predicate AllFit(entries: seq<Named>) {
    forall i | 0 <= i < |entries| :: |entries[i].name| < TWO_64 && Fits(entries[i].node)
  }

  lemma FitRest(entries: seq<Named>)
    requires AllFit(entries) && entries != []
    ensures |entries[0].name| < TWO_64 && Fits(entries[0].node) && AllFit(entries[1..])
  {
  }

  /** The closing `)` tells where a directory's entries end. */
  lemma EntriesEnd(es: seq<Named>, r: string, fs: seq<Named>, q: string)
    requires EntriesText(es, Str(")", r)) == EntriesText(fs, Str(")", q))
    ensures es == [] <==> fs == []
  {
    if es == [] && fs != [] {
      StrInjective(")", r, "entry", EntryTail(fs, Str(")", q)));
    } else if es != [] && fs == [] {
      StrInjective("entry", EntryTail(es, Str(")", r)), ")", q);
    }
  }

  /** What follows the word `entry`, for the entry `e`. */
  function EntryText(e: Named, more: string): string {
    Str("(", Str("name", Str(e.name, Str("node", NodeText(e.node, Str(")", more))))))
  }

  function EntryTail(entries: seq<Named>, rest: string): string
    requires entries != []
  {
    EntryText(entries[0], EntriesText(entries[1..], rest))
  }

  lemma EntryInjective(es: seq<Named>, r: string, fs: seq<Named>, q: string)
    requires es != [] && fs != [] && |es[0].name| < TWO_64 && |fs[0].name| < TWO_64
    requires EntriesText(es, r) == EntriesText(fs, q)
    ensures es[0].name == fs[0].name
    ensures NodeText(es[0].node, Str(")", EntriesText(es[1..], r))) ==
      NodeText(fs[0].node, Str(")", EntriesText(fs[1..], q)))
  {
    var nodeE, nodeF := NodeText(es[0].node, Str(")", EntriesText(es[1..], r))),
      NodeText(fs[0].node, Str(")", EntriesText(fs[1..], q)));
    var nameE, nameF := Str(es[0].name, Str("node", nodeE)), Str(fs[0].name, Str("node", nodeF));
    StrInjective("entry", EntryTail(es, r), "entry", EntryTail(fs, q));
    StrInjective("(", Str("name", nameE), "(", Str("name", nameF));
    StrInjective("name", nameE, "name", nameF);
    StrInjective(es[0].name, Str("node", nodeE), fs[0].name, Str("node", nodeF));
    StrInjective("node", nodeE, "node", nodeF);
  }

  // ----- archives of trees ------------------------------------------------------------------------

  /** Names are compared byte by byte. */
  predicate Before(a: Name, b: Name) {
    b != "" && (a == "" || a[0] < b[0] || (a[0] == b[0] && Before(a[1..], b[1..])))
  }

  ghost predicate Ascending(entries: seq<Named>) {
    forall i, j :: 0 <= i < j < |entries| ==> Before(entries[i].name, entries[j].name)
  }

  ghost function EntryNames(entries: seq<Named>): set<Name> {
    set e | e in entries :: e.name
  }

  /** `l` lists the tree `t`, each directory's entries once and in order of name. */
  ghost predicate ListsTree(l: Listing, t: Tree) {
    match l
    case FileListing(contents, executable) => t == File(contents, executable)
    case LinkListing(target) => t == Link(target)
    case DirListing(entries) =>
      && t.Dir? && Ascending(entries) && EntryNames(entries) == t.entries.Keys
      && forall i | 0 <= i < |entries| ::
        entries[i].name in t.entries && ListsTree(entries[i].node, t.entries[entries[i].name])
  }

  lemma {:induction false} ListingDetermines(l: Listing, t: Tree, u: Tree)
    requires ListsTree(l, t) && ListsTree(l, u)
    ensures t == u
    decreases l
  {
    if l.DirListing? {
      forall name | name in t.entries
        ensures t.entries[name] == u.entries[name]
      {
        var e :| e in l.entries && e.name == name;
        var i :| 0 <= i < |l.entries| && l.entries[i] == e;
        ListingDetermines(l.entries[i].node, t.entries[name], u.entries[name]);
      }
      assert t.entries == u.entries;
    }
  }

  lemma {:induction false} BeforeAsymmetric(a: Name, b: Name)
    requires Before(a, b)
    ensures !Before(b, a) && a != b
    decreases |a|
  {
    if a != "" && a[0] == b[0] {
      BeforeAsymmetric(a[1..], b[1..]);
    }
  }

  lemma FirstNames(es: seq<Named>, fs: seq<Named>)
    requires Ascending(es) && Ascending(fs) && EntryNames(es) == EntryNames(fs) && es != [] && fs != []
    ensures es[0].name == fs[0].name && EntryNames(es[1..]) == EntryNames(fs[1..])
  {
    FirstNotInRest(es);
    FirstNotInRest(fs);
    if es[0].name != fs[0].name {
      assert es[0].name in EntryNames(es) && fs[0].name in EntryNames(fs);
      var f :| f in fs && f.name == es[0].name;
      var e :| e in es && e.name == fs[0].name;
      var i :| 0 <= i < |es| && es[i] == e;
      var j :| 0 <= j < |fs| && fs[j] == f;
      BeforeAsymmetric(es[0].name, es[i].name);
    }
  }

  lemma FirstNotInRest(es: seq<Named>)
    requires Ascending(es) && es != []
    ensures EntryNames(es[1..]) == EntryNames(es) - {es[0].name}
  {
    forall e | e in es[1..]
      ensures e.name != es[0].name
    {
      var i :| 0 <= i < |es[1..]| && es[1..][i] == e;
      BeforeAsymmetric(es[0].name, es[i + 1].name);
    }
    forall e | e in es && e.name != es[0].name
      ensures e in es[1..]
    {
      var i :| 0 <= i < |es| && es[i] == e;
      assert es[1..][i - 1] == e;
    }
  }

  lemma NamesEmpty(es: seq<Named>)
    ensures EntryNames(es) == {} <==> es == []
  {
    if es != [] {
      assert es[0].name in EntryNames(es);
    }
  }

  lemma {:induction false} SameNames(es: seq<Named>, fs: seq<Named>)
    requires Ascending(es) && Ascending(fs) && EntryNames(es) == EntryNames(fs)
    ensures |es| == |fs| && forall i :: 0 <= i < |es| ==> es[i].name == fs[i].name
    decreases |es|
  {
    NamesEmpty(es);
    NamesEmpty(fs);
    if es != [] {
      FirstNames(es, fs);
      SameNames(es[1..], fs[1..]);
      assert forall i :: 0 < i < |es| ==> es[i] == es[1..][i - 1];
      assert forall i :: 0 < i < |fs| ==> fs[i] == fs[1..][i - 1];
    }
  }

  lemma {:induction false} TreeDetermines(l: Listing, m: Listing, t: Tree)
    requires ListsTree(l, t) && ListsTree(m, t)
    ensures l == m
    decreases l
  {
    if l.DirListing? {
      SameNames(l.entries, m.entries);
      forall i | 0 <= i < |l.entries|
        ensures l.entries[i] == m.entries[i]
      {
        TreeDetermines(l.entries[i].node, m.entries[i].node, t.entries[l.entries[i].name]);
      }
    }
  }

  /** Whatever follows, the archive of a tree is the archive of no other: two texts that start
    * with archives agree exactly when the trees and what follows do.
    */
  lemma ArchivesAreUnique(l: Listing, t: Tree, r: string, m: Listing, u: Tree, q: string)
    requires ListsTree(l, t) && ListsTree(m, u) && Fits(l) && Fits(m)
    ensures Str("nix-archive-1", NodeText(l, r)) == Str("nix-archive-1", NodeText(m, q)) <==> t == u && r == q
  {
    if Str("nix-archive-1", NodeText(l, r)) == Str("nix-archive-1", NodeText(m, q)) {
      StrInjective("nix-archive-1", NodeText(l, r), "nix-archive-1", NodeText(m, q));
      NodeInjective(l, r, m, q);
      ListingDetermines(l, t, u);
    }
    if t == u {
      TreeDetermines(l, m, t);
    }
  }

  // ----- the writer ------------------------------------------------------------------------------------

  class Writer {
    var out: string

    constructor ()
      ensures out == ""
    {
      out := "";
    }

    /** Its length, the bytes, and padding to eight bytes; `rest` is what is still to come. */
    method WriteStr(s: string, ghost rest: string)
      modifies this
      ensures out + rest == old(out) + Str(s, rest)
    {
      out := out + LittleEndian(|s|, 8);
      out := out + s;
      out := out + Padding(|s|);
      Regroup(old(out), LittleEndian(|s|, 8), s, Padding(|s|), rest);
    }

    method DumpNode(t: Listing, ghost rest: string)
      modifies this
      ensures out + rest == old(out) + NodeText(t, rest)
      decreases t
    {
      ghost var body := Body(t, rest);
      WriteStr("(", Str("type", body));
      WriteStr("type", body);
      match t {
        case LinkListing(target) =>
          WriteStr("symlink", Str("target", Str(target, Str(")", rest))));
          WriteStr("target", Str(target, Str(")", rest)));
          WriteStr(target, Str(")", rest));
        case DirListing(entries) =>
          ghost var close := Str(")", rest);
          WriteStr("directory", EntriesText(entries, close));
          for i := 0 to |entries|
            invariant out + EntriesText(entries[i..], close) == old(out) + NodeText(t, rest)
          {
            var e := entries[i];
            ghost var more := EntriesText(entries[i + 1..], close);
            ghost var node := NodeText(e.node, Str(")", more));
            assert entries[i..][0] == e && entries[i..][1..] == entries[i + 1..];
            WriteStr("entry", Str("(", Str("name", Str(e.name, Str("node", node)))));
            WriteStr("(", Str("name", Str(e.name, Str("node", node))));
            WriteStr("name", Str(e.name, Str("node", node)));
            WriteStr(e.name, Str("node", node));
            WriteStr("node", node);
            DumpNode(e.node, Str(")", more));
            WriteStr(")", more);
          }
          assert entries[|entries|..] == [];
        case FileListing(contents, executable) =>
          ghost var tail := Str("contents", Str(contents, Str(")", rest)));
          WriteStr("regular", FileTail(contents, executable, rest));
          if executable {
            WriteStr("executable", Str("", tail));
            WriteStr("", tail);
          }
          WriteStr("contents", Str(contents, Str(")", rest)));
          WriteStr(contents, Str(")", rest));
      }
      WriteStr(")", rest);
    }

    method Dump(t: Listing)
      modifies this
      ensures out == old(out) + DumpText(t)
    {
      WriteStr("nix-archive-1", NodeText(t, ""));
      DumpNode(t, "");
      assert out + "" == out;
    }
  }

  lemma Regroup(a: string, b: string, c: string, d: string, e: string)
    ensures ((a + b) + c) + d + e == a + (b + (c + (d + e)))
  {
  }
}
