/** Dumping an archive held in memory: the flat map is written as the archive of the tree it
  * denotes, and that is read back as the tree.
  */
module NarDump {
  import opened Wrappers
  import opened MemTrees
  import opened Nar
  import NarReader

  // ----- names in order --------------------------------------------------------------------------

  lemma {:induction false} BeforeTotal(a: Name, b: Name)
    ensures a == b || Before(a, b) || Before(b, a)
    decreases |a|
  {
    if a != "" && b != "" && a[0] == b[0] {
      BeforeTotal(a[1..], b[1..]);
      assert a == [a[0]] + a[1..] && b == [b[0]] + b[1..];
    }
  }

  lemma {:induction false} BeforeTransitive(a: Name, b: Name, c: Name)
    requires Before(a, b) && Before(b, c)
    ensures Before(a, c)
    decreases |a|
  {
    if a != "" && a[0] == b[0] && b[0] == c[0] {
      BeforeTransitive(a[1..], b[1..], c[1..]);
    }
  }

  ghost predicate IsLeast(names: set<Name>, m: Name) {
    m in names && forall x :: x in names ==> x == m || Before(m, x)
  }

  lemma {:induction false} LeastExists(names: set<Name>)
    requires names != {}
    ensures exists m :: IsLeast(names, m)
    decreases names
  {
    var m :| m in names;
    if names == {m} {
      assert IsLeast(names, m);
    } else {
      LeastExists(names - {m});
      var n :| IsLeast(names - {m}, n);
      LeastOfMore(names, m, n);
    }
  }

  lemma LeastOfMore(names: set<Name>, m: Name, n: Name)
    requires m in names && IsLeast(names - {m}, n)
    ensures IsLeast(names, if Before(m, n) then m else n)
  {
    BeforeTotal(m, n);
    if Before(m, n) {
      forall x | x in names
        ensures x == m || Before(m, x)
      {
        if x != m && x != n {
          BeforeTransitive(m, n, x);
        }
      }
    }
  }

  lemma LeastUnique(names: set<Name>, m: Name, n: Name)
    requires IsLeast(names, m) && IsLeast(names, n)
    ensures m == n
  {
    if m != n {
      BeforeAsymmetric(m, n);
    }
  }

  ghost function Least(names: set<Name>): (m: Name)
    requires names != {}
    ensures IsLeast(names, m)
  {
    LeastExists(names);
    var m :| IsLeast(names, m);
    m
  }

  /** The names in order. */
  ghost function InOrder(names: set<Name>): (s: seq<Name>)
    ensures |s| == |names| && forall x :: x in s <==> x in names
    decreases names
  {
    if names == {} then [] else [Least(names)] + InOrder(names - {Least(names)})
  }

  ghost predicate NamesAscend(s: seq<Name>) {
    forall i, j :: 0 <= i < j < |s| ==> Before(s[i], s[j])
  }

  lemma LeastAscends(m: Name, s: seq<Name>)
    requires NamesAscend(s) && forall i :: 0 <= i < |s| ==> Before(m, s[i])
    ensures NamesAscend([m] + s)
  {
  }

  lemma {:induction false} OrderAscends(names: set<Name>)
    ensures NamesAscend(InOrder(names))
    decreases names
  {
    if names != {} {
      var rest := names - {Least(names)};
      OrderAscends(rest);
      forall i | 0 <= i < |InOrder(rest)|
        ensures Before(Least(names), InOrder(rest)[i])
      {
        assert InOrder(rest)[i] in InOrder(rest);
      }
      LeastAscends(Least(names), InOrder(rest));
    }
  }

  method LeastOf(names: set<Name>) returns (m: Name)
    requires names != {}
    ensures m == Least(names)
  {
    m :| m in names;
    var others := names - {m};
    while others != {}
      invariant others <= names && m in names && forall x :: x in names && x !in others ==> x == m || Before(m, x)
      decreases others
    {
      var x :| x in others;
      BeforeTotal(m, x);
      others := others - {x};
      if Before(x, m) {
        LessThanSeen(names, others, m, x);
        m := x;
      }
    }
    LeastUnique(names, m, Least(names));
  }

  /** The names of a set in order, by taking the least that is left. */
  method Sorted(names: set<Name>) returns (s: seq<Name>)
    ensures s == InOrder(names)
  {
    s := [];
    var left := names;
    while left != {}
      invariant left <= names && s + InOrder(left) == InOrder(names)
      decreases left
    {
      var m := LeastOf(left);
      Assoc(s, [m], InOrder(left - {m}));
      s := s + [m];
      left := left - {m};
    }
  }

  lemma Assoc(a: seq<Name>, b: seq<Name>, c: seq<Name>)
    ensures a + (b + c) == a + b + c
  {
  }

  lemma LessThanSeen(left: set<Name>, others: set<Name>, m: Name, x: Name)
    requires Before(x, m) && forall y :: y in left && y !in others && y != x ==> y == m || Before(m, y)
    ensures forall y :: y in left && y !in others ==> y == x || Before(x, y)
  {
    forall y | y in left && y !in others && y != x && y != m
      ensures Before(x, y)
    {
      BeforeTransitive(x, m, y);
    }
  }

  // ----- the listing of a tree -------------------------------------------------------------------

  ghost function ListingOf(t: Tree): (l: Listing)
    decreases t
  {
    match t
    case File(contents, executable) => FileListing(contents, executable)
    case Link(target) => LinkListing(target)
    case Dir(entries) =>
      var names := InOrder(entries.Keys);
      DirListing(seq(|names|, i requires 0 <= i < |names| =>
        assert names[i] in names; Named(names[i], ListingOf(entries[names[i]]))))
  }

  lemma {:induction false} ListsItself(t: Tree)
    ensures ListsTree(ListingOf(t), t)
    decreases t
  {
    if t.Dir? {
      var names, listed := InOrder(t.entries.Keys), ListingOf(t).entries;
      OrderAscends(t.entries.Keys);
      forall i | 0 <= i < |listed|
        ensures listed[i].name in t.entries && ListsTree(listed[i].node, t.entries[listed[i].name])
      {
        assert names[i] in names;
        ListsItself(t.entries[names[i]]);
      }
      NamesListed(names, listed, t.entries.Keys);
    }
  }

  lemma NamesListed(names: seq<Name>, listed: seq<Named>, all: set<Name>)
    requires |listed| == |names| && forall i :: 0 <= i < |names| ==> listed[i].name == names[i]
    requires forall x :: x in names <==> x in all
    ensures EntryNames(listed) == all
  {
    forall x | x in all
      ensures x in EntryNames(listed)
    {
      var i :| 0 <= i < |names| && names[i] == x;
      assert listed[i] in listed && listed[i].name == x;
    }
  }

  // ----- dumping the map --------------------------------------------------------------------------

  /** Write the node at `path` and all below it; `rest` is what is still to come. */
  method DumpPath(w: Writer, nodes: Nodes, ghost t: Tree, path: Path, ghost rest: string)
    requires Denotes(nodes, t) && path in nodes
    modifies w
    ensures w.out + rest == old(w.out) + NodeText(ListingOf(Lookup(Some(t), path).value), rest)
    decreases Lookup(Some(t), path).value
  {
    ghost var there := Lookup(Some(t), path).value;
    ghost var l := ListingOf(there);
    w.WriteStr("(", Str("type", Body(l, rest)));
    w.WriteStr("type", Body(l, rest));
    match nodes[path] {
      case Symlink(target) =>
        w.WriteStr("symlink", Str("target", Str(target, Str(")", rest))));
        w.WriteStr("target", Str(target, Str(")", rest)));
        w.WriteStr(target, Str(")", rest));
      case Directory(children) =>
        w.WriteStr("directory", EntriesText(l.entries, Str(")", rest)));
        DumpEntries(w, nodes, t, path, children, rest);
      case Regular(contents, executable) =>
        ghost var tail := Str("contents", Str(contents, Str(")", rest)));
        w.WriteStr("regular", FileTail(contents, executable, rest));
        if executable {
          w.WriteStr("executable", Str("", tail));
          w.WriteStr("", tail);
        }
        w.WriteStr("contents", Str(contents, Str(")", rest)));
        w.WriteStr(contents, Str(")", rest));
    }
    w.WriteStr(")", rest);
  }

  method DumpEntries(w: Writer, nodes: Nodes, ghost t: Tree, path: Path, children: set<Name>, ghost rest: string)
    requires Denotes(nodes, t) && path in nodes && nodes[path] == Directory(children)
    modifies w
    ensures w.out + Str(")", rest) ==
      old(w.out) + EntriesText(ListingOf(Lookup(Some(t), path).value).entries, Str(")", rest))
    decreases Lookup(Some(t), path).value, 1
  {
    ghost var there := Lookup(Some(t), path).value;
    ghost var entries, close := ListingOf(there).entries, Str(")", rest);
    var names := Sorted(children);
    for i := 0 to |names|
      invariant w.out + EntriesText(entries[i..], close) == old(w.out) + EntriesText(entries, close)
    {
      var name := names[i];
      assert name in names;
      EntryDenoted(nodes, t, path, name);
      EntryLookup(t, path, name);
      DumpEntry(w, nodes, t, path, name, EntriesText(entries[i + 1..], close));
      EntriesFrom(entries, i, close);
    }
    assert entries[|names|..] == [];
  }

  lemma EntryLookup(t: Tree, path: Path, name: Name)
    requires Lookup(Some(t), path).Some? && Lookup(Some(t), path).value.Dir?
    requires name in Lookup(Some(t), path).value.entries
    ensures Lookup(Some(t), path + [name]) == Some(Lookup(Some(t), path).value.entries[name])
  {
    LookupAppend(Some(t), path, [name]);
    assert [name][1..] == [];
  }

  lemma EntriesFrom(entries: seq<Named>, i: nat, rest: string)
    requires i < |entries|
    ensures EntriesText(entries[i..], rest) == Str("entry", EntryText(entries[i], EntriesText(entries[i + 1..], rest)))
  {
    assert entries[i..][0] == entries[i] && entries[i..][1..] == entries[i + 1..];
  }

  method DumpEntry(w: Writer, nodes: Nodes, ghost t: Tree, path: Path, name: Name, ghost more: string)
    requires Denotes(nodes, t) && path + [name] in nodes
    requires Lookup(Some(t), path).Some? && Lookup(Some(t), path).value.Dir? &&
      name in Lookup(Some(t), path).value.entries
    requires Lookup(Some(t), path + [name]) == Some(Lookup(Some(t), path).value.entries[name])
    modifies w
    ensures w.out + more == old(w.out) +
      Str("entry", EntryText(Named(name, ListingOf(Lookup(Some(t), path + [name]).value)), more))
    decreases Lookup(Some(t), path).value, 0
  {
    ghost var node := NodeText(ListingOf(Lookup(Some(t), path + [name]).value), Str(")", more));
    w.WriteStr("entry", Str("(", Str("name", Str(name, Str("node", node)))));
    w.WriteStr("(", Str("name", Str(name, Str("node", node))));
    w.WriteStr("name", Str(name, Str("node", node)));
    w.WriteStr(name, Str("node", node));
    w.WriteStr("node", node);
    DumpPath(w, nodes, t, path + [name], Str(")", more));
    w.WriteStr(")", more);
  }

  /** The whole archive held in memory. What is written is read back as the listing of its tree. */
  method DumpTree(archive: MemTree) returns (text: string)
    requires archive.Valid()
    ensures text == DumpText(ListingOf(archive.tree)) && ListsTree(ListingOf(archive.tree), archive.tree)
    ensures Fits(ListingOf(archive.tree)) ==> NarReader.ReadArchive(text) == Some((ListingOf(archive.tree), ""))
  {
    var w := new Writer();
    w.WriteStr("nix-archive-1", NodeText(ListingOf(archive.tree), ""));
    DumpPath(w, archive.nodes, archive.tree, [], "");
    text := w.out;
    assert text + "" == text;
    ListsItself(archive.tree);
    if Fits(ListingOf(archive.tree)) {
      NarReader.ArchiveReadBack(ListingOf(archive.tree), "");
    }
  }
}
