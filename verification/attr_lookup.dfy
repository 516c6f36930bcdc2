/** What merged definitions have where: each is found at its path, and nothing else is. */
module AttrLookup {
  import opened Wrappers
  import opened AttrPaths

  /** What a tree has at a path. */
  ghost function At(t: Option<Tree>, path: seq<Name>): Option<Tree>
    decreases |path|
  {
    if path == [] then t
    else if t.Some? && t.value.Set? then At(Child(t.value, path[0]), path[1..])
    else None
  }

  ghost predicate LeafAt(t: Option<Tree>, path: seq<Name>, leaf: Leaf) {
    At(t, path) == Some(Tree.Leaf(leaf))
  }

  // ----- one definition --------------------------------------------------------------------------

  lemma {:induction false} FoundAlong(path: seq<Name>, t: Tree, rest: seq<Name>)
    ensures At(Along(path, Some(t)), path + rest) == At(Some(t), rest)
    decreases |path|
  {
    if path == [] {
      assert path + rest == rest;
    } else {
      assert (path + rest)[0] == path[0] && (path + rest)[1..] == path[1..] + rest;
      FoundAlong(path[1..], t, rest);
      AlongDefined(path[1..], t);
    }
  }

  lemma {:induction false} AlongDefined(path: seq<Name>, t: Tree)
    ensures Along(path, Some(t)).Some?
    decreases |path|
  {
    if path != [] {
      AlongDefined(path[1..], t);
    }
  }

  lemma {:induction false} NothingFurther(path: seq<Name>)
    ensures At(None, path) == None
    decreases |path|
  {
  }

  /** A leaf along a path is at that path only. */
  lemma {:induction false} OnlyAlong(path: seq<Name>, leaf: Leaf, at: seq<Name>, other: Leaf)
    requires LeafAt(Along(path, Some(Tree.Leaf(leaf))), at, other)
    ensures at == path && other == leaf
    decreases |path|
  {
    if path == [] {
    } else {
      AlongDefined(path[1..], Tree.Leaf(leaf));
      assert at != [];
      if at[0] == path[0] {
        OnlyAlong(path[1..], leaf, at[1..], other);
        assert at == [at[0]] + at[1..] && path == [path[0]] + path[1..];
      } else {
        NothingFurther(at[1..]);
      }
    }
  }

  // ----- joined ----------------------------------------------------------------------------------

  /** What is joined has the leaves of both, and only those. */
  lemma {:induction false} JoinLeaves(t: Tree, u: Tree, path: seq<Name>, leaf: Leaf)
    requires Join(t, u).Some?
    ensures LeafAt(Join(t, u), path, leaf) <==> LeafAt(Some(t), path, leaf) || LeafAt(Some(u), path, leaf)
    decreases |path|
  {
    if path != [] {
      var x := path[0];
      JoinChild(t, u, x);
      NothingFurther(path[1..]);
      if x in t.children && x in u.children {
        JoinLeaves(t.children[x], u.children[x], path[1..], leaf);
      }
    }
  }

  /** The leaves of a list of names inherited. */
  lemma {:induction false} InheritedLeaves(from: Option<Source>, names: seq<Name>, path: seq<Name>, leaf: Leaf)
    requires InheritMeaning(from, names).Some?
    ensures LeafAt(InheritMeaning(from, names), path, leaf) <==>
      |path| == 1 && path[0] in names && leaf == if from.None? then Outer(path[0]) else From(from.value, path[0])
    decreases |names|
  {
    if names == [] {
      if path != [] {
        NothingFurther(path[1..]);
      }
    } else {
      var first, more := Bind(names[0], Some(Inherited(from, names[0]))), InheritMeaning(from, names[1..]);
      JoinLeaves(first.value, more.value, path, leaf);
      InheritedLeaves(from, names[1..], path, leaf);
      OneLeaf(names[0], Inherited(from, names[0]).leaf, path, leaf);
    }
  }

  lemma OneLeaf(name: Name, leaf: Leaf, path: seq<Name>, other: Leaf)
    ensures LeafAt(Bind(name, Some(Tree.Leaf(leaf))), path, other) <==> path == [name] && other == leaf
  {
    if path != [] {
      var rest := path[1..];
      assert path == [path[0]] + rest;
      assert Child(Set(map[name := Tree.Leaf(leaf)]), path[0]) ==
        if path[0] == name then Some(Tree.Leaf(leaf)) else None;
      var bound := Bind(name, Some(Tree.Leaf(leaf)));
      assert At(bound, path) == At(Child(bound.value, path[0]), rest);
      NothingFurther(rest);
      if path[0] == name {
        if rest == [] {
          assert path == [name];
        } else {
          assert At(Some(Tree.Leaf(leaf)), rest) == None;
          assert |path| > 1;
        }
      }
    }
  }

  /** What an entry says to be at a path: its own text or what it inherits, or within a plain set what
    * that set's entries say.
    */
  ghost predicate Says(e: Entry, path: seq<Name>, leaf: Leaf)
    decreases e, 0
  {
    match e
    case Define(along, Opaque(text)) => path == along && leaf == Text(text)
    case Define(along, Plain(entries)) => along <= path && SomeSays(entries, path[|along|..], leaf)
    case Inherit(None, names) => exists x :: x in names && path == [x] && leaf == Outer(x)
    case Inherit(Some(source), names) => exists x :: x in names && path == [x] && leaf == From(source, x)
  }

  ghost predicate SomeSays(entries: seq<Entry>, path: seq<Name>, leaf: Leaf)
    decreases entries, 1
  {
    exists i :: 0 <= i < |entries| && Says(entries[i], path, leaf)
  }

  /** Definitions that have a meaning together mean exactly what each of them says. */
  lemma {:induction false} EntriesHave(entries: seq<Entry>, path: seq<Name>, leaf: Leaf)
    requires EntriesMeaning(entries).Some?
    ensures LeafAt(EntriesMeaning(entries), path, leaf) <==> SomeSays(entries, path, leaf)
    decreases EntriesWeight(entries), 1, |entries|
  {
    if entries == [] {
      if path != [] {
        NothingFurther(path[1..]);
      }
    } else {
      JoinLeaves(EntryMeaning(entries[0]).value, EntriesMeaning(entries[1..]).value, path, leaf);
      EntryHas(entries[0], path, leaf);
      EntriesHave(entries[1..], path, leaf);
      SomeSaysMore(entries, path, leaf);
    }
  }

  lemma SomeSaysMore(entries: seq<Entry>, path: seq<Name>, leaf: Leaf)
    requires entries != []
    ensures SomeSays(entries, path, leaf) <==> Says(entries[0], path, leaf) || SomeSays(entries[1..], path, leaf)
  {
    if i :| 0 <= i < |entries| && Says(entries[i], path, leaf) {
      if i > 0 {
        assert Says(entries[1..][i - 1], path, leaf);
      }
    }
    if i :| 0 <= i < |entries[1..]| && Says(entries[1..][i], path, leaf) {
      assert Says(entries[i + 1], path, leaf);
    }
  }

  lemma {:induction false} EntryHas(e: Entry, path: seq<Name>, leaf: Leaf)
    requires EntryMeaning(e).Some?
    ensures LeafAt(EntryMeaning(e), path, leaf) <==> Says(e, path, leaf)
    decreases EntryWeight(e), 0, 0
  {
    match e {
      case Define(along, Opaque(text)) =>
        FoundAlong(along, Tree.Leaf(Text(text)), []);
        assert along + [] == along;
        if LeafAt(EntryMeaning(e), path, leaf) {
          OnlyAlong(along, Text(text), path, leaf);
        }
      case Define(along, Plain(entries)) =>
        AlongMeans(along, EntriesMeaning(entries));
        if along <= path {
          FoundAlong(along, EntriesMeaning(entries).value, path[|along|..]);
          assert along + path[|along|..] == path;
          assert EntryWeight(e) == |along| + (1 + EntriesWeight(entries));
          EntriesHave(entries, path[|along|..], leaf);
        } else {
          EntriesAreSets(entries);
          NotAlong(along, EntriesMeaning(entries).value, path, leaf);
        }
      case Inherit(from, names) =>
        InheritedLeaves(from, names, path, leaf);
        if |path| == 1 {
          assert path == [path[0]];
        }
    }
  }

  lemma {:induction false} AlongMeans(path: seq<Name>, t: Option<Tree>)
    ensures Along(path, t).Some? ==> t.Some?
    decreases |path|
  {
    if path != [] {
      AlongMeans(path[1..], t);
    }
  }

  lemma PrefixRest(path: seq<Name>, at: seq<Name>)
    requires path != [] && at != [] && at[0] == path[0]
    ensures path <= at <==> path[1..] <= at[1..]
  {
    assert path == [path[0]] + path[1..] && at == [at[0]] + at[1..];
  }

  /** Away from a path there is no leaf. */
  lemma {:induction false} NotAlong(path: seq<Name>, t: Tree, at: seq<Name>, leaf: Leaf)
    requires t.Set? && !(path <= at)
    ensures !LeafAt(Along(path, Some(t)), at, leaf)
    decreases |path|
  {
    AlongDefined(path[1..], t);
    if at != [] {
      NothingFurther(at[1..]);
      if at[0] == path[0] {
        PrefixRest(path, at);
        NotAlong(path[1..], t, at[1..], leaf);
      }
    }
  }

  /** What a set literal merges to has exactly what its definitions say, at the paths they say. */
  lemma MergedHave(entries: seq<Entry>, path: seq<Name>, leaf: Leaf)
    requires AllFormed(entries)
    ensures MergeEntries(EMPTY, entries).Ok? ==> Valid(MergeEntries(EMPTY, entries).value)
    ensures var meaning := ResultMeaning(MergeEntries(EMPTY, entries));
      meaning.Some? ==> (LeafAt(meaning, path, leaf) <==> SomeSays(entries, path, leaf))
  {
    MergesMeaning(EMPTY, entries);
    EntriesAreSets(entries);
    JoinEmpty(EntriesMeaning(entries));
    if EntriesMeaning(entries).Some? {
      EntriesHave(entries, path, leaf);
    }
  }

  // ----- clashes ---------------------------------------------------------------------------------

  /** Where a leaf meets anything at or below its path there is no join. */
  lemma {:induction false} LeavesClash(t: Tree, u: Tree, path: seq<Name>, further: seq<Name>, leaf: Leaf, other: Leaf)
    requires path <= further && LeafAt(Some(t), path, leaf) && LeafAt(Some(u), further, other)
    ensures Join(t, u).None?
    decreases |path|
  {
    if path != [] {
      var x := path[0];
      NothingFurther(path[1..]);
      NothingFurther(further[1..]);
      PrefixRest(path, further);
      LeavesClash(t.children[x], u.children[x], path[1..], further[1..], leaf, other);
    }
  }

  /** Two definitions never both say what is at a path, nor does one below what the other says. */
  lemma NeverTwice(entries: seq<Entry>, i: nat, j: nat, path: seq<Name>, further: seq<Name>, leaf: Leaf, other: Leaf)
    requires i < |entries| && j < |entries| && i != j && path <= further
    requires Says(entries[i], path, leaf) && Says(entries[j], further, other)
    ensures EntriesMeaning(entries).None?
  {
    TakenOut(entries, i);
    var rest := entries[..i] + entries[i + 1..];
    assert rest[if j < i then j else j - 1] == entries[j];
    if EntryMeaning(entries[i]).Some? && EntriesMeaning(rest).Some? {
      EntryHas(entries[i], path, leaf);
      EntriesHave(rest, further, other);
      LeavesClash(EntryMeaning(entries[i]).value, EntriesMeaning(rest).value, path, further, leaf, other);
    }
  }
}
