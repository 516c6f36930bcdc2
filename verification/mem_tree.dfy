/** Archives unpacked into memory: a flat map from paths to nodes that stands for a tree. */
module MemTrees {
  import opened Wrappers

  type Name = string

  /** A canonical relative path, by its components; the root is the empty path. */
  type Path = seq<Name>

  datatype Node =
    | Regular(contents: string, executable: bool)
    | Directory(children: set<Name>)
    | Symlink(target: string)

  type Nodes = map<Path, Node>

  // ----- the tree the map stands for -----------------------------------------------------------

  datatype Tree =
    | File(contents: string, executable: bool)
    | Link(target: string)
    | Dir(entries: map<Name, Tree>)

  const EMPTY_DIR := Dir(map[])

  function NodeOf(t: Tree): Node {
    match t
    case File(contents, executable) => Regular(contents, executable)
    case Link(target) => Symlink(target)
    case Dir(entries) => Directory(entries.Keys)
  }

  datatype FileType = RegularType | DirectoryType | SymlinkType

  function TypeOf(node: Node): FileType {
    match node
    case Regular(_, _) => RegularType
    case Directory(_) => DirectoryType
    case Symlink(_) => SymlinkType
  }

  function Child(t: Option<Tree>, name: Name): Option<Tree> {
    if t.Some? && t.value.Dir? && name in t.value.entries then Some(t.value.entries[name]) else None
  }

  function Lookup(t: Option<Tree>, path: Path): Option<Tree>
    decreases |path|
  {
    if path == [] then t else Lookup(Child(t, path[0]), path[1..])
  }

  /** The map holds a node for every path of the tree and nothing else. */
  ghost predicate Denotes(nodes: Nodes, t: Tree) {
    forall p ::
      && (p in nodes <==> Lookup(Some(t), p).Some?)
      && (p in nodes ==> nodes[p] == NodeOf(Lookup(Some(t), p).value))
  }

  /** Every listed child exists, and everything but the root is listed. */
  ghost predicate NoOrphans(nodes: Nodes) {
    && (forall p, c :: p in nodes && nodes[p].Directory? && c in nodes[p].children ==> p + [c] in nodes)
    && (forall p, c :: p + [c] in nodes ==> Lists(nodes, p, c))
  }

  ghost predicate Lists(nodes: Nodes, p: Path, c: Name) {
    p in nodes && nodes[p].Directory? && c in nodes[p].children
  }

  /** Put `leaf` at `path`: a directory over a directory changes nothing, anything else replaces
    * what is there, and what is on the way becomes a directory.
    */
  function Put(t: Option<Tree>, path: Path, leaf: Tree): Tree
    decreases |path|
  {
    if path == [] then (if t.Some? && t.value.Dir? && leaf.Dir? then t.value else leaf)
    else
      var entries := if t.Some? && t.value.Dir? then t.value.entries else map[];
      Dir(entries[path[0] := Put(Child(t, path[0]), path[1..], leaf)])
  }

  /** The root itself is never replaced. */
  function PutEntry(t: Tree, path: Path, leaf: Tree): Tree {
    if path == [] then t else Put(Some(t), path, leaf)
  }

  // ----- paths in trees ----------------------------------------------------------------------------

  lemma {:induction false} LookupAppend(t: Option<Tree>, p: Path, q: Path)
    ensures Lookup(t, p + q) == Lookup(Lookup(t, p), q)
    decreases |p|
  {
    if p == [] {
      assert p + q == q;
    } else {
      assert (p + q)[1..] == p[1..] + q;
      LookupAppend(Child(t, p[0]), p[1..], q);
    }
  }

  lemma DenotedHasNoOrphans(nodes: Nodes, t: Tree)
    requires Denotes(nodes, t)
    ensures NoOrphans(nodes)
  {
    forall p, c
      ensures Lookup(Some(t), p + [c]) == Child(Lookup(Some(t), p), c)
    {
      LookupAppend(Some(t), p, [c]);
      assert [c][1..] == [];
    }
  }

  /** What `Put` does at and below `path`. */
  lemma {:induction false} PutAtAndBelow(t: Option<Tree>, path: Path, leaf: Tree, q: Path)
    ensures var there := Lookup(t, path);
      Lookup(Some(Put(t, path, leaf)), path + q) ==
        if there.Some? && there.value.Dir? && leaf.Dir? then Lookup(t, path + q) else Lookup(Some(leaf), q)
    decreases |path|
  {
    if path == [] {
      assert path + q == q;
    } else {
      assert (path + q)[1..] == path[1..] + q;
      PutAtAndBelow(Child(t, path[0]), path[1..], leaf, q);
    }
  }

  /** What it does on the way: a directory that also lists the next component. */
  lemma {:induction false} PutOnTheWay(t: Option<Tree>, path: Path, leaf: Tree, n: nat)
    requires n < |path|
    ensures var there := Lookup(t, path[..n]);
      var after := Lookup(Some(Put(t, path, leaf)), path[..n]);
      && after.Some? && after.value.Dir?
      && after.value.entries.Keys
         == (if there.Some? && there.value.Dir? then there.value.entries.Keys else {}) + {path[n]}
    decreases n
  {
    if n == 0 {
      assert path[..0] == [];
    } else {
      assert path[..n][1..] == path[1..][..n - 1];
      PutOnTheWay(Child(t, path[0]), path[1..], leaf, n - 1);
    }
  }

  /** Everywhere else it changes nothing. */
  lemma {:induction false} PutElsewhere(t: Option<Tree>, path: Path, leaf: Tree, q: Path)
    requires !(path <= q) && !(q <= path)
    ensures Lookup(Some(Put(t, path, leaf)), q) == Lookup(t, q)
    decreases |path|
  {
    if path[0] == q[0] {
      assert path == [path[0]] + path[1..] && q == [q[0]] + q[1..];
      PutElsewhere(Child(t, path[0]), path[1..], leaf, q[1..]);
    }
  }

  /** Making the parent directory first makes no difference. */
  lemma {:induction false} PutParentFirst(t: Option<Tree>, parent: Path, name: Name, leaf: Tree)
    ensures Put(Some(Put(t, parent, EMPTY_DIR)), parent + [name], leaf) == Put(t, parent + [name], leaf)
    decreases |parent|
  {
    if parent == [] {
      assert parent + [name] == [name] && [name][1..] == [];
    } else {
      assert (parent + [name])[1..] == parent[1..] + [name];
      PutParentFirst(Child(t, parent[0]), parent[1..], name, leaf);
    }
  }

  // ----- the map itself ------------------------------------------------------------------------------

  /** Everything below `path` hangs off it: no descendant without its parent listing it. */
  ghost predicate HangsTogether(nodes: Nodes, path: Path) {
    forall q, c :: path <= q && q + [c] in nodes ==> Lists(nodes, q, c)
  }

  ghost function Without(nodes: Nodes, path: Path): Nodes {
    map q | q in nodes && !(path <= q) :: nodes[q]
  }

  /** Below a directory, only what hangs off its listed children. */
  lemma {:induction false} HangsOffChild(nodes: Nodes, path: Path, q: Path)
    requires HangsTogether(nodes, path) && path < q && q in nodes
    ensures Lists(nodes, path, q[|path|])
    decreases |q|
  {
    var up := q[..|q| - 1];
    assert q == up + [q[|q| - 1]];
    if up != path {
      HangsOffChild(nodes, path, up);
    }
  }

  class MemTree {
    var nodes: Nodes
    ghost var tree: Tree

    ghost predicate Valid()
      reads this
    {
      tree.Dir? && Denotes(nodes, tree)
    }

    constructor Empty()
      ensures Valid() && tree == EMPTY_DIR
    {
      nodes := map[[] := Directory({})];
      tree := EMPTY_DIR;
      new;
      forall p
        ensures p in nodes <==> Lookup(Some(tree), p).Some?
      {
        if p != [] {
          NothingBelowNothing(p[1..]);
        }
      }
    }

    /** Remove the node at `path` and everything below it. */
    method Remove(path: Path)
      requires HangsTogether(nodes, path)
      modifies this`nodes
      ensures nodes == Without(old(nodes), path)
      decreases nodes.Keys
    {
      if path !in nodes {
        forall q | q in nodes && path <= q
          ensures false
        {
          if path != q {
            HangsOffChild(nodes, path, q);
          }
        }
        return;
      }
      ghost var before := nodes;
      var node := nodes[path];
      nodes := nodes - {path};
      if node.Directory? {
        var todo := node.children;
        while todo != {}
          invariant todo <= node.children
          invariant nodes == ClearedTo(before, path, node.children - todo)
          decreases todo
        {
          var child :| child in todo;
          ghost var cleared := node.children - todo;
          ChildHangsTogether(before, path, cleared, child);
          Remove(path + [child]);
          ClearOne(before, path, cleared, child);
          todo := todo - {child};
          assert node.children - todo == cleared + {child};
        }
      }
      ClearedAll(before, path);
    }

    /** Add `node` at `path`, replacing whatever is there unless both are directories, and
      * creating any missing parent directories.
      */
    method Insert(path: Path, node: Node)
      requires Valid() && (node.Directory? ==> node.children == {})
      modifies this
      ensures Valid() && tree == PutEntry(old(tree), path, Planted(node))
      decreases |path|
    {
      if path == [] {
        return;
      }
      var parent, name := path[..|path| - 1], path[|path| - 1];
      if !(parent in nodes && nodes[parent].Directory?) {
        Insert(parent, Directory({}));
      } else {
        PutDirectoryAgain(Some(tree), parent);
      }
      ghost var made := tree;
      assert path == parent + [name];
      PutParentFirst(Some(old(tree)), parent, name, Planted(node));
      ParentIsDirectory(nodes, made, old(tree), parent);
      Replace(parent, name, node);
    }

    /** List `name` in the directory at `parent`, and put `node` there unless both are directories. */
    method Replace(parent: Path, name: Name, node: Node)
      requires Valid() && (node.Directory? ==> node.children == {})
      requires parent in nodes && nodes[parent].Directory?
      modifies this
      ensures Valid() && tree == Put(Some(old(tree)), parent + [name], Planted(node))
    {
      var path := parent + [name];
      ghost var was := nodes;
      DenotedHasNoOrphans(was, tree);
      nodes := nodes[parent := Directory(nodes[parent].children + {name})];
      if path in nodes && nodes[path].Directory? && node.Directory? {
        PutDirectoryAgain(Some(tree), path);
        ListedAlready(was, parent, name);
        return;
      }
      ListedHangsTogether(was, parent, name);
      Remove(path);
      nodes := nodes[path := node];
      PutDenoted(was, tree, parent, name, node);
      PutIsDirectory(tree, path, Planted(node));
      tree := Put(Some(tree), path, Planted(node));
    }

    /** The names in a directory with their types; each has a node, so none is ever missing. */
    method ReadDir(path: Path) returns (r: Option<map<Name, FileType>>)
      requires Valid()
      ensures r == if IsDir(tree, path) then Some(TypesIn(Lookup(Some(tree), path).value.entries)) else None
    {
      ReadableDenoted(nodes, tree, path);
      if !(path in nodes && nodes[path].Directory?) {
        return None;
      }
      r := Some(map c | c in nodes[path].children :: TypeOf(nodes[path + [c]]));
    }

    /** The tree rooted at the sole entry of the root, if there is exactly one and it is no file. */
    method StripTopLevel()
      requires Valid()
      modifies this
      ensures Denotes(nodes, tree) && tree == Promoted(old(tree))
    {
      var root := nodes[[]].children;
      if |root| != 1 {
        return;
      }
      var top :| top in root;
      SoleEntry(tree, top);
      assert Lookup(Some(tree), [top]) == Some(tree.entries[top]) by {
        assert [top][1..] == [];
      }
      if nodes[[top]].Regular? {
        return;
      }
      PromotedDenoted(nodes, tree, top);
      nodes := Below(nodes, top);
      tree := tree.entries[top];
    }
  }

  predicate IsDir(t: Tree, path: Path) {
    Lookup(Some(t), path).Some? && Lookup(Some(t), path).value.Dir?
  }

  function TypesIn(entries: map<Name, Tree>): map<Name, FileType> {
    map c | c in entries :: TypeOf(NodeOf(entries[c]))
  }

  /** A directory can be read: its children exist, and have the types that the tree's have. */
  lemma ReadableDenoted(nodes: Nodes, t: Tree, path: Path)
    requires Denotes(nodes, t)
    ensures IsDir(t, path) <==> path in nodes && nodes[path].Directory?
    ensures IsDir(t, path) ==> forall c :: c in nodes[path].children ==> path + [c] in nodes
    ensures IsDir(t, path) ==>
      TypesIn(Lookup(Some(t), path).value.entries) == map c | c in nodes[path].children :: TypeOf(nodes[path + [c]])
  {
    if IsDir(t, path) {
      var entries := Lookup(Some(t), path).value.entries;
      assert nodes[path] == Directory(entries.Keys);
      forall c | c in entries
        ensures path + [c] in nodes && nodes[path + [c]] == NodeOf(entries[c])
      {
        EntryDenoted(nodes, t, path, c);
      }
    }
  }

  lemma EntryDenoted(nodes: Nodes, t: Tree, path: Path, c: Name)
    requires Denotes(nodes, t) && Lookup(Some(t), path).Some? && Lookup(Some(t), path).value.Dir?
    requires c in Lookup(Some(t), path).value.entries
    ensures path + [c] in nodes && nodes[path + [c]] == NodeOf(Lookup(Some(t), path).value.entries[c])
  {
    LookupAppend(Some(t), path, [c]);
    assert [c][1..] == [];
  }

  lemma ListedAlready(nodes: Nodes, parent: Path, name: Name)
    requires NoOrphans(nodes) && parent + [name] in nodes && parent in nodes && nodes[parent].Directory?
    ensures nodes[parent := Directory(nodes[parent].children + {name})] == nodes
  {
    assert Lists(nodes, parent, name);
    assert nodes[parent] == Directory(nodes[parent].children + {name});
  }

  lemma ListedHangsTogether(nodes: Nodes, parent: Path, name: Name)
    requires NoOrphans(nodes) && parent in nodes && nodes[parent].Directory?
    ensures HangsTogether(nodes[parent := Directory(nodes[parent].children + {name})], parent + [name])
  {
  }

  lemma PutIsDirectory(t: Tree, path: Path, leaf: Tree)
    requires path != []
    ensures Put(Some(t), path, leaf).Dir?
  {
  }

  /** The tree a single inserted node stands for. */
  function Planted(node: Node): Tree {
    match node
    case Regular(contents, executable) => File(contents, executable)
    case Directory(_) => EMPTY_DIR
    case Symlink(target) => Link(target)
  }

  lemma {:induction false} PutDirectoryAgain(t: Option<Tree>, path: Path)
    requires Lookup(t, path).Some? && Lookup(t, path).value.Dir?
    ensures t.Some? && Put(t, path, EMPTY_DIR) == t.value
    decreases |path|
  {
    if path != [] {
      if Child(t, path[0]).None? {
        NothingBelowNothing(path[1..]);
      }
      PutDirectoryAgain(Child(t, path[0]), path[1..]);
    }
  }

  /** Having put a directory at `parent`, there is one. */
  lemma ParentIsDirectory(nodes: Nodes, made: Tree, t: Tree, parent: Path)
    requires Denotes(nodes, made) && t.Dir? && made == PutEntry(t, parent, EMPTY_DIR)
    ensures made.Dir? && parent in nodes && nodes[parent].Directory?
  {
    if parent != [] {
      PutAtAndBelow(Some(t), parent, EMPTY_DIR, []);
      assert parent + [] == parent;
    }
    assert Lookup(Some(made), parent).value.Dir?;
  }

  /** A node can be put below a directory, as nothing that was there stays. */
  ghost predicate Puttable(nodes: Nodes, t: Tree, parent: Path, name: Name, node: Node) {
    && Denotes(nodes, t) && parent in nodes && nodes[parent].Directory?
    && (node.Directory? ==> node.children == {})
    && var path := parent + [name]; !(path in nodes && nodes[path].Directory? && node.Directory?)
  }

  ghost function AfterPut(nodes: Nodes, parent: Path, name: Name, node: Node): Nodes
    requires parent in nodes && nodes[parent].Directory?
  {
    var listed := nodes[parent := Directory(nodes[parent].children + {name})];
    Without(listed, parent + [name])[parent + [name] := node]
  }

  /** The map has at `q` what the tree has. */
  ghost predicate DenotedAt(nodes: Nodes, t: Tree, q: Path) {
    && (q in nodes <==> Lookup(Some(t), q).Some?)
    && (q in nodes ==> nodes[q] == NodeOf(Lookup(Some(t), q).value))
  }

  lemma NothingIsKept(nodes: Nodes, t: Tree, parent: Path, name: Name, node: Node)
    requires Puttable(nodes, t, parent, name, node)
    ensures var there := Lookup(Some(t), parent + [name]);
      !(there.Some? && there.value.Dir? && Planted(node).Dir?)
  {
  }

  lemma OnlyAt(listed: Nodes, path: Path, node: Node, q: Path)
    requires path <= q
    ensures q in Without(listed, path)[path := node] <==> q == path
  {
  }

  lemma PlantedBelow(listed: Nodes, path: Path, node: Node, t: Tree, q: Path)
    requires path <= q && (node.Directory? ==> node.children == {})
    requires Lookup(Some(t), q) == Lookup(Some(Planted(node)), q[|path|..])
    ensures DenotedAt(Without(listed, path)[path := node], t, q)
  {
    OnlyAt(listed, path, node, q);
    if q != path {
      PlantedAlone(node, q[|path|..]);
    }
  }

  lemma DenotedBelow(nodes: Nodes, t: Tree, parent: Path, name: Name, node: Node, q: Path)
    requires Puttable(nodes, t, parent, name, node) && parent + [name] <= q
    ensures DenotedAt(AfterPut(nodes, parent, name, node), Put(Some(t), parent + [name], Planted(node)), q)
  {
    var path := parent + [name];
    NothingIsKept(nodes, t, parent, name, node);
    PutAtAndBelow(Some(t), path, Planted(node), q[|path|..]);
    assert q == path + q[|path|..];
    PlantedBelow(nodes[parent := Directory(nodes[parent].children + {name})], path, node,
      Put(Some(t), path, Planted(node)), q);
  }

  lemma DenotedOnTheWay(nodes: Nodes, t: Tree, parent: Path, name: Name, node: Node, q: Path)
    requires Puttable(nodes, t, parent, name, node) && q <= parent
    ensures DenotedAt(AfterPut(nodes, parent, name, node), Put(Some(t), parent + [name], Planted(node)), q)
  {
    var path := parent + [name];
    AlreadyDirectory(nodes, t, parent, q);
    PutOnTheWay(Some(t), path, Planted(node), |q|);
    assert path[..|q|] == q;
    if q != parent {
      assert q < parent && path[|q|] == parent[|q|];
    }
  }

  lemma DenotedElsewhere(nodes: Nodes, t: Tree, parent: Path, name: Name, node: Node, q: Path)
    requires Puttable(nodes, t, parent, name, node) && !(parent + [name] <= q) && !(q <= parent + [name])
    ensures DenotedAt(AfterPut(nodes, parent, name, node), Put(Some(t), parent + [name], Planted(node)), q)
  {
    PutElsewhere(Some(t), parent + [name], Planted(node), q);
    assert parent <= parent + [name];
  }

  lemma PutDenotedAt(nodes: Nodes, t: Tree, parent: Path, name: Name, node: Node, q: Path)
    requires Puttable(nodes, t, parent, name, node)
    ensures DenotedAt(AfterPut(nodes, parent, name, node), Put(Some(t), parent + [name], Planted(node)), q)
  {
    var path := parent + [name];
    if path <= q {
      DenotedBelow(nodes, t, parent, name, node, q);
    } else if q <= path {
      assert q <= parent;
      DenotedOnTheWay(nodes, t, parent, name, node, q);
    } else {
      DenotedElsewhere(nodes, t, parent, name, node, q);
    }
  }

  lemma PutDenoted(nodes: Nodes, t: Tree, parent: Path, name: Name, node: Node)
    requires Puttable(nodes, t, parent, name, node)
    ensures Denotes(AfterPut(nodes, parent, name, node), Put(Some(t), parent + [name], Planted(node)))
  {
    var after, put := AfterPut(nodes, parent, name, node), Put(Some(t), parent + [name], Planted(node));
    forall q
      ensures (q in after <==> Lookup(Some(put), q).Some?) &&
        (q in after ==> after[q] == NodeOf(Lookup(Some(put), q).value))
    {
      PutDenotedAt(nodes, t, parent, name, node, q);
    }
  }

  lemma PlantedAlone(node: Node, q: Path)
    requires q != []
    ensures Lookup(Some(Planted(node)), q) == None
  {
    NothingBelowNothing(q[1..]);
  }

  /** On the way to a directory there are only directories, each listing the next. */
  lemma AlreadyDirectory(nodes: Nodes, t: Tree, parent: Path, q: Path)
    requires Denotes(nodes, t) && parent in nodes && nodes[parent].Directory? && q <= parent
    ensures q in nodes && nodes[q].Directory? && (q < parent ==> parent[|q|] in nodes[q].children)
  {
    var rest := parent[|q|..];
    assert parent == q + rest;
    LookupAppend(Some(t), q, rest);
    if Lookup(Some(t), q).None? {
      NothingBelowNothing(rest);
    }
    if rest != [] && Child(Lookup(Some(t), q), rest[0]).None? {
      NothingBelowNothing(rest[1..]);
    }
  }

  // ----- the top level ---------------------------------------------------------------------------------

  ghost function Promoted(t: Tree): Tree
    requires t.Dir?
  {
    if |t.entries| != 1 then t
    else
      SoleKey(t.entries.Keys);
      var top :| top in t.entries;
      if t.entries[top].File? then t else t.entries[top]
  }

  lemma SoleKey(s: set<Name>)
    requires |s| == 1
    ensures exists x :: x in s && forall y :: y in s ==> y == x
  {
    var x :| x in s;
    var rest := s - {x};
    assert |rest| == 0 && s == rest + {x};
  }

  lemma SoleEntry(t: Tree, top: Name)
    requires t.Dir? && |t.entries.Keys| == 1 && top in t.entries
    ensures |t.entries| == 1 && Promoted(t) == if t.entries[top].File? then t else t.entries[top]
  {
    SoleKey(t.entries.Keys);
  }

  function Below(nodes: Nodes, top: Name): Nodes {
    map q | q in (set p | p in nodes && [top] <= p :: p[1..]) && [top] + q in nodes :: nodes[[top] + q]
  }

  lemma PromotedDenoted(nodes: Nodes, t: Tree, top: Name)
    requires Denotes(nodes, t) && t.Dir? && top in t.entries
    ensures Denotes(Below(nodes, top), t.entries[top])
  {
    forall q
      ensures q in Below(nodes, top) <==> [top] + q in nodes
      ensures Lookup(Some(t), [top] + q) == Lookup(Some(t.entries[top]), q)
    {
      if [top] + q in nodes {
        assert [top] <= [top] + q && ([top] + q)[1..] == q;
      }
      if p :| p in nodes && [top] <= p && p[1..] == q {
        assert p == [top] + q;
      }
      assert ([top] + q)[1..] == q;
    }
  }

  lemma {:induction false} NothingBelowNothing(p: Path)
    ensures Lookup(None, p) == None
    decreases |p|
  {
    if p != [] {
      NothingBelowNothing(p[1..]);
    }
  }

  /** `path` gone, and everything below the children in `cleared`. */
  ghost function ClearedTo(before: Nodes, path: Path, cleared: set<Name>): Nodes {
    map q | q in before && q != path && !(path < q && q[|path|] in cleared) :: before[q]
  }

  lemma ChildHangsTogether(before: Nodes, path: Path, cleared: set<Name>, child: Name)
    requires HangsTogether(before, path) && child !in cleared
    ensures HangsTogether(ClearedTo(before, path, cleared), path + [child])
  {
    var nodes := ClearedTo(before, path, cleared);
    forall q, c | path + [child] <= q && q + [c] in nodes
      ensures Lists(nodes, q, c)
    {
      assert path <= q && q[|path|] == child;
      assert Lists(before, q, c);
    }
  }

  lemma ClearOne(before: Nodes, path: Path, cleared: set<Name>, child: Name)
    ensures Without(ClearedTo(before, path, cleared), path + [child]) == ClearedTo(before, path, cleared + {child})
  {
    forall q: Path
      ensures path + [child] <= q <==> path < q && q[|path|] == child
    {
      if path < q && q[|path|] == child {
        assert q[..|path| + 1] == path + [child];
      }
    }
  }

  /** Once every listed child is cleared, nothing below `path` is left. */
  lemma ClearedAll(before: Nodes, path: Path)
    requires HangsTogether(before, path) && path in before
    ensures ClearedTo(before, path, if before[path].Directory? then before[path].children else {}) ==
      Without(before, path)
  {
    forall q | q in before && path < q
      ensures Lists(before, path, q[|path|])
    {
      HangsOffChild(before, path, q);
    }
  }

  // ----- whole archives --------------------------------------------------------------------------------

  /** An archive's entry; a hard link stands for the file it names at that point. */
  datatype Entry = Plain(path: Path, node: Node) | HardLink(path: Path, target: Path)

  function EntryTree(t: Tree, entry: Entry): Option<Tree> {
    match entry
    case Plain(_, node) => Some(Planted(node))
    case HardLink(_, target) =>
      var there := Lookup(Some(t), target);
      if there.Some? && there.value.File? then there else None
  }

  /** The tree the first `n` entries build, later ones winning; `None` once a hard link names no file. */
  function Replay(entries: seq<Entry>, n: nat): (t: Option<Tree>)
    requires n <= |entries|
  {
    if n == 0 then Some(EMPTY_DIR)
    else
      match Replay(entries, n - 1)
      case None => None
      case Some(t) =>
        match EntryTree(t, entries[n - 1])
        case None => None
        case Some(leaf) => Some(PutEntry(t, entries[n - 1].path, leaf))
  }

  /** What an entry does to the tree so far: it is there afterwards, whatever was before, but that a
    * directory leaves a directory alone, a hard link is what it names, and the root stays.
    */
  lemma EntryLands(entries: seq<Entry>, n: nat, t: Tree)
    requires n < |entries| && Replay(entries, n) == Some(t)
    ensures var e, next := entries[n], Replay(entries, n + 1);
      && (e.Plain? ==> next.Some?)
      && (e.Plain? && e.path == [] ==> next == Some(t))
      && (e.Plain? && e.path != [] && e.node.Regular? ==>
            Lookup(next, e.path) == Some(File(e.node.contents, e.node.executable)))
      && (e.Plain? && e.path != [] && e.node.Symlink? ==> Lookup(next, e.path) == Some(Link(e.node.target)))
      && (e.Plain? && e.path != [] && e.node.Directory? ==>
            Lookup(next, e.path) == if IsDirAt(t, e.path) then Lookup(Some(t), e.path) else Some(Dir(map[])))
      && (e.HardLink? ==> (next.Some? <==> IsFileAt(t, e.target)))
      && (e.HardLink? && next.Some? ==>
            if e.path == [] then next == Some(t) else Lookup(next, e.path) == Lookup(Some(t), e.target))
  {
    var e := entries[n];
    var leaf := EntryTree(t, e);
    if leaf.Some? {
      PutAtAndBelow(Some(t), e.path, leaf.value, []);
      assert e.path + [] == e.path;
    }
  }

  predicate IsDirAt(t: Tree, path: Path) {
    Lookup(Some(t), path).Some? && Lookup(Some(t), path).value.Dir?
  }

  predicate IsFileAt(t: Tree, path: Path) {
    Lookup(Some(t), path).Some? && Lookup(Some(t), path).value.File?
  }

  /** Promoting takes a sole top-level entry away that is no file, and does nothing else. */
  lemma PromotedIs(t: Tree, top: Name, q: Path)
    requires t.Dir? && top in t.entries
    ensures (forall x :: x in t.entries ==> x == top) && !t.entries[top].File? ==>
      Lookup(Some(Promoted(t)), q) == Lookup(Some(t), [top] + q)
    ensures t.entries[top].File? || (exists x :: x in t.entries && x != top) ==> Promoted(t) == t
  {
    assert ([top] + q)[1..] == q;
    if forall x :: x in t.entries ==> x == top {
      assert t.entries.Keys == {top};
      SoleEntry(t, top);
    } else {
      var x :| x in t.entries && x != top;
      assert {x, top} <= t.entries.Keys;
      SubsetSize({x, top}, t.entries.Keys);
    }
  }

  lemma {:induction false} SubsetSize(a: set<Name>, b: set<Name>)
    requires a <= b
    ensures |a| <= |b|
    decreases a
  {
    if a != {} {
      var x :| x in a;
      SubsetSize(a - {x}, b - {x});
    }
  }

  lemma {:induction false} ReplayStops(entries: seq<Entry>, m: nat, n: nat)
    requires m <= n <= |entries| && Replay(entries, m).None?
    ensures Replay(entries, n).None?
    decreases n
  {
    if m < n {
      ReplayStops(entries, m, n - 1);
    }
  }

  /** Unpack an archive: the resulting map stands for the replayed tree, promoted. */
  method Unpack(entries: seq<Entry>) returns (r: Option<MemTree>)
    requires forall i :: 0 <= i < |entries| && entries[i].Plain? && entries[i].node.Directory? ==>
      entries[i].node.children == {}
    ensures r.Some? <==> Replay(entries, |entries|).Some?
    ensures r.Some? ==> var t := Replay(entries, |entries|).value;
      t.Dir? && Denotes(r.value.nodes, Promoted(t)) && NoOrphans(r.value.nodes)
  {
    var tree := new MemTree.Empty();
    for i := 0 to |entries|
      invariant fresh(tree) && tree.Valid() && Replay(entries, i) == Some(tree.tree)
    {
      var node;
      match entries[i] {
        case Plain(_, plain) =>
          node := plain;
        case HardLink(_, target) =>
          if !(target in tree.nodes && tree.nodes[target].Regular?) {
            ReplayStops(entries, i + 1, |entries|);
            return None;
          }
          node := tree.nodes[target];
      }
      tree.Insert(entries[i].path, node);
    }
    tree.StripTopLevel();
    DenotedHasNoOrphans(tree.nodes, tree.tree);
    return Some(tree);
  }
}
