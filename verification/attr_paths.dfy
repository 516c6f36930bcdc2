/** How the definitions of a set literal, with their nested paths, are merged; and what they mean
  * together, whatever their order.
  */
module AttrPaths {
  import opened Wrappers

  type Name = string
  type Source = string

  // ----- definitions ------------------------------------------------------------------------------------

  /** A value is a `{ … }` without `rec`, whose definitions can merge with others, or some other
    * expression.
    */
  datatype Value = Opaque(text: string) | Plain(entries: seq<Entry>)

  datatype Entry =
    | Define(path: seq<Name>, value: Value)
      /** `inherit names;` or `inherit (from) names;` */
    | Inherit(from: Option<Source>, names: seq<Name>)

  ghost predicate WellFormed(v: Value) {
    v.Plain? ==> forall i | 0 <= i < |v.entries| :: EntryFormed(v.entries[i])
  }

  ghost predicate EntryFormed(e: Entry) {
    e.Define? ==> e.path != [] && WellFormed(e.value)
  }

  ghost predicate AllFormed(entries: seq<Entry>) {
    forall i | 0 <= i < |entries| :: EntryFormed(entries[i])
  }

  // ----- the parts of a set, merged -----------------------------------------------------------------------

  datatype PreSet = PreSet(statics: seq<Static>, froms: seq<Source>)

  datatype Static = Static(name: Name, attr: PreAttr)

  datatype PreAttr =
    | Expr(value: Value)
    | Nested(set_: PreSet)
    | InheritName(name: Name)
      /** From the source of that index in the set. */
    | InheritFrom(from: nat, name: Name)

  const EMPTY := PreSet([], [])

  datatype Failure = AlreadyDefined(name: Name)

  function IndexOf(statics: seq<Static>, name: Name): (i: nat)
    ensures i <= |statics|
    ensures i < |statics| ==> statics[i].name == name
    ensures forall j :: 0 <= j < i ==> statics[j].name != name
  {
    if statics == [] || statics[0].name == name then 0 else 1 + IndexOf(statics[1..], name)
  }

  function ValueWeight(v: Value): nat {
    match v
    case Opaque(_) => 1
    case Plain(entries) => 1 + EntriesWeight(entries)
  }

  function EntriesWeight(entries: seq<Entry>): nat {
    if entries == [] then 0 else EntryWeight(entries[0]) + EntriesWeight(entries[1..])
  }

  function EntryWeight(e: Entry): nat {
    match e
    case Define(path, value) => |path| + ValueWeight(value)
    case Inherit(_, names) => |names|
  }

  function Weight(statics: seq<Static>): nat {
    if statics == [] then 0
    else Weight(statics[..|statics| - 1]) + AttrWeight(statics[|statics| - 1].attr)
  }

  function AttrWeight(attr: PreAttr): nat {
    match attr
    case Expr(value) => ValueWeight(value)
    case Nested(set_) => Weight(set_.statics)
    case _ => 1
  }

  lemma {:induction false} WeightUpdate(statics: seq<Static>, i: nat, s: Static)
    requires i < |statics|
    ensures Weight(statics[i := s]) + AttrWeight(statics[i].attr) == Weight(statics) + AttrWeight(s.attr)
    decreases |statics|
  {
    var n := |statics| - 1;
    if i == n {
      assert statics[i := s][..n] == statics[..n];
    } else {
      assert statics[i := s][..n] == statics[..n][i := s];
      WeightUpdate(statics[..n], i, s);
    }
  }

  lemma WeightAdd(statics: seq<Static>, s: Static)
    ensures Weight(statics + [s]) == Weight(statics) + AttrWeight(s.attr)
  {
    assert (statics + [s])[..|statics|] == statics;
  }

  /** What a path leads to that is not there yet. */
  function NewAttr(rest: seq<Name>, value: Value): (r: Result<PreAttr, Failure>)
    ensures r.Ok? ==> AttrWeight(r.value) <= |rest| + ValueWeight(value)
    decreases |rest| + ValueWeight(value), 1, 0
  {
    if rest == [] then Ok(Expr(value))
    else
      var nested :- InsertPath(EMPTY, rest, value);
      Ok(Nested(nested))
  }

  /** What is there as a set to merge into: a plain literal is taken apart. */
  function Expanded(attr: PreAttr, name: Name): (r: Result<PreSet, Failure>)
    ensures r.Ok? ==> Weight(r.value.statics) <= AttrWeight(attr)
    decreases AttrWeight(attr), 3, 0
  {
    match attr
    case Expr(Plain(entries)) => MergeEntries(EMPTY, entries)
    case Nested(set_) => Ok(set_)
    case _ => Err(AlreadyDefined(name))
  }

  function InsertPath(set_: PreSet, path: seq<Name>, value: Value): (r: Result<PreSet, Failure>)
    requires path != []
    ensures r.Ok? ==> Weight(r.value.statics) <= Weight(set_.statics) + |path| + ValueWeight(value)
    decreases Weight(set_.statics) + |path| + ValueWeight(value), 0, 0
  {
    var name, rest := path[0], path[1..];
    var i := IndexOf(set_.statics, name);
    if i == |set_.statics| then
      var attr :- NewAttr(rest, value);
      WeightAdd(set_.statics, Static(name, attr));
      Ok(set_.(statics := set_.statics + [Static(name, attr)]))
    else
      WeightUpdate(set_.statics, i, Static(name, Nested(EMPTY)));
      var nested :- Expanded(set_.statics[i].attr, name);
      var merged :- MergeValue(nested, name, rest, value);
      WeightUpdate(set_.statics, i, Static(name, Nested(merged)));
      Ok(set_.(statics := set_.statics[i := Static(name, Nested(merged))]))
  }

  /** Two definitions of a name merge only when both are plain sets. */
  function MergeValue(nested: PreSet, name: Name, rest: seq<Name>, value: Value): (r: Result<PreSet, Failure>)
    ensures r.Ok? ==> Weight(r.value.statics) <= Weight(nested.statics) + |rest| + ValueWeight(value)
    decreases Weight(nested.statics) + |rest| + ValueWeight(value), 1, 0
  {
    if rest != [] then InsertPath(nested, rest, value)
    else match value
      case Plain(entries) => MergeEntries(nested, entries)
      case Opaque(_) => Err(AlreadyDefined(name))
  }

  function MergeInherit(set_: PreSet, attr: Name -> PreAttr, names: seq<Name>): (r: Result<PreSet, Failure>)
    requires forall x :: AttrWeight(attr(x)) == 1
    ensures r.Ok? ==> Weight(r.value.statics) <= Weight(set_.statics) + |names|
    decreases |names|
  {
    if names == [] then Ok(set_)
    else if IndexOf(set_.statics, names[0]) < |set_.statics| then Err(AlreadyDefined(names[0]))
    else
      var s := Static(names[0], attr(names[0]));
      WeightAdd(set_.statics, s);
      MergeInherit(set_.(statics := set_.statics + [s]), attr, names[1..])
  }

  function MergeEntry(set_: PreSet, e: Entry): (r: Result<PreSet, Failure>)
    ensures r.Ok? ==> Weight(r.value.statics) <= Weight(set_.statics) + EntryWeight(e)
    decreases Weight(set_.statics) + EntryWeight(e), 1, 0
  {
    match e
    case Define(path, value) => if path == [] then Ok(set_) else InsertPath(set_, path, value)
    case Inherit(None, names) => MergeInherit(set_, x => InheritName(x), names)
    case Inherit(Some(source), names) =>
      var from := |set_.froms|;
      MergeInherit(set_.(froms := set_.froms + [source]), x => InheritFrom(from, x), names)
  }

  function MergeEntries(set_: PreSet, entries: seq<Entry>): (r: Result<PreSet, Failure>)
    ensures r.Ok? ==> Weight(r.value.statics) <= Weight(set_.statics) + EntriesWeight(entries)
    decreases Weight(set_.statics) + EntriesWeight(entries), 2, |entries|
  {
    if entries == [] then Ok(set_)
    else
      var next :- MergeEntry(set_, entries[0]);
      MergeEntries(next, entries[1..])
  }

  // ----- what sets mean ---------------------------------------------------------------------------------

  datatype Leaf = Text(text: string) | Outer(name: Name) | From(source: Source, name: Name)

  /** A set binds names to trees; anything else is a leaf. */
  datatype Tree = Leaf(leaf: Leaf) | Set(children: map<Name, Tree>)

  /** Both at once: sets name by name, and nothing where anything else meets. */
  ghost function Join(t: Tree, u: Tree): (r: Option<Tree>)
    ensures r.Some? ==> t.Set? && u.Set? && r.value.Set?
    decreases t
  {
    if t.Leaf? || u.Leaf? || exists x | x in t.children && x in u.children ::
      Join(t.children[x], u.children[x]).None? then None
    else Some(Set(map x | x in t.children.Keys + u.children.Keys ::
      if x !in u.children then t.children[x]
      else if x !in t.children then u.children[x]
      else Join(t.children[x], u.children[x]).value))
  }

  ghost function Both(t: Option<Tree>, u: Option<Tree>): Option<Tree> {
    if t.Some? && u.Some? then Join(t.value, u.value) else None
  }

  /** One name, bound to a tree. */
  ghost function Bind(name: Name, t: Option<Tree>): Option<Tree> {
    if t.Some? then Some(Set(map[name := t.value])) else None
  }

  ghost function Along(path: seq<Name>, t: Option<Tree>): Option<Tree> {
    if path == [] then t else Bind(path[0], Along(path[1..], t))
  }

  ghost function ValueMeaning(v: Value): Option<Tree> {
    match v
    case Opaque(text) => Some(Leaf(Text(text)))
    case Plain(entries) => EntriesMeaning(entries)
  }

  ghost function EntriesMeaning(entries: seq<Entry>): Option<Tree> {
    if entries == [] then Some(Set(map[]))
    else Both(EntryMeaning(entries[0]), EntriesMeaning(entries[1..]))
  }

  ghost function EntryMeaning(e: Entry): Option<Tree> {
    match e
    case Define(path, value) => Along(path, ValueMeaning(value))
    case Inherit(from, names) => InheritMeaning(from, names)
  }

  ghost function Inherited(from: Option<Source>, name: Name): Tree {
    Leaf(if from.None? then Outer(name) else From(from.value, name))
  }

  ghost function InheritMeaning(from: Option<Source>, names: seq<Name>): Option<Tree> {
    if names == [] then Some(Set(map[]))
    else Both(Bind(names[0], Some(Inherited(from, names[0]))), InheritMeaning(from, names[1..]))
  }

  // ----- joining is commutative and associative -----------------------------------------------------------

  lemma {:induction false} JoinCommutes(t: Tree, u: Tree)
    ensures Join(t, u) == Join(u, t)
    decreases t
  {
    if t.Set? && u.Set? {
      forall x | x in t.children && x in u.children
        ensures Join(t.children[x], u.children[x]) == Join(u.children[x], t.children[x])
      {
        JoinCommutes(t.children[x], u.children[x]);
      }
      if Join(t, u).Some? && Join(u, t).Some? {
        assert Join(t, u).value.children == Join(u, t).value.children;
      }
    }
  }

  /** What a join binds a name to. */
  ghost function Child(t: Tree, x: Name): Option<Tree>
    requires t.Set?
  {
    if x in t.children then Some(t.children[x]) else None
  }

  lemma JoinChild(t: Tree, u: Tree, x: Name)
    requires Join(t, u).Some?
    ensures Child(Join(t, u).value, x) ==
      if x !in u.children then Child(t, x)
      else if x !in t.children then Child(u, x)
      else Join(t.children[x], u.children[x])
  {
  }

  ghost predicate Clash(t: Tree, u: Tree, x: Name)
    requires t.Set? && u.Set?
  {
    x in t.children && x in u.children && Join(t.children[x], u.children[x]).None?
  }

  lemma JoinFails(t: Tree, u: Tree)
    requires t.Set? && u.Set?
    ensures Join(t, u).None? <==> exists x :: Clash(t, u, x)
  {
    if x :| Clash(t, u, x) {
      assert x in t.children && x in u.children && Join(t.children[x], u.children[x]).None?;
    }
    if Join(t, u).None? {
      var x :| x in t.children && x in u.children && Join(t.children[x], u.children[x]).None?;
      assert Clash(t, u, x);
    }
  }

  lemma {:induction false} JoinAssociates(t: Tree, u: Tree, v: Tree)
    ensures Both(Join(t, u), Some(v)) == Both(Some(t), Join(u, v))
    decreases t
  {
    if t.Set? && u.Set? && v.Set? {
      forall x | x in t.children && x in u.children && x in v.children
        ensures Both(Join(t.children[x], u.children[x]), Some(v.children[x])) ==
          Both(Some(t.children[x]), Join(u.children[x], v.children[x]))
      {
        JoinAssociates(t.children[x], u.children[x], v.children[x]);
      }
      AssociatesIfLeft(t, u, v);
      AssociatesIfRight(t, u, v);
    }
  }

  ghost predicate ChildrenAssociate(t: Tree, u: Tree, v: Tree)
    requires t.Set? && u.Set? && v.Set?
  {
    forall x | x in t.children && x in u.children && x in v.children ::
      Both(Join(t.children[x], u.children[x]), Some(v.children[x])) ==
        Both(Some(t.children[x]), Join(u.children[x], v.children[x]))
  }

  lemma AssociatesIfLeft(t: Tree, u: Tree, v: Tree)
    requires t.Set? && u.Set? && v.Set? && ChildrenAssociate(t, u, v)
    ensures Both(Join(t, u), Some(v)).Some? ==> Both(Join(t, u), Some(v)) == Both(Some(t), Join(u, v))
  {
    if Both(Join(t, u), Some(v)).Some? {
      var tu := Join(t, u).value;
      JoinFails(t, u);
      JoinFails(tu, v);
      JoinFails(u, v);
      forall x
        ensures !Clash(u, v, x)
      {
        JoinChild(t, u, x);
        assert !Clash(tu, v, x) && !Clash(t, u, x);
      }
      var uv := Join(u, v).value;
      JoinFails(t, uv);
      forall x
        ensures !Clash(t, uv, x)
      {
        AssociatesAt(t, u, v, x);
      }
      forall x
        ensures Child(Join(tu, v).value, x) == Child(Join(t, uv).value, x)
      {
        AssociatesAt(t, u, v, x);
      }
      SameChildren(Join(tu, v).value, t, uv);
    }
  }

  lemma AssociatesAt(t: Tree, u: Tree, v: Tree, x: Name)
    requires t.Set? && u.Set? && v.Set? && ChildrenAssociate(t, u, v)
    requires Both(Join(t, u), Some(v)).Some? && Join(u, v).Some?
    ensures !Clash(t, Join(u, v).value, x)
    ensures Join(t, Join(u, v).value).Some? ==>
      Child(Both(Join(t, u), Some(v)).value, x) == Child(Join(t, Join(u, v).value).value, x)
  {
    var tu, uv := Join(t, u).value, Join(u, v).value;
    JoinFails(t, u);
    JoinFails(tu, v);
    assert !Clash(tu, v, x) && !Clash(t, u, x);
    JoinChild(t, u, x);
    JoinChild(u, v, x);
    JoinChild(tu, v, x);
    if Join(t, uv).Some? {
      JoinChild(t, uv, x);
    }
  }

  lemma SameChildren(r: Tree, t: Tree, u: Tree)
    requires r.Set? && Join(t, u).Some?
    requires forall x :: Child(r, x) == Child(Join(t, u).value, x)
    ensures r == Join(t, u).value
  {
    forall x
      ensures x in r.children <==> x in Join(t, u).value.children
      ensures x in r.children ==> r.children[x] == Join(t, u).value.children[x]
    {
      assert Child(r, x) == Child(Join(t, u).value, x);
    }
    assert r.children == Join(t, u).value.children;
  }

  lemma AssociatesIfRight(t: Tree, u: Tree, v: Tree)
    requires t.Set? && u.Set? && v.Set? && ChildrenAssociate(t, u, v)
    ensures Both(Some(t), Join(u, v)).Some? ==> Both(Join(t, u), Some(v)).Some?
  {
    if Both(Some(t), Join(u, v)).Some? {
      var uv := Join(u, v).value;
      JoinFails(u, v);
      JoinFails(t, uv);
      JoinFails(t, u);
      forall x
        ensures !Clash(t, u, x)
      {
        JoinChild(u, v, x);
        assert !Clash(t, uv, x) && !Clash(u, v, x);
      }
      var tu := Join(t, u).value;
      JoinFails(tu, v);
      forall x
        ensures !Clash(tu, v, x)
      {
        JoinChild(t, u, x);
        JoinChild(u, v, x);
        assert !Clash(t, uv, x) && !Clash(u, v, x);
      }
    }
  }

  // ----- what the merged parts mean -----------------------------------------------------------------------

  ghost predicate DistinctNames(statics: seq<Static>) {
    forall i, j :: 0 <= i < j < |statics| ==> statics[i].name != statics[j].name
  }

  ghost predicate Valid(set_: PreSet) {
    && DistinctNames(set_.statics)
    && forall i | 0 <= i < |set_.statics| :: AttrValid(set_.statics[i].attr, |set_.froms|)
  }

  ghost predicate AttrValid(attr: PreAttr, froms: nat) {
    match attr
    case Expr(value) => WellFormed(value)
    case Nested(set_) => Valid(set_)
    case InheritName(_) => true
    case InheritFrom(from, _) => from < froms
  }

  ghost function AttrMeaning(attr: PreAttr, froms: seq<Source>): Option<Tree>
    requires AttrValid(attr, |froms|)
  {
    match attr
    case Expr(value) => ValueMeaning(value)
    case Nested(set_) => Meaning(set_)
    case InheritName(name) => Some(Inherited(None, name))
    case InheritFrom(from, name) => Some(Inherited(Some(froms[from]), name))
  }

  ghost function Meaning(set_: PreSet): (t: Option<Tree>)
    requires Valid(set_)
    ensures t.Some? ==> t.value.Set?
  {
    StaticsMeaning(set_.statics, set_.froms)
  }

  /** One name bound anew. */
  ghost function With(t: Option<Tree>, name: Name, u: Option<Tree>): Option<Tree>
    requires t.Some? ==> t.value.Set?
  {
    if t.None? || u.None? then None else Some(Set(t.value.children[name := u.value]))
  }

  /** Each name bound to what its attribute means. */
  ghost function StaticsMeaning(statics: seq<Static>, froms: seq<Source>): (t: Option<Tree>)
    requires forall i | 0 <= i < |statics| :: AttrValid(statics[i].attr, |froms|)
    ensures t.Some? ==> t.value.Set?
  {
    if statics == [] then Some(Set(map[]))
    else
      var n := |statics| - 1;
      With(StaticsMeaning(statics[..n], froms), statics[n].name, AttrMeaning(statics[n].attr, froms))
  }

  ghost function ResultMeaning(r: Result<PreSet, Failure>): Option<Tree>
    requires r.Ok? ==> Valid(r.value)
  {
    if r.Ok? then Meaning(r.value) else None
  }

  ghost function NamesOf(statics: seq<Static>): set<Name> {
    set s | s in statics :: s.name
  }

  lemma {:induction false} MeaningNames(statics: seq<Static>, froms: seq<Source>)
    requires forall i | 0 <= i < |statics| :: AttrValid(statics[i].attr, |froms|)
    ensures StaticsMeaning(statics, froms).Some? ==>
      StaticsMeaning(statics, froms).value.children.Keys == NamesOf(statics)
    decreases |statics|
  {
    if statics != [] {
      var n := |statics| - 1;
      MeaningNames(statics[..n], froms);
      assert statics == statics[..n] + [statics[n]];
    }
  }

  /** One more name, not there yet, is joined. */
  lemma AddedMeaning(set_: PreSet, s: Static)
    requires Valid(set_) && AttrValid(s.attr, |set_.froms|) && IndexOf(set_.statics, s.name) == |set_.statics|
    ensures var added := set_.(statics := set_.statics + [s]);
      Valid(added) && Meaning(added) == Both(Meaning(set_), Bind(s.name, AttrMeaning(s.attr, set_.froms)))
  {
    var added := set_.(statics := set_.statics + [s]);
    assert added.statics[..|set_.statics|] == set_.statics;
    MeaningNames(set_.statics, set_.froms);
    assert s.name !in NamesOf(set_.statics);
    AddedLast(Meaning(set_), s.name, AttrMeaning(s.attr, set_.froms));
  }

  lemma AddedLast(t: Option<Tree>, name: Name, u: Option<Tree>)
    requires t.Some? ==> t.value.Set? && name !in t.value.children
    ensures With(t, name, u) == Both(t, Bind(name, u))
  {
    var b := Bind(name, u);
    if t.Some? && b.Some? {
      JoinFails(t.value, b.value);
      assert Join(t.value, b.value).value.children == t.value.children[name := u.value];
    }
  }

  /** More of a name that is there joins with what is. */
  lemma {:induction false} ReplacedMeaning(statics: seq<Static>, froms: seq<Source>, i: nat, attr: PreAttr,
      more: Option<Tree>)
    requires DistinctNames(statics) && i < |statics| && AttrValid(attr, |froms|)
    requires forall j | 0 <= j < |statics| :: AttrValid(statics[j].attr, |froms|)
    requires AttrMeaning(attr, froms) == Both(AttrMeaning(statics[i].attr, froms), more)
    ensures var replaced := statics[i := Static(statics[i].name, attr)];
      (forall j | 0 <= j < |replaced| :: AttrValid(replaced[j].attr, |froms|)) &&
      StaticsMeaning(replaced, froms) == Both(StaticsMeaning(statics, froms), Bind(statics[i].name, more))
    decreases |statics|
  {
    var n, name := |statics| - 1, statics[i].name;
    var replaced := statics[i := Static(name, attr)];
    MeaningNames(statics[..n], froms);
    if i == n {
      assert replaced[..n] == statics[..n];
      assert name !in NamesOf(statics[..n]);
      ReplacedLast(StaticsMeaning(statics[..n], froms), name, AttrMeaning(statics[n].attr, froms), more);
    } else {
      assert replaced[..n] == statics[..n][i := Static(name, attr)];
      ReplacedMeaning(statics[..n], froms, i, attr, more);
      assert statics[..n][i] in statics[..n];
      ReplacedEarlier(StaticsMeaning(statics[..n], froms), name, more, statics[n].name,
        AttrMeaning(statics[n].attr, froms));
    }
  }

  lemma ReplacedLast(t: Option<Tree>, name: Name, old_: Option<Tree>, more: Option<Tree>)
    requires t.Some? ==> t.value.Set? && name !in t.value.children
    ensures With(t, name, Both(old_, more)) == Both(With(t, name, old_), Bind(name, more))
  {
    var a, b := With(t, name, old_), Bind(name, more);
    if a.Some? && b.Some? {
      JoinFails(a.value, b.value);
      if Join(old_.value, more.value).None? {
        assert Clash(a.value, b.value, name);
      } else {
        forall x
          ensures !Clash(a.value, b.value, x)
        {
        }
        assert Join(a.value, b.value).value.children == t.value.children[name := Join(old_.value, more.value).value];
      }
    }
  }

  lemma ReplacedEarlier(t: Option<Tree>, name: Name, more: Option<Tree>, last: Name, u: Option<Tree>)
    requires t.Some? ==> t.value.Set?
    requires name != last
    ensures With(Both(t, Bind(name, more)), last, u) == Both(With(t, last, u), Bind(name, more))
  {
    var a, b := With(t, last, u), Bind(name, more);
    if a.Some? && b.Some? {
      JoinFails(a.value, b.value);
      JoinFails(t.value, b.value);
      assert forall x :: Clash(a.value, b.value, x) <==> Clash(t.value, b.value, x);
      if Join(t.value, b.value).Some? {
        assert Join(a.value, b.value).value.children == Join(t.value, b.value).value.children[last := u.value];
      }
    }
  }

  lemma JoinEmpty(t: Option<Tree>)
    requires t.Some? ==> t.value.Set?
    ensures Both(t, Some(Set(map[]))) == t && Both(Some(Set(map[])), t) == t
  {
    if t.Some? {
      JoinFails(t.value, Set(map[]));
      assert Join(t.value, Set(map[])).value.children == t.value.children;
      JoinCommutes(t.value, Set(map[]));
    }
  }

  lemma BothAssociates(t: Option<Tree>, u: Option<Tree>, v: Option<Tree>)
    ensures Both(Both(t, u), v) == Both(t, Both(u, v))
  {
    if t.Some? && u.Some? && v.Some? {
      JoinAssociates(t.value, u.value, v.value);
    }
  }

  lemma BothCommutes(t: Option<Tree>, u: Option<Tree>)
    ensures Both(t, u) == Both(u, t)
  {
    if t.Some? && u.Some? {
      JoinCommutes(t.value, u.value);
    }
  }

  /** Nothing joins with what is no set. */
  lemma LeafJoinsNothing(t: Option<Tree>, u: Option<Tree>)
    requires t.None? || t.value.Leaf?
    ensures Both(t, u).None? && Both(u, t).None?
  {
  }

  lemma {:induction false} EntriesAreSets(entries: seq<Entry>)
    ensures EntriesMeaning(entries).Some? ==> EntriesMeaning(entries).value.Set?
  {
  }

  // ----- merging is joining -------------------------------------------------------------------------------

  lemma {:induction false} NewMeaning(rest: seq<Name>, value: Value)
    requires WellFormed(value)
    ensures match NewAttr(rest, value)
      case Ok(attr) => AttrValid(attr, 0) && AttrMeaning(attr, []) == Along(rest, ValueMeaning(value))
      case Err(_) => Along(rest, ValueMeaning(value)).None?
    decreases |rest| + ValueWeight(value), 1, 0
  {
    if rest != [] {
      InsertMeaning(EMPTY, rest, value);
      JoinEmpty(Along(rest, ValueMeaning(value)));
    }
  }

  lemma {:induction false} ExpandedMeaning(attr: PreAttr, name: Name, froms: seq<Source>)
    requires AttrValid(attr, |froms|)
    ensures match Expanded(attr, name)
      case Ok(set_) => Valid(set_) && Meaning(set_) == AttrMeaning(attr, froms)
      case Err(_) => AttrMeaning(attr, froms).None? || AttrMeaning(attr, froms).value.Leaf?
    decreases AttrWeight(attr), 3, 0
  {
    if attr.Expr? && attr.value.Plain? {
      MergesMeaning(EMPTY, attr.value.entries);
      EntriesAreSets(attr.value.entries);
      JoinEmpty(EntriesMeaning(attr.value.entries));
    }
  }

  /** Inserting a definition joins what it means. */
  lemma {:induction false} InsertMeaning(set_: PreSet, path: seq<Name>, value: Value)
    requires Valid(set_) && path != [] && WellFormed(value)
    ensures var r := InsertPath(set_, path, value);
      (r.Ok? ==> Valid(r.value) && r.value.froms == set_.froms) &&
      ResultMeaning(r) == Both(Meaning(set_), Along(path, ValueMeaning(value)))
    decreases Weight(set_.statics) + |path| + ValueWeight(value), 0, 0
  {
    var name, rest := path[0], path[1..];
    var more := Along(rest, ValueMeaning(value));
    var i := IndexOf(set_.statics, name);
    if i == |set_.statics| {
      NewMeaning(rest, value);
      var attr := NewAttr(rest, value);
      if attr.Ok? {
        NewAnywhere(attr.value, set_.froms);
        AddedMeaning(set_, Static(name, attr.value));
      }
    } else {
      WeightUpdate(set_.statics, i, Static(name, Nested(EMPTY)));
      var there := set_.statics[i].attr;
      ExpandedMeaning(there, name, set_.froms);
      var nested := Expanded(there, name);
      var joined := Both(AttrMeaning(there, set_.froms), more);
      if nested.Err? {
        LeafJoinsNothing(AttrMeaning(there, set_.froms), more);
        NothingReplaces(set_, i, more);
      } else {
        MergeValueMeaning(nested.value, name, rest, value);
        var merged := MergeValue(nested.value, name, rest, value);
        if merged.Err? {
          NothingReplaces(set_, i, more);
        } else {
          ReplacedMeaning(set_.statics, set_.froms, i, Nested(merged.value), more);
        }
      }
    }
  }

  /** What is new in no set with sources is the same in any. */
  lemma NewAnywhere(attr: PreAttr, froms: seq<Source>)
    requires AttrValid(attr, 0)
    ensures AttrValid(attr, |froms|) && AttrMeaning(attr, froms) == AttrMeaning(attr, [])
  {
  }

  lemma {:induction false} StaticsHave(statics: seq<Static>, froms: seq<Source>, i: nat)
    requires DistinctNames(statics) && i < |statics|
    requires forall j | 0 <= j < |statics| :: AttrValid(statics[j].attr, |froms|)
    ensures var t := StaticsMeaning(statics, froms);
      t.Some? ==>
        statics[i].name in t.value.children &&
        Some(t.value.children[statics[i].name]) == AttrMeaning(statics[i].attr, froms)
    decreases |statics|
  {
    var n := |statics| - 1;
    if i < n {
      StaticsHave(statics[..n], froms, i);
    }
  }

  /** Where what is there joins with nothing more, the whole does not either. */
  lemma NothingReplaces(set_: PreSet, i: nat, more: Option<Tree>)
    requires Valid(set_) && i < |set_.statics| && Both(AttrMeaning(set_.statics[i].attr, set_.froms), more).None?
    ensures Both(Meaning(set_), Bind(set_.statics[i].name, more)).None?
  {
    StaticsHave(set_.statics, set_.froms, i);
    var t, u, name := Meaning(set_), Bind(set_.statics[i].name, more), set_.statics[i].name;
    if t.Some? && u.Some? {
      JoinFails(t.value, u.value);
      assert Clash(t.value, u.value, name);
    }
  }

  lemma {:induction false} MergeValueMeaning(nested: PreSet, name: Name, rest: seq<Name>, value: Value)
    requires Valid(nested) && WellFormed(value)
    ensures var r := MergeValue(nested, name, rest, value);
      (r.Ok? ==> Valid(r.value)) && ResultMeaning(r) == Both(Meaning(nested), Along(rest, ValueMeaning(value)))
    decreases Weight(nested.statics) + |rest| + ValueWeight(value), 1, 0
  {
    if rest != [] {
      InsertMeaning(nested, rest, value);
    } else if value.Plain? {
      MergesMeaning(nested, value.entries);
    } else {
      LeafJoinsNothing(ValueMeaning(value), Meaning(nested));
    }
  }

  ghost predicate Gives(attr: Name -> PreAttr, from: Option<Source>, froms: seq<Source>) {
    forall x :: attr(x) == if from.None? then InheritName(x) else InheritFrom(if froms == [] then 0 else |froms| - 1, x)
  }

  lemma {:induction false} InheritMerges(set_: PreSet, attr: Name -> PreAttr, from: Option<Source>, names: seq<Name>)
    requires Valid(set_) && Gives(attr, from, set_.froms)
    requires from.Some? ==> set_.froms != [] && set_.froms[|set_.froms| - 1] == from.value
    ensures var r := MergeInherit(set_, attr, names);
      (r.Ok? ==> Valid(r.value)) && ResultMeaning(r) == Both(Meaning(set_), InheritMeaning(from, names))
    decreases |names|
  {
    if names == [] {
      JoinEmpty(Meaning(set_));
    } else {
      var name, t := names[0], Some(Inherited(from, names[0]));
      var i := IndexOf(set_.statics, name);
      BothAssociates(Meaning(set_), Bind(name, t), InheritMeaning(from, names[1..]));
      if i < |set_.statics| {
        LeafJoinsNothing(t, AttrMeaning(set_.statics[i].attr, set_.froms));
        NothingReplaces(set_, i, t);
      } else {
        var s := Static(name, attr(name));
        AddedMeaning(set_, s);
        InheritMerges(set_.(statics := set_.statics + [s]), attr, from, names[1..]);
      }
    }
  }

  /** A source more changes nothing. */
  lemma {:induction false} SourceAdded(statics: seq<Static>, froms: seq<Source>, source: Source)
    requires forall j | 0 <= j < |statics| :: AttrValid(statics[j].attr, |froms|)
    ensures forall j | 0 <= j < |statics| :: AttrValid(statics[j].attr, |froms| + 1)
    ensures StaticsMeaning(statics, froms + [source]) == StaticsMeaning(statics, froms)
    decreases |statics|
  {
    if statics != [] {
      SourceAdded(statics[..|statics| - 1], froms, source);
    }
  }

  lemma {:induction false} MergeMeaning(set_: PreSet, e: Entry)
    requires Valid(set_) && EntryFormed(e)
    ensures var r := MergeEntry(set_, e);
      (r.Ok? ==> Valid(r.value)) && ResultMeaning(r) == Both(Meaning(set_), EntryMeaning(e))
    decreases Weight(set_.statics) + EntryWeight(e), 1, 0
  {
    match e
    case Define(path, value) => InsertMeaning(set_, path, value);
    case Inherit(None, names) => InheritMerges(set_, x => InheritName(x), None, names);
    case Inherit(Some(source), names) =>
      var from := |set_.froms|;
      SourceAdded(set_.statics, set_.froms, source);
      InheritMerges(set_.(froms := set_.froms + [source]), x => InheritFrom(from, x), Some(source), names);
  }

  /** Merging definitions into a set joins what they mean together: when a name meets anything but
    * sets on both sides there is no meaning, and merging fails, or compiling does once the literal
    * with the clash inside is taken apart.
    */
  lemma {:induction false} MergesMeaning(set_: PreSet, entries: seq<Entry>)
    requires Valid(set_) && AllFormed(entries)
    ensures var r := MergeEntries(set_, entries);
      (r.Ok? ==> Valid(r.value)) && ResultMeaning(r) == Both(Meaning(set_), EntriesMeaning(entries))
    decreases Weight(set_.statics) + EntriesWeight(entries), 2, |entries|
  {
    if entries == [] {
      JoinEmpty(Meaning(set_));
    } else {
      MergeMeaning(set_, entries[0]);
      BothAssociates(Meaning(set_), EntryMeaning(entries[0]), EntriesMeaning(entries[1..]));
      var next := MergeEntry(set_, entries[0]);
      if next.Ok? {
        MergesMeaning(next.value, entries[1..]);
      }
    }
  }

  // ----- in any order ---------------------------------------------------------------------------------------

  lemma {:induction false} TakenOut(entries: seq<Entry>, i: nat)
    requires i < |entries|
    ensures EntriesMeaning(entries) == Both(EntryMeaning(entries[i]), EntriesMeaning(entries[..i] + entries[i + 1..]))
    decreases |entries|
  {
    if i == 0 {
      assert entries[..0] + entries[1..] == entries[1..];
    } else {
      var rest := entries[1..];
      TakenOut(rest, i - 1);
      var without := entries[..i] + entries[i + 1..];
      assert without[0] == entries[0] && without[1..] == rest[..i - 1] + rest[i..];
      var first, it, others := EntryMeaning(entries[0]), EntryMeaning(entries[i]), EntriesMeaning(without[1..]);
      BothAssociates(first, it, others);
      BothCommutes(first, it);
      BothAssociates(it, first, others);
    }
  }

  /** Definitions in another order mean the same. */
  lemma {:induction false} OrderIsImmaterial(entries: seq<Entry>, others: seq<Entry>)
    requires multiset(entries) == multiset(others)
    ensures EntriesMeaning(entries) == EntriesMeaning(others)
    decreases |entries|
  {
    if entries == [] {
      assert |multiset(others)| == 0;
    } else {
      assert entries == [entries[0]] + entries[1..];
      assert entries[0] in multiset(others);
      var i :| 0 <= i < |others| && others[i] == entries[0];
      var rest := others[..i] + others[i + 1..];
      assert others == others[..i] + [others[i]] + others[i + 1..];
      assert multiset(entries[1..]) == multiset(entries) - multiset{entries[0]} == multiset(rest);
      OrderIsImmaterial(entries[1..], rest);
      TakenOut(others, i);
    }
  }

  /** So a set literal is merged into the same meaning in every order, or into none in any. */
  lemma MergedInAnyOrder(entries: seq<Entry>, others: seq<Entry>)
    requires AllFormed(entries) && multiset(entries) == multiset(others)
    ensures AllFormed(others) && Valid(EMPTY)
    ensures var r, q := MergeEntries(EMPTY, entries), MergeEntries(EMPTY, others);
      (r.Ok? ==> Valid(r.value)) && (q.Ok? ==> Valid(q.value)) &&
        ResultMeaning(r) == ResultMeaning(q) == EntriesMeaning(entries)
  {
    forall j | 0 <= j < |others|
      ensures EntryFormed(others[j])
    {
      assert others[j] in multiset(entries);
    }
    MergesMeaning(EMPTY, entries);
    MergesMeaning(EMPTY, others);
    OrderIsImmaterial(entries, others);
    EntriesAreSets(entries);
    JoinEmpty(EntriesMeaning(entries));
  }
}
