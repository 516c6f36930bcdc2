/** Attribute sets at run time: entries in an array in order of their symbol's number, each symbol
  * once. What such an array stands for is a map.
  */
module AttrArrays {
  import opened Wrappers

  type Sym = nat

  datatype Entry<V> = Entry(name: Sym, value: V)

  ghost predicate Ascending<V>(entries: seq<Entry<V>>) {
    forall i, j :: 0 <= i < j < |entries| ==> entries[i].name < entries[j].name
  }

  ghost predicate Sorted<V>(entries: seq<Entry<V>>) {
    forall i, j :: 0 <= i < j < |entries| ==> entries[i].name <= entries[j].name
  }

  /** The last entry of a name wins. */
  ghost function MapOf<V>(entries: seq<Entry<V>>): map<Sym, V> {
    if entries == [] then map[]
    else MapOf(entries[..|entries| - 1])[entries[|entries| - 1].name := entries[|entries| - 1].value]
  }

  lemma {:induction false} MapOfConcat<V>(a: seq<Entry<V>>, b: seq<Entry<V>>)
    ensures MapOf(a + b) == MapOf(a) + MapOf(b)
    decreases |b|
  {
    if b == [] {
      assert a + b == a;
    } else {
      assert (a + b)[..|a + b| - 1] == a + b[..|b| - 1];
      MapOfConcat(a, b[..|b| - 1]);
    }
  }

  lemma {:induction false} MapOfNames<V>(entries: seq<Entry<V>>, name: Sym)
    ensures name in MapOf(entries) <==> exists i :: 0 <= i < |entries| && entries[i].name == name
    decreases |entries|
  {
    if entries != [] {
      var n := |entries| - 1;
      MapOfNames(entries[..n], name);
      if name in MapOf(entries[..n]) {
        var i :| 0 <= i < n && entries[..n][i].name == name;
        assert entries[i].name == name;
      }
      if i :| 0 <= i < |entries| && entries[i].name == name {
        assert i < n ==> entries[..n][i].name == name;
      }
    }
  }

  lemma {:induction false} MapOfAscending<V>(entries: seq<Entry<V>>, i: nat)
    requires Ascending(entries) && i < |entries|
    ensures entries[i].name in MapOf(entries) && MapOf(entries)[entries[i].name] == entries[i].value
    decreases |entries|
  {
    if i < |entries| - 1 {
      MapOfAscending(entries[..|entries| - 1], i);
    }
  }

  /** Entries of other names than those after it can move past them. */
  lemma Placed<V>(a: seq<Entry<V>>, e: Entry<V>, b: seq<Entry<V>>)
    requires forall i :: 0 <= i < |b| ==> b[i].name != e.name
    ensures MapOf(a + [e] + b) == MapOf(a + b)[e.name := e.value]
  {
    MapOfConcat(a + [e], b);
    Pushed(a, e);
    MapOfConcat(a, b);
    MapOfNames(b, e.name);
  }

  /** Where in a sorted array an entry of a name goes, after those of its own. */
  method InsertionPoint<V>(sorted: seq<Entry<V>>, name: Sym) returns (at: nat)
    ensures IsInsertionPoint(sorted, name, at)
  {
    at := |sorted|;
    while at > 0 && sorted[at - 1].name > name
      invariant at <= |sorted| && (at < |sorted| ==> sorted[at].name > name)
    {
      at := at - 1;
    }
  }

  ghost predicate IsInsertionPoint<V>(sorted: seq<Entry<V>>, name: Sym, at: nat) {
    at <= |sorted| && (at > 0 ==> sorted[at - 1].name <= name) && (at < |sorted| ==> sorted[at].name > name)
  }

  /** A stable sort. */
  method SortByName<V>(entries: seq<Entry<V>>) returns (sorted: seq<Entry<V>>)
    ensures Sorted(sorted) && MapOf(sorted) == MapOf(entries) && |sorted| == |entries|
  {
    sorted := [];
    for n := 0 to |entries|
      invariant Sorted(sorted) && |sorted| == n && MapOf(sorted) == MapOf(entries[..n])
    {
      var e := entries[n];
      var at := InsertionPoint(sorted, e.name);
      Inserted(sorted, at, e);
      assert entries[..n + 1] == entries[..n] + [e];
      Pushed(entries[..n], e);
      sorted := sorted[..at] + [e] + sorted[at..];
    }
    assert entries[..|entries|] == entries;
  }

  lemma Inserted<V>(sorted: seq<Entry<V>>, at: nat, e: Entry<V>)
    requires Sorted(sorted) && IsInsertionPoint(sorted, e.name, at)
    ensures Sorted(sorted[..at] + [e] + sorted[at..])
    ensures MapOf(sorted[..at] + [e] + sorted[at..]) == MapOf(sorted)[e.name := e.value]
  {
    InsertedSorted(sorted, at, e);
    InsertedLast(sorted, at, e);
  }

  lemma InsertedLast<V>(sorted: seq<Entry<V>>, at: nat, e: Entry<V>)
    requires Sorted(sorted) && IsInsertionPoint(sorted, e.name, at)
    ensures MapOf(sorted[..at] + [e] + sorted[at..]) == MapOf(sorted)[e.name := e.value]
  {
    RestAbove(sorted, at, e.name);
    assert sorted[..at] + sorted[at..] == sorted;
    Placed(sorted[..at], e, sorted[at..]);
  }

  lemma RestAbove<V>(sorted: seq<Entry<V>>, at: nat, name: Sym)
    requires Sorted(sorted) && at <= |sorted| && (at < |sorted| ==> sorted[at].name > name)
    ensures forall k :: 0 <= k < |sorted[at..]| ==> sorted[at..][k].name > name
  {
    forall k | at <= k < |sorted|
      ensures sorted[k].name > name
    {
      assert at < k ==> sorted[at].name <= sorted[k].name;
    }
  }

  lemma InsertedSorted<V>(sorted: seq<Entry<V>>, at: nat, e: Entry<V>)
    requires Sorted(sorted) && IsInsertionPoint(sorted, e.name, at)
    ensures Sorted(sorted[..at] + [e] + sorted[at..])
  {
    var all := sorted[..at] + [e] + sorted[at..];
    assert forall k :: 0 <= k < |all| ==> all[k] == if k < at then sorted[k] else if k == at then e else sorted[k - 1];
    forall i, j | 0 <= i < j < |all|
      ensures all[i].name <= all[j].name
    {
      if j == at && i < at - 1 {
        assert sorted[i].name <= sorted[at - 1].name;
      } else if i == at && j > at + 1 {
        assert sorted[at].name <= sorted[j - 1].name;
      }
    }
  }

  lemma Pushed<V>(entries: seq<Entry<V>>, e: Entry<V>)
    ensures MapOf(entries + [e]) == MapOf(entries)[e.name := e.value]
  {
    assert (entries + [e])[..|entries|] == entries;
  }

  lemma PushedAscending<V>(entries: seq<Entry<V>>, e: Entry<V>)
    requires Ascending(entries) && forall k :: 0 <= k < |entries| ==> entries[k].name < e.name
    ensures Ascending(entries + [e])
  {
  }

  /** Entries in any order; later duplicates win. */
  method FromEntries<V>(entries: seq<Entry<V>>) returns (out: seq<Entry<V>>)
    ensures Ascending(out) && MapOf(out) == MapOf(entries)
  {
    var sorted := SortByName(entries);
    out := [];
    for n := 0 to |sorted|
      invariant Ascending(out) && MapOf(out) == MapOf(sorted[..n]) && (out == [] <==> n == 0)
      invariant n > 0 ==> out[|out| - 1].name == sorted[n - 1].name
    {
      var e := sorted[n];
      assert sorted[..n + 1] == sorted[..n] + [e];
      Pushed(sorted[..n], e);
      if out != [] && out[|out| - 1].name == e.name {
        LastReplaced(out, e);
        out := out[|out| - 1 := e];
      } else {
        assert n > 0 ==> sorted[n - 1].name <= e.name;
        LastBelow(out, e);
        Pushed(out, e);
        out := out + [e];
      }
    }
    assert sorted[..|sorted|] == sorted;
  }

  lemma LastBelow<V>(out: seq<Entry<V>>, e: Entry<V>)
    requires Ascending(out) && (out != [] ==> out[|out| - 1].name < e.name)
    ensures Ascending(out + [e])
  {
    forall k | 0 <= k < |out|
      ensures out[k].name < e.name
    {
      assert k < |out| - 1 ==> out[k].name < out[|out| - 1].name;
    }
    PushedAscending(out, e);
  }

  lemma LastReplaced<V>(out: seq<Entry<V>>, e: Entry<V>)
    requires out != [] && out[|out| - 1].name == e.name
    ensures Ascending(out) ==> Ascending(out[|out| - 1 := e])
    ensures MapOf(out[|out| - 1 := e]) == MapOf(out)[e.name := e.value]
  {
    assert out[|out| - 1 := e][..|out| - 1] == out[..|out| - 1];
  }

  ghost predicate Below<V>(xs: seq<Entry<V>>, ys: seq<Entry<V>>) {
    forall k, m :: 0 <= k < |xs| && 0 <= m < |ys| ==> xs[k].name < ys[m].name
  }

  /** The entries merged so far, and those left of either array, all above them. */
  ghost predicate Merged<V>(a: map<Sym, V>, b: map<Sym, V>, out: seq<Entry<V>>, lefts: seq<Entry<V>>,
      rights: seq<Entry<V>>)
  {
    && Ascending(out) && MapOf(out) == a + b
    && Ascending(lefts) && Ascending(rights) && Below(out, lefts) && Below(out, rights)
  }

  /** `a // b`: what either has, and what `b` has where both do. */
  method Update<V>(a: seq<Entry<V>>, b: seq<Entry<V>>) returns (out: seq<Entry<V>>)
    requires Ascending(a) && Ascending(b)
    ensures Ascending(out) && MapOf(out) == MapOf(a) + MapOf(b)
  {
    if a == [] {
      return b;
    }
    if b == [] {
      return a;
    }
    out := [];
    var i, j := 0, 0;
    while i < |a| && j < |b|
      invariant i <= |a| && j <= |b|
      invariant Merged(MapOf(a[..i]), MapOf(b[..j]), out, a[i..], b[j..])
      decreases |a| + |b| - i - j
    {
      Advanced(a, i);
      Advanced(b, j);
      if a[i].name < b[j].name {
        TakeLeft(MapOf(a[..i]), MapOf(b[..j]), out, a[i..], b[j..]);
        out := out + [a[i]];
        i := i + 1;
      } else if a[i].name > b[j].name {
        TakeRight(MapOf(a[..i]), MapOf(b[..j]), out, a[i..], b[j..]);
        out := out + [b[j]];
        j := j + 1;
      } else {
        TakeBoth(MapOf(a[..i]), MapOf(b[..j]), out, a[i..], b[j..]);
        out := out + [b[j]];
        i := i + 1;
        j := j + 1;
      }
    }
    Divided(a, i);
    Divided(b, j);
    Finished(MapOf(a[..i]), MapOf(b[..j]), out, a[i..], b[j..]);
    out := out + a[i..] + b[j..];
  }

  lemma Advanced<V>(entries: seq<Entry<V>>, i: nat)
    requires i < |entries|
    ensures entries[i..] != [] && entries[i..][0] == entries[i] && entries[i..][1..] == entries[i + 1..]
    ensures MapOf(entries[..i + 1]) == MapOf(entries[..i])[entries[i].name := entries[i].value]
  {
    assert entries[..i + 1] == entries[..i] + [entries[i]];
    Pushed(entries[..i], entries[i]);
  }

  lemma Divided<V>(entries: seq<Entry<V>>, i: nat)
    requires i <= |entries|
    ensures MapOf(entries) == MapOf(entries[..i]) + MapOf(entries[i..])
  {
    assert entries == entries[..i] + entries[i..];
    MapOfConcat(entries[..i], entries[i..]);
  }

  /** An entry above all that is merged, and below all that stays left, goes next. */
  lemma Next<V>(a: map<Sym, V>, b: map<Sym, V>, out: seq<Entry<V>>, e: Entry<V>, lefts: seq<Entry<V>>,
      rights: seq<Entry<V>>)
    requires Merged(a, b, out, lefts, rights) && Below(out, [e]) && Below([e], lefts) && Below([e], rights)
    ensures Ascending(out + [e]) && MapOf(out + [e]) == (a + b)[e.name := e.value]
    ensures Below(out + [e], lefts) && Below(out + [e], rights) && e.name !in a && e.name !in b
  {
    Pushed(out, e);
    assert forall k :: 0 <= k < |out| ==> out[k].name < [e][0].name;
    PushedAscending(out, e);
    PushedBelow(out, e, lefts);
    PushedBelow(out, e, rights);
    MapOfNames(out, e.name);
  }

  lemma PushedBelow<V>(out: seq<Entry<V>>, e: Entry<V>, rest: seq<Entry<V>>)
    requires Below(out, rest) && Below([e], rest)
    ensures Below(out + [e], rest)
  {
    forall m | 0 <= m < |rest|
      ensures e.name < rest[m].name
    {
      assert [e][0].name < rest[m].name;
    }
  }

  /** The first of an ascending array is below the rest, and below what something it is below is. */
  lemma FirstBelow<V>(rest: seq<Entry<V>>, e: Entry<V>)
    requires Ascending(rest) && rest != [] && e.name <= rest[0].name
    ensures Ascending(rest[1..]) && Below([e], rest[1..]) && (e.name < rest[0].name ==> Below([e], rest))
  {
    forall m | 0 < m < |rest|
      ensures e.name < rest[m].name
    {
      assert rest[0].name < rest[m].name;
    }
  }

  lemma RestBelow<V>(out: seq<Entry<V>>, rest: seq<Entry<V>>)
    requires Below(out, rest) && rest != []
    ensures Below(out, rest[1..]) && Below(out, [rest[0]])
  {
  }

  lemma TakeLeft<V>(a: map<Sym, V>, b: map<Sym, V>, out: seq<Entry<V>>, lefts: seq<Entry<V>>, rights: seq<Entry<V>>)
    requires Merged(a, b, out, lefts, rights) && lefts != [] && rights != [] && lefts[0].name < rights[0].name
    ensures Merged(a[lefts[0].name := lefts[0].value], b, out + [lefts[0]], lefts[1..], rights)
  {
    var e := lefts[0];
    FirstBelow(lefts, e);
    FirstBelow(rights, e);
    RestBelow(out, lefts);
    Next(a, b, out, e, lefts[1..], rights);
    assert (a + b)[e.name := e.value] == a[e.name := e.value] + b;
  }

  lemma TakeRight<V>(a: map<Sym, V>, b: map<Sym, V>, out: seq<Entry<V>>, lefts: seq<Entry<V>>, rights: seq<Entry<V>>)
    requires Merged(a, b, out, lefts, rights) && lefts != [] && rights != [] && rights[0].name < lefts[0].name
    ensures Merged(a, b[rights[0].name := rights[0].value], out + [rights[0]], lefts, rights[1..])
  {
    var e := rights[0];
    FirstBelow(lefts, e);
    FirstBelow(rights, e);
    RestBelow(out, rights);
    Next(a, b, out, e, lefts, rights[1..]);
    assert (a + b)[e.name := e.value] == a + b[e.name := e.value];
  }

  lemma TakeBoth<V>(a: map<Sym, V>, b: map<Sym, V>, out: seq<Entry<V>>, lefts: seq<Entry<V>>, rights: seq<Entry<V>>)
    requires Merged(a, b, out, lefts, rights) && lefts != [] && rights != [] && rights[0].name == lefts[0].name
    ensures Merged(a[lefts[0].name := lefts[0].value], b[rights[0].name := rights[0].value], out + [rights[0]],
      lefts[1..], rights[1..])
  {
    var l, e := lefts[0], rights[0];
    FirstBelow(lefts, e);
    FirstBelow(rights, e);
    RestBelow(out, lefts);
    RestBelow(out, rights);
    Next(a, b, out, e, lefts[1..], rights[1..]);
    assert (a + b)[e.name := e.value] == a[l.name := l.value] + b[e.name := e.value];
  }

  lemma Joined<V>(out: seq<Entry<V>>, rest: seq<Entry<V>>)
    requires Ascending(out) && Ascending(rest) && Below(out, rest)
    ensures Ascending(out + rest) && MapOf(out + rest) == MapOf(out) + MapOf(rest)
    ensures MapOf(out).Keys !! MapOf(rest).Keys
  {
    MapOfConcat(out, rest);
    forall name | name in MapOf(out) && name in MapOf(rest)
      ensures false
    {
      MapOfNames(out, name);
      MapOfNames(rest, name);
    }
  }

  lemma Finished<V>(a: map<Sym, V>, b: map<Sym, V>, out: seq<Entry<V>>, lefts: seq<Entry<V>>, rights: seq<Entry<V>>)
    requires Merged(a, b, out, lefts, rights) && (lefts == [] || rights == [])
    ensures Ascending(out + lefts + rights) && MapOf(out + lefts + rights) == (a + MapOf(lefts)) + (b + MapOf(rights))
  {
    SameEmpty(lefts);
    SameEmpty(rights);
    if lefts == [] {
      assert out + lefts + rights == out + rights;
      Joined(out, rights);
    } else {
      assert out + lefts + rights == out + lefts;
      Joined(out, lefts);
    }
    Regrouped(a, b, MapOf(lefts), MapOf(rights));
  }

  lemma Regrouped<V>(a: map<Sym, V>, b: map<Sym, V>, c: map<Sym, V>, d: map<Sym, V>)
    ensures c == map[] ==> (a + b) + d == (a + c) + (b + d)
    ensures d == map[] && (a + b).Keys !! c.Keys ==> (a + b) + c == (a + c) + (b + d)
  {
  }

  /** A binary search. */
  method Get<V>(entries: seq<Entry<V>>, name: Sym) returns (r: Option<V>)
    requires Ascending(entries)
    ensures r == if name in MapOf(entries) then Some(MapOf(entries)[name]) else None
  {
    MapOfNames(entries, name);
    var low, high := 0, |entries|;
    while low < high
      invariant 0 <= low <= high <= |entries|
      invariant forall i :: 0 <= i < low ==> entries[i].name < name
      invariant forall i :: high <= i < |entries| ==> entries[i].name > name
    {
      var middle := (low + high) / 2;
      if entries[middle].name == name {
        MapOfAscending(entries, middle);
        return Some(entries[middle].value);
      } else if entries[middle].name < name {
        low := middle + 1;
      } else {
        high := middle;
      }
    }
    return None;
  }

  /** Ascending arrays of the same map are the same array. */
  lemma {:induction false} ArrayUnique<V>(a: seq<Entry<V>>, b: seq<Entry<V>>)
    requires Ascending(a) && Ascending(b) && MapOf(a) == MapOf(b)
    ensures a == b
    decreases |a|
  {
    if a == [] || b == [] {
      SameEmpty(a);
      SameEmpty(b);
    } else {
      LastSame(a, b);
      ArrayUnique(a[..|a| - 1], b[..|b| - 1]);
      assert a == a[..|a| - 1] + [a[|a| - 1]] && b == b[..|b| - 1] + [b[|b| - 1]];
    }
  }

  lemma LastSame<V>(a: seq<Entry<V>>, b: seq<Entry<V>>)
    requires Ascending(a) && Ascending(b) && MapOf(a) == MapOf(b) && a != [] && b != []
    ensures a[|a| - 1] == b[|b| - 1] && MapOf(a[..|a| - 1]) == MapOf(b[..|b| - 1])
  {
    var m, n := |a| - 1, |b| - 1;
    LastIsGreatest(a, b[n].name);
    LastIsGreatest(b, a[m].name);
    MapOfNames(b, b[n].name);
    MapOfNames(a, a[m].name);
    MapOfAscending(a, m);
    MapOfAscending(b, n);
    WithoutLast(a);
    WithoutLast(b);
  }

  lemma LastIsGreatest<V>(a: seq<Entry<V>>, name: Sym)
    requires Ascending(a) && a != [] && name in MapOf(a)
    ensures name <= a[|a| - 1].name
  {
    MapOfNames(a, name);
    var i :| 0 <= i < |a| && a[i].name == name;
    assert i < |a| - 1 ==> a[i].name < a[|a| - 1].name;
  }

  lemma WithoutLast<V>(a: seq<Entry<V>>)
    requires Ascending(a) && a != []
    ensures MapOf(a[..|a| - 1]) == MapOf(a) - {a[|a| - 1].name}
  {
    NotBefore(a);
  }

  lemma SameEmpty<V>(a: seq<Entry<V>>)
    ensures MapOf(a) == map[] <==> a == []
  {
    if a != [] {
      MapOfNames(a, a[|a| - 1].name);
    }
  }

  lemma NotBefore<V>(a: seq<Entry<V>>)
    requires a != [] && Ascending(a)
    ensures a[|a| - 1].name !in MapOf(a[..|a| - 1])
  {
    MapOfNames(a[..|a| - 1], a[|a| - 1].name);
  }
}
