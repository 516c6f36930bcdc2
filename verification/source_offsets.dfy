/** The bytes inserted into a source before it is parsed, and the way back from offsets in the
  * result to offsets in the source.
  */
module SourceOffsets {
  // ----- sorting --------------------------------------------------------------------------------------

  predicate SortedBy<T>(xs: seq<T>, key: T -> int) {
    forall i, j :: 0 <= i < j < |xs| ==> key(xs[i]) <= key(xs[j])
  }

  function Itself(o: nat): int {
    o
  }

  method SortBy<T>(xs: seq<T>, key: T -> int) returns (ys: seq<T>)
    ensures SortedBy(ys, key) && multiset(ys) == multiset(xs)
  {
    ys := [];
    for n := 0 to |xs|
      invariant SortedBy(ys, key) && multiset(ys) == multiset(xs[..n])
    {
      var at := |ys|;
      while at > 0 && key(ys[at - 1]) > key(xs[n])
        invariant 0 <= at <= |ys| && (at < |ys| ==> key(ys[at]) > key(xs[n]))
      {
        at := at - 1;
      }
      assert xs[..n + 1] == xs[..n] + [xs[n]];
      Placed(ys, at, xs[n], key);
      PlacedMembers(ys, at, xs[n]);
      ys := ys[..at] + [xs[n]] + ys[at..];
    }
    assert xs[..|xs|] == xs;
  }

  lemma Placed<T>(ys: seq<T>, at: nat, x: T, key: T -> int)
    requires SortedBy(ys, key) && at <= |ys|
    requires (at > 0 ==> key(ys[at - 1]) <= key(x)) && (at < |ys| ==> key(x) < key(ys[at]))
    ensures SortedBy(ys[..at] + [x] + ys[at..], key)
  {
    forall i | 0 <= i < |ys|
      ensures if i < at then key(ys[i]) <= key(x) else key(x) <= key(ys[i])
    {
      if 0 < at && i < at - 1 {
        assert key(ys[i]) <= key(ys[at - 1]);
      } else if at < i {
        assert key(ys[at]) <= key(ys[i]);
      }
    }
    JoinedSorted(ys[..at], x, ys[at..], key);
  }

  lemma PlacedMembers<T>(ys: seq<T>, at: nat, x: T)
    requires at <= |ys|
    ensures multiset(ys[..at] + [x] + ys[at..]) == multiset(ys) + multiset{x}
  {
    assert ys == ys[..at] + ys[at..];
  }

  lemma JoinedSorted<T>(a: seq<T>, x: T, b: seq<T>, key: T -> int)
    requires SortedBy(a, key) && SortedBy(b, key)
    requires (forall y :: y in a ==> key(y) <= key(x)) && (forall y :: y in b ==> key(x) <= key(y))
    ensures SortedBy(a + [x] + b, key)
  {
    var all := a + [x] + b;
    forall i, j | 0 <= i < j < |all|
      ensures key(all[i]) <= key(all[j])
    {
      if j < |a| {
        assert all[i] == a[i] && all[j] == a[j];
      } else if i > |a| {
        assert all[i] == b[i - |a| - 1] && all[j] == b[j - |a| - 1];
      } else {
        assert i < |a| ==> all[i] in a;
        assert j > |a| ==> all[j] in b;
      }
    }
  }

  lemma SameMembers<T>(a: seq<T>, b: seq<T>)
    requires multiset(a) == multiset(b)
    ensures |a| == |b| && forall k :: k in a <==> k in b
  {
    assert |a| == |multiset(a)| && |b| == |multiset(b)|;
    forall k
      ensures k in a <==> k in b
    {
      assert k in a <==> k in multiset(a);
      assert k in b <==> k in multiset(b);
    }
  }

  // ----- erasing inserted bytes -------------------------------------------------------------------------

  /** The bytes of `text` whose offset, counted from `base`, is not among `offsets`. */
  function Erase(text: string, offsets: seq<nat>, base: nat): string {
    if text == "" then "" else (if base in offsets then "" else [text[0]]) + Erase(text[1..], offsets, base + 1)
  }

  lemma {:induction false} EraseConcat(a: string, b: string, offsets: seq<nat>, base: nat)
    ensures Erase(a + b, offsets, base) == Erase(a, offsets, base) + Erase(b, offsets, base + |a|)
    decreases |a|
  {
    if a == "" {
      assert a + b == b;
    } else {
      assert (a + b)[0] == a[0] && (a + b)[1..] == a[1..] + b;
      EraseConcat(a[1..], b, offsets, base + 1);
      Regroup(if base in offsets then "" else [a[0]], Erase(a[1..], offsets, base + 1), Erase(b, offsets, base + |a|));
    }
  }

  lemma Regroup(a: string, b: string, c: string)
    ensures a + (b + c) == (a + b) + c
  {
  }

  lemma {:induction false} EraseAlike(text: string, offsets: seq<nat>, base: nat, others: seq<nat>, other: nat)
    requires forall p: nat :: base <= p < base + |text| ==> (p in offsets <==> other + (p - base) in others)
    ensures Erase(text, offsets, base) == Erase(text, others, other)
    decreases |text|
  {
    if text != "" {
      assert base in offsets <==> other in others;
      EraseAlike(text[1..], offsets, base + 1, others, other + 1);
    }
  }

  // ----- the inserted offsets -----------------------------------------------------------------------------

  /** Each once, and inside a text of length `n`. */
  ghost predicate Recorded(offsets: seq<nat>, n: nat) {
    && (forall i :: 0 <= i < |offsets| ==> offsets[i] < n)
    && (forall i, j :: 0 <= i < j < |offsets| ==> offsets[i] != offsets[j])
  }

  function Bumped(o: nat, at: nat): nat {
    if o >= at then o + 1 else o
  }

  /** What inserting one byte at `at` makes of the offsets: those from `at` on move, and it joins. */
  method Bump(offsets: seq<nat>, at: nat) returns (moved: seq<nat>)
    ensures IsBumped(offsets, at, moved)
  {
    moved := offsets;
    for i := 0 to |offsets|
      invariant |moved| == |offsets|
      invariant forall j :: 0 <= j < |offsets| ==> moved[j] == if j < i then Bumped(offsets[j], at) else offsets[j]
    {
      if moved[i] >= at {
        moved := moved[i := moved[i] + 1];
      }
    }
    moved := moved + [at];
  }

  ghost predicate IsBumped(offsets: seq<nat>, at: nat, moved: seq<nat>) {
    && |moved| == |offsets| + 1 && moved[|offsets|] == at
    && forall i :: 0 <= i < |offsets| ==> moved[i] == Bumped(offsets[i], at)
  }

  lemma BumpedIn(offsets: seq<nat>, at: nat, moved: seq<nat>, k: nat)
    requires IsBumped(offsets, at, moved)
    ensures Bumped(k, at) in moved <==> k in offsets
  {
    if k in offsets {
      var i :| 0 <= i < |offsets| && offsets[i] == k;
      assert moved[i] == Bumped(k, at);
    }
    var there := Bumped(k, at);
    if there in moved {
      var i :| 0 <= i < |moved| && moved[i] == there;
      assert i < |offsets|;
    }
  }

  lemma ErasedBefore(a: string, offsets: seq<nat>, moved: seq<nat>)
    requires IsBumped(offsets, |a|, moved)
    ensures Erase(a, moved, 0) == Erase(a, offsets, 0)
  {
    forall p: nat | p < |a|
      ensures p in moved <==> p in offsets
    {
      BumpedIn(offsets, |a|, moved, p);
    }
    EraseAlike(a, moved, 0, offsets, 0);
  }

  lemma ErasedAfter(b: string, offsets: seq<nat>, at: nat, moved: seq<nat>)
    requires IsBumped(offsets, at, moved)
    ensures Erase(b, moved, at + 1) == Erase(b, offsets, at)
  {
    forall p: nat | at <= p
      ensures p + 1 in moved <==> p in offsets
    {
      BumpedIn(offsets, at, moved, p);
    }
    EraseAlike(b, offsets, at, moved, at + 1);
  }

  lemma EraseAround(a: string, byte: char, b: string, offsets: seq<nat>)
    requires |a| in offsets
    ensures Erase(a + [byte] + b, offsets, 0) == Erase(a, offsets, 0) + Erase(b, offsets, |a| + 1)
  {
    EraseConcat(a + [byte], b, offsets, 0);
    EraseConcat(a, [byte], offsets, 0);
    EraseOne(byte, offsets, |a|);
  }

  lemma EraseOne(byte: char, offsets: seq<nat>, base: nat)
    ensures Erase([byte], offsets, base) == if base in offsets then "" else [byte]
  {
    assert [byte][1..] == "";
  }

  /** One inserted byte leaves what erasing gives. */
  lemma InsertionErased(text: string, offsets: seq<nat>, at: nat, byte: char, moved: seq<nat>)
    requires at <= |text| && IsBumped(offsets, at, moved)
    ensures Erase(text[..at] + [byte] + text[at..], moved, 0) == Erase(text, offsets, 0)
  {
    var a, b := text[..at], text[at..];
    EraseAround(a, byte, b, moved);
    EraseConcat(a, b, offsets, 0);
    assert text == a + b;
    ErasedBefore(a, offsets, moved);
    ErasedAfter(b, offsets, at, moved);
  }

  // ----- parentheses ---------------------------------------------------------------------------------------

  datatype Paren = Paren(at: nat, close: bool)

  /** From the end of the text, and `(` before `)` at one offset. */
  function Order(p: Paren): int {
    if p.close then 1 - 2 * p.at else -2 * p.at
  }

  function Byte(p: Paren): char {
    if p.close then ')' else '('
  }

  function Repeated(c: char, n: nat): string {
    if n == 0 then "" else [c] + Repeated(c, n - 1)
  }

  function Gap(closes: nat, opens: nat, rest: string): string {
    Repeated(')', closes) + (Repeated('(', opens) + rest)
  }

  /** The text from `from` on with its parentheses: at each offset those that close, those that
    * open, and then the byte there.
    */
  ghost function Woven(text: string, parens: multiset<Paren>, from: nat): string
    requires from <= |text|
    decreases |text| - from
  {
    Gap(parens[Paren(from, true)], parens[Paren(from, false)], WovenOn(text, parens, from))
  }

  ghost function WovenOn(text: string, parens: multiset<Paren>, from: nat): string
    requires from <= |text|
    decreases |text| - from, 0
  {
    if from == |text| then "" else [text[from]] + Woven(text, parens, from + 1)
  }

  lemma {:induction false} WovenAlike(text: string, parens: multiset<Paren>, others: multiset<Paren>, from: nat)
    requires from <= |text| && forall p: Paren :: p.at >= from ==> parens[p] == others[p]
    ensures Woven(text, parens, from) == Woven(text, others, from)
    decreases |text| - from
  {
    assert parens[Paren(from, true)] == others[Paren(from, true)] &&
      parens[Paren(from, false)] == others[Paren(from, false)];
    if from < |text| {
      WovenAlike(text, parens, others, from + 1);
    }
  }

  /** Where there are no parentheses, the text is as it was. */
  lemma {:induction false} WovenBare(text: string, parens: multiset<Paren>, from: nat, to: nat)
    requires from <= to <= |text| && forall p: Paren :: from <= p.at < to ==> p !in parens
    ensures Woven(text, parens, from) == text[from..to] + Woven(text, parens, to)
    decreases |text| - from
  {
    if from < to {
      WovenBare(text, parens, from + 1, to);
      assert Paren(from, true) !in parens && Paren(from, false) !in parens;
      NoGap(WovenOn(text, parens, from));
      Prepended(text, from, to, Woven(text, parens, to));
    }
  }

  lemma NoGap(rest: string)
    ensures Gap(0, 0, rest) == rest
  {
  }

  lemma Prepended(text: string, from: nat, to: nat, tail: string)
    requires from < to <= |text|
    ensures [text[from]] + (text[from + 1..to] + tail) == text[from..to] + tail
  {
  }

  lemma GapMore(closes: nat, opens: nat, rest: string)
    ensures Gap(closes + 1, opens, rest) == [')'] + Gap(closes, opens, rest)
    ensures Gap(0, opens + 1, rest) == ['('] + Gap(0, opens, rest)
  {
    var after := Repeated('(', opens) + rest;
    assert ([')'] + Repeated(')', closes)) + after == [')'] + (Repeated(')', closes) + after);
    assert (['('] + Repeated('(', opens)) + rest == ['('] + after;
    assert Repeated(')', 0) == "" && "" + (['('] + after) == ['('] + ("" + after);
  }

  lemma OneMore(parens: multiset<Paren>, p: Paren, q: Paren)
    ensures (parens + multiset{p})[q] == parens[q] + if p == q then 1 else 0
  {
  }

  /** One more parenthesis at its offset, before all that is there already. */
  lemma WovenMore(text: string, parens: multiset<Paren>, p: Paren)
    requires p.at <= |text| && (!p.close ==> parens[Paren(p.at, true)] == 0)
    ensures Woven(text, parens + multiset{p}, p.at) == [Byte(p)] + Woven(text, parens, p.at)
  {
    WovenOnAlike(text, parens, p);
    OneMore(parens, p, Paren(p.at, true));
    OneMore(parens, p, Paren(p.at, false));
    GapMore(parens[Paren(p.at, true)], parens[Paren(p.at, false)], WovenOn(text, parens, p.at));
  }

  lemma WovenOnAlike(text: string, parens: multiset<Paren>, p: Paren)
    requires p.at <= |text|
    ensures WovenOn(text, parens + multiset{p}, p.at) == WovenOn(text, parens, p.at)
  {
    if p.at < |text| {
      forall q: Paren | q.at > p.at
        ensures (parens + multiset{p})[q] == parens[q]
      {
        OneMore(parens, p, q);
      }
      WovenAlike(text, parens + multiset{p}, parens, p.at + 1);
    }
  }

  lemma Divided(text: string, at: nat, bound: nat, tail: string)
    requires at <= bound <= |text|
    ensures (text[..bound] + tail)[..at] == text[..at] && (text[..bound] + tail)[at..] == text[at..bound] + tail
  {
  }

  /** Inserting the next parenthesis in order keeps the text woven with those inserted so far. */
  lemma NextParen(text: string, done: seq<Paren>, p: Paren, bound: nat, current: string)
    requires p.at <= bound <= |text| && SortedBy(done + [p], Order)
    requires forall q :: q in done ==> q.at >= bound
    requires current == text[..bound] + Woven(text, multiset(done), bound)
    ensures current[..p.at] + [Byte(p)] + current[p.at..] == text[..p.at] + Woven(text, multiset(done + [p]), p.at)
  {
    var parens := multiset(done);
    CurrentWoven(text, parens, p.at, bound, current);
    OpensBeforeCloses(done, p);
    WovenMore(text, parens, p);
    assert multiset(done + [p]) == parens + multiset{p};
    Joined(current[..p.at], Byte(p), current[p.at..]);
  }

  lemma Joined(a: string, byte: char, b: string)
    ensures a + [byte] + b == a + ([byte] + b)
  {
  }

  lemma CurrentWoven(text: string, parens: multiset<Paren>, at: nat, bound: nat, current: string)
    requires at <= bound <= |text| && current == text[..bound] + Woven(text, parens, bound)
    requires forall q :: q in parens ==> q.at >= bound
    ensures at <= |current| && current[..at] == text[..at] && current[at..] == Woven(text, parens, at)
  {
    WovenBare(text, parens, at, bound);
    Divided(text, at, bound, Woven(text, parens, bound));
  }

  lemma OpensBeforeCloses(done: seq<Paren>, p: Paren)
    requires SortedBy(done + [p], Order)
    ensures !p.close ==> multiset(done)[Paren(p.at, true)] == 0
  {
    forall i | 0 <= i < |done|
      ensures Order(done[i]) <= Order(p)
    {
      assert Order((done + [p])[i]) <= Order((done + [p])[|done|]);
    }
    assert !p.close ==> Paren(p.at, true) !in done;
  }

  lemma BumpedRecorded(offsets: seq<nat>, at: nat, moved: seq<nat>, n: nat)
    requires Recorded(offsets, n) && IsBumped(offsets, at, moved) && at <= n
    ensures Recorded(moved, n + 1)
  {
  }

  /** The first `n` parentheses are in, none before `bound`; the others go there or before. */
  ghost predicate Progress(text: string, inserted: seq<nat>, sorted: seq<Paren>, n: nat, bound: nat, result: string,
      offsets: seq<nat>)
  {
    && n <= |sorted| && bound <= |text|
    && (forall i :: 0 <= i < n ==> sorted[i].at >= bound) && (forall i :: n <= i < |sorted| ==> sorted[i].at <= bound)
    && result == text[..bound] + Woven(text, multiset(sorted[..n]), bound)
    && Erase(result, offsets, 0) == Erase(text, inserted, 0)
    && Recorded(offsets, |result|) && |offsets| == |inserted| + n && |result| == |text| + n
  }

  lemma Progressed(text: string, inserted: seq<nat>, sorted: seq<Paren>, n: nat, bound: nat, result: string,
      offsets: seq<nat>, moved: seq<nat>)
    requires SortedBy(sorted, Order) && n < |sorted| && Progress(text, inserted, sorted, n, bound, result, offsets)
    requires IsBumped(offsets, sorted[n].at, moved)
    ensures var at := sorted[n].at;
      Progress(text, inserted, sorted, n + 1, at, result[..at] + [Byte(sorted[n])] + result[at..], moved)
  {
    var p := sorted[n];
    InOrder(sorted, n);
    NextParen(text, sorted[..n], p, bound, result);
    InsertionErased(result, offsets, p.at, Byte(p), moved);
    BumpedRecorded(offsets, p.at, moved, |result|);
    assert sorted[..n + 1] == sorted[..n] + [p];
  }

  /** Insertion in order, the furthest offset first. */
  method InsertAll(text: string, inserted: seq<nat>, sorted: seq<Paren>) returns (result: string, offsets: seq<nat>)
    requires Recorded(inserted, |text|) && SortedBy(sorted, Order)
    requires forall i :: 0 <= i < |sorted| ==> sorted[i].at <= |text|
    ensures result == Woven(text, multiset(sorted), 0)
    ensures Erase(result, offsets, 0) == Erase(text, inserted, 0)
    ensures Recorded(offsets, |result|) && |offsets| == |inserted| + |sorted|
  {
    result, offsets := text, inserted;
    ghost var bound: nat := |text|;
    assert text[..bound] == text && Woven(text, multiset([]), |text|) == "";
    for n := 0 to |sorted|
      invariant Progress(text, inserted, sorted, n, bound, result, offsets)
    {
      var p := sorted[n];
      var moved := Bump(offsets, p.at);
      Progressed(text, inserted, sorted, n, bound, result, offsets, moved);
      result := result[..p.at] + [Byte(p)] + result[p.at..];
      offsets := moved;
      bound := p.at;
    }
    assert sorted[..|sorted|] == sorted;
    WovenBare(text, multiset(sorted), 0, bound);
  }

  lemma InOrder(sorted: seq<Paren>, n: nat)
    requires SortedBy(sorted, Order) && n < |sorted|
    ensures SortedBy(sorted[..n] + [sorted[n]], Order)
    ensures forall i :: n <= i < |sorted| ==> sorted[i].at <= sorted[n].at
    ensures forall i :: 0 <= i <= n ==> sorted[i].at >= sorted[n].at
  {
    forall i | n < i < |sorted|
      ensures sorted[i].at <= sorted[n].at
    {
      assert Order(sorted[n]) <= Order(sorted[i]);
    }
    forall i | 0 <= i < n
      ensures sorted[i].at >= sorted[n].at
    {
      assert Order(sorted[i]) <= Order(sorted[n]);
    }
  }

  /** The parentheses are woven in, and what erasing the recorded offsets gives stays the same. */
  method InsertParens(text: string, inserted: seq<nat>, parens: seq<Paren>) returns (result: string, offsets: seq<nat>)
    requires Recorded(inserted, |text|) && SortedBy(inserted, Itself)
    requires forall p :: p in parens ==> p.at <= |text|
    ensures result == Woven(text, multiset(parens), 0)
    ensures Erase(result, offsets, 0) == Erase(text, inserted, 0)
    ensures Recorded(offsets, |result|) && SortedBy(offsets, Itself) && |offsets| == |inserted| + |parens|
  {
    if parens == [] {
      WovenBare(text, multiset(parens), 0, |text|);
      return text, inserted;
    }
    var sorted := SortBy(parens, Order);
    SameMembers(sorted, parens);
    var recorded: seq<nat>;
    result, recorded := InsertAll(text, inserted, sorted);
    offsets := SortBy(recorded, Itself);
    SortedAlike(result, offsets, recorded);
  }

  /** Sorting the recorded offsets changes nothing of what they say. */
  lemma SortedAlike(result: string, offsets: seq<nat>, recorded: seq<nat>)
    requires multiset(offsets) == multiset(recorded) && Recorded(recorded, |result|)
    ensures Erase(result, offsets, 0) == Erase(result, recorded, 0)
    ensures Recorded(offsets, |result|) && |offsets| == |recorded|
  {
    SameMembers(offsets, recorded);
    EraseAlike(result, offsets, 0, recorded, 0);
    SortedRecorded(offsets, recorded, |result|);
  }

  lemma SortedRecorded(a: seq<nat>, b: seq<nat>, n: nat)
    requires multiset(a) == multiset(b) && Recorded(b, n)
    ensures Recorded(a, n) && |a| == |b|
  {
    SameMembers(a, b);
    forall i, j | 0 <= i < j < |a|
      ensures a[i] != a[j]
    {
      if a[i] == a[j] {
        Twice(a, i, j);
        Once(b, a[i]);
      }
    }
    forall i | 0 <= i < |a|
      ensures a[i] < n
    {
      assert a[i] in b;
    }
  }

  lemma Twice(a: seq<nat>, i: nat, j: nat)
    requires i < j < |a| && a[i] == a[j]
    ensures multiset(a)[a[i]] >= 2
  {
    assert a == a[..i] + [a[i]] + a[i + 1..j] + [a[j]] + a[j + 1..];
  }

  lemma {:induction false} Once(b: seq<nat>, k: nat)
    requires forall i, j :: 0 <= i < j < |b| ==> b[i] != b[j]
    ensures multiset(b)[k] <= 1
    decreases |b|
  {
    if b != [] {
      var most := b[..|b| - 1];
      assert b == most + [b[|b| - 1]];
      Once(most, k);
      if k == b[|b| - 1] {
        assert k !in most;
        assert k !in multiset(most);
      }
    }
  }

  // ----- the way back ----------------------------------------------------------------------------------------

  /** How many leading elements of an ascending list are below `bound`. */
  method PartitionPoint(offsets: seq<nat>, bound: nat) returns (k: nat)
    requires SortedBy(offsets, Itself)
    ensures k <= |offsets| && forall i :: 0 <= i < |offsets| ==> (offsets[i] < bound <==> i < k)
  {
    var low, high := 0, |offsets|;
    while low < high
      invariant low <= high <= |offsets|
      invariant forall i :: 0 <= i < low ==> offsets[i] < bound
      invariant forall i :: high <= i < |offsets| ==> offsets[i] >= bound
    {
      var middle := (low + high) / 2;
      Ascending(offsets);
      if offsets[middle] < bound {
        low := middle + 1;
      } else {
        high := middle;
      }
    }
    return low;
  }

  lemma Ascending(offsets: seq<nat>)
    requires SortedBy(offsets, Itself)
    ensures forall i, j :: 0 <= i <= j < |offsets| ==> offsets[i] <= offsets[j]
  {
    assert forall i, j :: 0 <= i < j < |offsets| ==> Itself(offsets[i]) <= Itself(offsets[j]);
  }

  /** Among the first `n` bytes, `k` are inserted and the others are left by erasing. */
  lemma {:induction false} ErasedLength(text: string, offsets: seq<nat>, n: nat, k: nat)
    requires n <= |text| && k <= |offsets| && Recorded(offsets, |text|) && SortedBy(offsets, Itself)
    requires forall i :: 0 <= i < |offsets| ==> (offsets[i] < n <==> i < k)
    ensures |Erase(text[..n], offsets, 0)| + k == n
    decreases n
  {
    Ascending(offsets);
    if n == 0 {
      assert |offsets| > 0 ==> !(offsets[0] < n);
    } else {
      assert text[..n] == text[..n - 1] + [text[n - 1]];
      EraseConcat(text[..n - 1], [text[n - 1]], offsets, 0);
      EraseOne(text[n - 1], offsets, n - 1);
      if n - 1 in offsets {
        var i :| 0 <= i < |offsets| && offsets[i] == n - 1;
        assert i < k && offsets[k - 1] <= offsets[i];
        ErasedLength(text, offsets, n - 1, k - 1);
      } else {
        ErasedLength(text, offsets, n - 1, k);
      }
    }
  }

  /** The number of source bytes before the offset; so a byte that was not inserted is sent to
    * where it is in the source.
    */
  method SourceOffset(text: string, inserted: seq<nat>, offset: nat) returns (source: nat)
    requires Recorded(inserted, |text|) && SortedBy(inserted, Itself) && offset <= |text|
    ensures source == |Erase(text[..offset], inserted, 0)| <= |Erase(text, inserted, 0)|
    ensures offset < |text| && offset !in inserted ==>
      source < |Erase(text, inserted, 0)| && Erase(text, inserted, 0)[source] == text[offset]
  {
    var k := PartitionPoint(inserted, offset);
    ErasedLength(text, inserted, offset, k);
    EraseConcat(text[..offset], text[offset..], inserted, 0);
    assert text == text[..offset] + text[offset..];
    source := offset - k;
  }
}
