/** Which commits the timeline lists. */
module TimelineListing {
  import opened CommitGraph

  /** Listed more than once. */
  ghost predicate Repeated(listed: seq<Oid>, c: Oid) {
    exists i, j :: 0 <= i < j < |listed| && listed[i] == c && listed[j] == c
  }

  ghost predicate Distinct(listed: seq<Oid>) {
    forall c :: c in listed ==> !Repeated(listed, c)
  }

  lemma RepeatedIsListed(listed: seq<Oid>, c: Oid)
    requires Repeated(listed, c)
    ensures c in listed
  {
  }

  /** Where commits are added that are not listed yet, what is repeated stays so. */
  lemma AddedOnce(listed: seq<Oid>, added: Oid)
    requires added !in listed
    ensures forall c :: Repeated(listed + [added], c) <==> Repeated(listed, c)
  {
    var all := listed + [added];
    forall c
      ensures Repeated(all, c) <==> Repeated(listed, c)
    {
      if i, j :| 0 <= i < j < |all| && all[i] == c && all[j] == c {
        assert listed[i] == c;
        assert j < |listed|;
      }
      if i, j :| 0 <= i < j < |listed| && listed[i] == c && listed[j] == c {
        assert all[i] == c && all[j] == c;
      }
    }
  }

  lemma AddedTwice(listed: seq<Oid>, added: Oid)
    requires added !in listed
    ensures forall c :: Repeated(listed + [added] + [added], c) <==> Repeated(listed, c) || c == added
  {
    var all := listed + [added] + [added];
    var n := |listed|;
    assert all[n] == all[n + 1] == added;
    forall c
      ensures Repeated(all, c) <==> Repeated(listed, c) || c == added
    {
      if i, j :| 0 <= i < j < |all| && all[i] == c && all[j] == c {
        assert j < n ==> listed[i] == listed[j];
        assert j >= n ==> c == added;
      }
      if i, j :| 0 <= i < j < n && listed[i] == c && listed[j] == c {
        assert all[i] == c && all[j] == c;
      }
    }
  }

  /** The deployed commits, and for context the tracked tip, the first commit of its history and
    * where each of these branched off, if the repository has them. The tip is listed twice if it is
    * the first commit too, and not deployed; nothing else ever is.
    */
  method Listing(repo: Repo, deployed: seq<Oid>, tip: Oid, initial: Oid, bases: map<Oid, Oid>)
      returns (listed: seq<Oid>)
    requires Distinct(deployed)
    ensures forall c :: Repeated(listed, c) <==> c == tip == initial && tip in repo && tip !in deployed
    ensures forall c :: c in listed <==>
      c in deployed || (c in {tip, initial} && c in repo)
      || (c in repo && exists d :: d in bases && (d in deployed || d in {tip, initial}) && bases[d] == c)
  {
    var context := WithTip(repo, deployed, tip, initial);
    listed := context;
    var seen := (set c | c in deployed) + {tip, initial};
    ghost var start := seen;
    var left := seen;
    while left != {}
      invariant forall c :: Repeated(listed, c) <==> Repeated(context, c)
      invariant left <= start <= seen && forall c :: c in listed ==> c in seen
      invariant forall c :: c in seen ==> c in start || c in listed
      invariant forall c :: c in listed <==> c in context || BaseFrom(repo, bases, start - left, c)
      decreases left
    {
      var c :| c in left;
      ghost var before := start - left;
      left := left - {c};
      assert start - left == before + {c};
      if c in bases && bases[c] !in seen && bases[c] in repo {
        AddedOnce(listed, bases[c]);
        listed := listed + [bases[c]];
        seen := seen + {bases[c]};
      }
    }
    assert start - left == start;
  }

  ghost predicate BaseFrom(repo: Repo, bases: map<Oid, Oid>, from: set<Oid>, c: Oid) {
    c in repo && exists d :: d in bases && d in from && bases[d] == c
  }

  method WithTip(repo: Repo, deployed: seq<Oid>, tip: Oid, initial: Oid) returns (listed: seq<Oid>)
    requires Distinct(deployed)
    ensures forall c :: Repeated(listed, c) <==> c == tip == initial && tip in repo && tip !in deployed
    ensures forall c :: c in listed <==> c in deployed || (c in {tip, initial} && c in repo)
  {
    forall c
      ensures !Repeated(deployed, c)
    {
      if Repeated(deployed, c) {
        RepeatedIsListed(deployed, c);
      }
    }
    listed := deployed;
    if tip !in deployed && tip in repo {
      AddedOnce(listed, tip);
      listed := listed + [tip];
    }
    if initial !in deployed && initial in repo {
      if initial == tip {
        AddedTwice(deployed, tip);
      } else {
        AddedOnce(listed, initial);
      }
      listed := listed + [initial];
    }
  }
}
