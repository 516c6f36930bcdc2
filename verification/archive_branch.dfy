/** Keeping deployed commits reachable: a compare-and-swap loop on the archive branch of a server
  * that others push to as well, and that only takes fast-forwards.
  */
module ArchiveBranch {
  import opened Wrappers
  import opened CommitGraph

  const MAX_ATTEMPTS := 3

  // ----- the server ---------------------------------------------------------------------------------

  datatype Server = Server(objects: Repo, head: Option<Oid>)

  /** An update of the branch to `head`, bringing objects along. */
  datatype Push = Push(objects: Repo, head: Oid)

  predicate FastForwards(s: Server, p: Push) {
    && Valid(p.objects) && Extends(p.objects, s.objects) && p.head in p.objects
    && (s.head.Some? ==> Descends(p.objects, p.head, s.head.value))
  }

  /** Anything but a fast-forward is refused. */
  function Accept(s: Server, p: Push): Server {
    if FastForwards(s, p) then Server(p.objects, Some(p.head)) else s
  }

  function AcceptAll(s: Server, pushes: seq<Push>): Server
    decreases |pushes|
  {
    if pushes == [] then s else AcceptAll(Accept(s, pushes[0]), pushes[1..])
  }

  ghost predicate ServerValid(s: Server) {
    Valid(s.objects) && (s.head.Some? ==> s.head.value in s.objects)
  }

  predicate Reaches(s: Server, c: Oid)
    requires Valid(s.objects)
  {
    s.head.Some? && c in s.objects && Descends(s.objects, s.head.value, c)
  }

  /** Nothing once reachable is lost. */
  ghost predicate Keeps(before: Server, after: Server) {
    && ServerValid(before) && ServerValid(after) && Extends(after.objects, before.objects)
    && forall c :: Reaches(before, c) ==> Reaches(after, c)
  }

  lemma AcceptKeeps(s: Server, p: Push)
    requires ServerValid(s)
    ensures Keeps(s, Accept(s, p))
  {
    if FastForwards(s, p) {
      forall c | Reaches(s, c)
        ensures Reaches(Accept(s, p), c)
      {
        DescendsStable(s.objects, p.objects, s.head.value, c);
        DescendsTransitive(p.objects, p.head, s.head.value, c);
      }
    }
  }

  /** Whatever others push, and in whatever order, what is archived stays so. */
  lemma {:induction false} AcceptAllKeeps(s: Server, pushes: seq<Push>)
    requires ServerValid(s)
    ensures Keeps(s, AcceptAll(s, pushes))
    decreases |pushes|
  {
    if pushes != [] {
      AcceptKeeps(s, pushes[0]);
      AcceptAllKeeps(Accept(s, pushes[0]), pushes[1..]);
    }
  }

  /** A push of `head` with the objects that are here and not there. */
  function Bringing(s: Server, objects: Repo, head: Oid): Push {
    Push(s.objects + objects, head)
  }

  /** What a push leaves, unless it never arrives. */
  function Pushed(s: Server, objects: Repo, head: Oid, delivery: Delivery): Server {
    if delivery.Undelivered? then s else Accept(s, Bringing(s, objects, head))
  }

  /** Others push one after the other, and each push that only adds to the branch becomes its head. */
  lemma {:induction false} PushedInOrder(s: Server, pushes: seq<Push>, p: Push)
    ensures AcceptAll(s, []) == s
    ensures AcceptAll(s, pushes + [p]) == Accept(AcceptAll(s, pushes), p)
    ensures (Valid(p.objects) && Extends(p.objects, s.objects) && p.head in p.objects
             && (s.head.Some? ==> Descends(p.objects, p.head, s.head.value))) ==>
              Accept(s, p) == Server(p.objects, Some(p.head))
    ensures s.head.Some? && Valid(p.objects) && p.head in p.objects && !Descends(p.objects, p.head, s.head.value) ==>
      Accept(s, p) == s
    decreases |pushes|
  {
    if pushes == [] {
      assert pushes + [p] == [p];
    } else {
      assert (pushes + [p])[1..] == pushes[1..] + [p];
      PushedInOrder(Accept(s, pushes[0]), pushes[1..], p);
    }
  }

  // ----- content addressing ---------------------------------------------------------------------------

  /** Objects are named by their content: what is modelled of a commit, and a text for the rest. */
  type Naming = (Commit, string) -> Oid

  ghost predicate NoCollisions(name: Naming) {
    forall c, rest, d, other :: name(c, rest) == name(d, other) ==> c == d
  }

  ghost predicate IsNamed(name: Naming, commit: Commit, oid: Oid) {
    exists rest :: name(commit, rest) == oid
  }

  ghost predicate WellNamed(name: Naming, repo: Repo) {
    Valid(repo) && forall c :: c in repo ==> IsNamed(name, repo[c], c)
  }

  lemma NamesAgree(name: Naming, a: Repo, b: Repo)
    requires NoCollisions(name) && WellNamed(name, a) && WellNamed(name, b)
    ensures WellNamed(name, a + b) && Extends(a + b, a) && Extends(a + b, b)
  {
    forall c | c in a && c in b
      ensures a[c] == b[c]
    {
      assert IsNamed(name, a[c], c) && IsNamed(name, b[c], c);
    }
    JoinedIsValid(a, b);
  }

  lemma JoinedIsValid(a: Repo, b: Repo)
    requires Valid(a) && Valid(b) && forall c :: c in a && c in b ==> a[c] == b[c]
    ensures Valid(a + b) && Extends(a + b, a) && Extends(a + b, b)
  {
    forall c, p | c in a + b && p in (a + b)[c].parents
      ensures p in a + b && (a + b)[p].generation < (a + b)[c].generation
    {
      if c in b {
        assert p in b && (a + b)[p] == b[p];
      } else {
        assert p in a && (p in b ==> a[p] == b[p]);
      }
    }
  }

  /** A commit made on commits that are here. */
  lemma CommitAdded(name: Naming, objects: Repo, commit: CommitGraph.Commit, rest: string)
    requires NoCollisions(name) && WellNamed(name, objects)
    requires forall p :: p in commit.parents ==> p in objects && objects[p].generation < commit.generation
    ensures var grown := objects[name(commit, rest) := commit];
      && WellNamed(name, grown) && Extends(grown, objects)
      && forall p :: p in commit.parents ==> Descends(grown, name(commit, rest), p)
  {
    var merged := name(commit, rest);
    var grown := objects[merged := commit];
    assert IsNamed(name, commit, merged);
    if merged in objects {
      assert IsNamed(name, objects[merged], merged);
      assert grown == objects;
    }
    assert Valid(grown);
    forall p | p in commit.parents
      ensures Descends(grown, merged, p)
    {
      assert p in grown[merged].parents && Descends(grown, p, p);
    }
  }

  // ----- the clone --------------------------------------------------------------------------------------

  datatype Candidate = Candidate(oid: Oid, message: string)

  /** What becomes of a push: it arrives, it does not, or it does and the answer is lost. */
  datatype Delivery = Answered | Undelivered | AnswerLost

  /** What others push before the fetch of an attempt and between its fetch and its push, and
    * whether its fetch and push get through. */
  datatype Attempt = Attempt(before: seq<Push>, between: seq<Push>, fetched: bool, delivery: Delivery)

  datatype Failure = FetchFailed | PushRejected

  ghost predicate AllWellNamed(name: Naming, pushes: seq<Push>) {
    forall i :: 0 <= i < |pushes| ==> WellNamed(name, pushes[i].objects)
  }

  ghost predicate EveryoneNamesWell(name: Naming, attempts: seq<Attempt>) {
    forall i :: 0 <= i < |attempts| ==>
      AllWellNamed(name, attempts[i].before) && AllWellNamed(name, attempts[i].between)
  }

  class Clone {
    const name: Naming
    var objects: Repo
    /** The archive branch as last fetched, and the local one it is rebuilt on. */
    var tracking: Option<Oid>
    var branch: Option<Oid>
    var server: Server
    /** Commits known to be archived. */
    var archived: set<Oid>

    ghost predicate Sound()
      reads this
    {
      && NoCollisions(name) && WellNamed(name, objects) && WellNamed(name, server.objects) && ServerValid(server)
      && (forall c :: c in archived ==> Reaches(server, c))
    }

    constructor (name: Naming, objects: Repo, server: Server)
      requires NoCollisions(name) && WellNamed(name, objects) && WellNamed(name, server.objects) && ServerValid(server)
      ensures Sound() && this.name == name && this.objects == objects && this.server == server && archived == {}
    {
      this.name, this.objects, this.server := name, objects, server;
      tracking, branch, archived := None, None, {};
    }

    /** Other writers at work. */
    method Others(pushes: seq<Push>)
      requires Sound() && AllWellNamed(name, pushes)
      modifies `server
      ensures Sound() && server == AcceptAll(old(server), pushes) && Keeps(old(server), server)
    {
      AcceptAllKeeps(server, pushes);
      NamedAfter(name, server, pushes);
      server := AcceptAll(server, pushes);
    }

    method Fetch()
      requires Sound()
      modifies `objects, `tracking
      ensures Sound() && Extends(objects, old(objects)) && Extends(objects, server.objects) && tracking == server.head
    {
      NamesAgree(name, objects, server.objects);
      objects := objects + server.objects;
      tracking := server.head;
    }

    /** A merge of `oid` onto `head`, or a commit on `oid` alone where there is no head yet. */
    method Commit(head: Option<Oid>, oid: Oid, message: string) returns (merged: Oid)
      requires Sound() && oid in objects && (head.Some? ==> head.value in objects)
      modifies `objects
      ensures Sound() && Extends(objects, old(objects)) && merged in objects
      ensures Descends(objects, merged, oid) && (head.Some? ==> Descends(objects, merged, head.value))
      ensures objects[merged].parents == (if head.Some? then [head.value, oid] else [oid])
      ensures merged == name(objects[merged], message) && objects.Keys == old(objects).Keys + {merged}
    {
      var parents := if head.Some? then [head.value, oid] else [oid];
      var below := objects[oid].generation;
      var top := if head.Some? && objects[head.value].generation > below then objects[head.value].generation else below;
      var commit := CommitGraph.Commit(parents, top + 1, None);
      merged := name(commit, message);
      CommitAdded(name, objects, commit, message);
      objects := objects[merged := commit];
      assert oid in parents && (head.Some? ==> head.value in parents);
    }

    /** Push without force. */
    method PushBranch(head: Oid, delivery: Delivery) returns (ok: bool)
      requires Sound() && head in objects
      modifies `server
      ensures Sound() && Keeps(old(server), server)
      ensures ok ==> server.head == Some(head) && Extends(server.objects, objects)
      ensures (delivery.Answered? && Extends(objects, old(server).objects)
               && (old(server).head.Some? ==> Descends(objects, head, old(server).head.value))) ==> ok
      ensures ok <==> delivery.Answered? && FastForwards(old(server), Bringing(old(server), objects, head))
      ensures server == Pushed(old(server), objects, head, delivery)
    {
      NamesAgree(name, server.objects, objects);
      var push := Bringing(server, objects, head);
      AcceptKeeps(server, push);
      ok := delivery.Answered? && FastForwards(server, push);
      if Extends(objects, server.objects) && server.head.Some? {
        DescendsStable(objects, push.objects, head, server.head.value);
      }
      if !delivery.Undelivered? {
        server := Accept(server, push);
      }
    }

    /** Splits the candidates into those the fetched branch reaches, and the rest in order. */
    method Reachable(head: Option<Oid>, candidates: seq<Candidate>) returns (done: set<Oid>, pending: seq<Candidate>)
      requires Sound() && tracking == head && (head.Some? ==> head.value in objects)
      ensures forall c :: c in done <==>
        head.Some? && c in objects && Descends(objects, head.value, c) && OfCandidate(candidates, c)
      ensures forall c :: OfCandidate(pending, c) <==> OfCandidate(candidates, c) && c !in done
    {
      done, pending := {}, [];
      for i := 0 to |candidates|
        invariant forall c :: c in done <==>
          head.Some? && c in objects && Descends(objects, head.value, c) && OfCandidate(candidates[..i], c)
        invariant forall c :: OfCandidate(pending, c) <==> OfCandidate(candidates[..i], c) && c !in done
      {
        var oid := candidates[i].oid;
        CandidateAdded(candidates[..i], candidates[i]);
        CandidateAdded(pending, candidates[i]);
        assert candidates[..i + 1] == candidates[..i] + [candidates[i]];
        if head.Some? && (head.value == oid || (oid in objects && Descends(objects, head.value, oid))) {
          done := done + {oid};
        } else {
          pending := pending + [candidates[i]];
        }
      }
      assert candidates[..|candidates|] == candidates;
    }

    /** Merges a pending commit onto `head` if it is here. */
    method MergeOne(head: Option<Oid>, pending: Candidate, already: set<Oid>)
        returns (newHead: Option<Oid>, done: set<Oid>)
      requires Sound() && (head.Some? ==> head.value in objects)
      requires forall c :: c in already ==> head.Some? && c in objects && Descends(objects, head.value, c)
      modifies `objects
      ensures Sound() && Extends(objects, old(objects)) && (newHead.Some? ==> newHead.value in objects)
      ensures forall c :: head.Some? && Descends(old(objects), head.value, c) ==>
        newHead.Some? && Descends(objects, newHead.value, c)
      ensures forall c :: c in done ==> newHead.Some? && c in objects && Descends(objects, newHead.value, c)
      ensures done == if pending.oid in old(objects) then already + {pending.oid} else already
      ensures pending.oid !in old(objects) ==> newHead == head && objects == old(objects)
    {
      newHead, done := head, already;
      if pending.oid in objects {
        var merged := Commit(head, pending.oid, pending.message);
        ChainGrows(old(objects), objects, head, merged);
        newHead := Some(merged);
        done := done + {pending.oid};
      }
    }

    /** Merges every pending commit that is here onto `head`, one after the other. */
    method BuildChain(head: Option<Oid>, pending: seq<Candidate>, already: set<Oid>)
        returns (newHead: Option<Oid>, done: set<Oid>)
      requires Sound() && (head.Some? ==> head.value in objects)
      requires forall c :: c in already ==> head.Some? && c in objects && Descends(objects, head.value, c)
      modifies `objects
      ensures Sound() && Extends(objects, old(objects))
      ensures newHead.Some? ==> newHead.value in objects
      ensures head.Some? ==> newHead.Some? && Descends(objects, newHead.value, head.value)
      ensures forall c :: c in done ==> newHead.Some? && c in objects && Descends(objects, newHead.value, c)
      ensures forall c :: c in done ==> c in already || OfCandidate(pending, c)
      ensures forall c :: c in already || (OfCandidate(pending, c) && c in old(objects)) ==> c in done
      ensures (forall c :: OfCandidate(pending, c) ==> c !in old(objects)) ==>
        newHead == head && done == already && objects == old(objects)
    {
      newHead, done := head, already;
      for i := 0 to |pending|
        invariant Sound() && Extends(objects, old(objects)) && (newHead.Some? ==> newHead.value in objects)
        invariant head.Some? ==> newHead.Some? && Descends(objects, newHead.value, head.value)
        invariant forall c :: c in done ==> newHead.Some? && c in objects && Descends(objects, newHead.value, c)
        invariant forall c :: c in done ==> c in already || OfCandidate(pending, c)
        invariant forall c :: c in already || (OfCandidate(pending[..i], c) && c in old(objects)) ==> c in done
        invariant (forall c :: OfCandidate(pending, c) ==> c !in old(objects)) ==>
          newHead == head && done == already && objects == old(objects)
      {
        CandidateAdded(pending[..i], pending[i]);
        assert pending[..i + 1] == pending[..i] + [pending[i]];
        newHead, done := MergeOne(newHead, pending[i], done);
      }
      assert pending[..|pending|] == pending;
    }

    /** Fetch, build the chain on what was fetched, push; nothing when the push is turned down. */
    method TryOnce(candidates: seq<Candidate>, between: seq<Push>, delivery: Delivery)
        returns (archived: Option<set<Oid>>)
      requires Sound() && AllWellNamed(name, between)
      modifies `objects, `tracking, `branch, `server
      ensures Sound() && Keeps(old(server), server) && Extends(objects, old(objects)) &&
        Extends(objects, old(server).objects)
      ensures archived.Some? ==> forall c :: c in archived.value ==> Reaches(server, c) && OfCandidate(candidates, c)
      ensures archived.Some? ==> forall c ::
        OfCandidate(candidates, c) && (c in old(objects) || c in old(server).objects) ==> c in archived.value
      ensures delivery.Answered? && between == [] ==> archived.Some?
      ensures AllReached(old(server), candidates) ==> archived.Some? && server == old(server)
    {
      Fetch();
      var reachable, pending := Reachable(tracking, candidates);
      FetchedReach(server, objects, reachable);
      ReachedHere(server, objects, candidates);
      if pending != [] {
        assert OfCandidate(pending, pending[0].oid);
      }
      if pending == [] {
        return Some(reachable);
      }
      archived := MergeAndPush(reachable, pending, between, delivery);
    }

    /** Push once others have pushed in between. */
    method PushAfter(head: Oid, between: seq<Push>, delivery: Delivery) returns (ok: bool)
      requires Sound() && head in objects && AllWellNamed(name, between)
      modifies `server
      ensures Sound() && Keeps(old(server), server)
      ensures ok ==> server.head == Some(head) && Extends(server.objects, objects)
      ensures (delivery.Answered? && between == [] && Extends(objects, old(server).objects)
               && (old(server).head.Some? ==> Descends(objects, head, old(server).head.value))) ==> ok
      ensures server == Pushed(AcceptAll(old(server), between), objects, head, delivery)
      ensures Keeps(AcceptAll(old(server), between), server)
    {
      Others(between);
      ok := PushBranch(head, delivery);
    }

    /** Sets the local branch and pushes it. */
    method Publish(head: Oid, done: set<Oid>, between: seq<Push>, delivery: Delivery) returns (ok: bool)
      requires Sound() && head in objects && AllWellNamed(name, between)
      requires forall c :: c in done ==> c in objects && Descends(objects, head, c)
      modifies `branch, `server
      ensures Sound() && Keeps(old(server), server) && branch == Some(head)
      ensures ok ==> forall c :: c in done ==> Reaches(server, c)
      ensures (delivery.Answered? && between == [] && Extends(objects, old(server).objects)
               && (old(server).head.Some? ==> Descends(objects, head, old(server).head.value))) ==> ok
      ensures server == Pushed(AcceptAll(old(server), between), objects, head, delivery)
    {
      branch := Some(head);
      ok := PushAfter(head, between, delivery);
      if ok {
        PushedReach(objects, server, head, done);
      }
    }

    method MergeAndPush(reachable: set<Oid>, pending: seq<Candidate>, between: seq<Push>, delivery: Delivery)
      returns (archived: Option<set<Oid>>)
      requires Sound() && AllWellNamed(name, between) && tracking == server.head && Extends(objects, server.objects)
      requires forall c :: c in reachable ==> Reaches(server, c)
      modifies `objects, `branch, `server
      ensures Sound() && Keeps(old(server), server) && Extends(objects, old(objects))
      ensures archived.Some? ==> forall c :: c in archived.value ==>
        Reaches(server, c) && (c in reachable || OfCandidate(pending, c))
      ensures archived.Some? ==> forall c :: c in reachable || (OfCandidate(pending, c) && c in old(objects)) ==>
        c in archived.value
      ensures delivery.Answered? && between == [] ==> archived.Some?
      ensures server == old(server) ||
        (branch.Some? && server == Pushed(AcceptAll(old(server), between), objects, branch.value, delivery))
    {
      ReachIsHere(server, objects, reachable);
      var newHead, done := BuildChain(tracking, pending, reachable);
      if newHead.None? {
        return Some(done);
      }
      var ok := Publish(newHead.value, done, between, delivery);
      return if ok then Some(done) else None;
    }

    /** What it says is archived is reachable from the branch on the server, and covers every
      * candidate that could be found; what was reachable before stays so, also when it fails.
      */
    method ArchiveCommits(candidates: seq<Candidate>, attempts: seq<Attempt>) returns (r: Result<set<Oid>, Failure>)
      requires Sound() && |attempts| == 3 && EveryoneNamesWell(name, attempts)
      modifies `objects, `tracking, `branch, `server
      ensures Sound() && Keeps(old(server), server) && Extends(objects, old(objects))
      ensures r.Ok? ==> forall c :: c in r.value ==> Reaches(server, c) && OfCandidate(candidates, c)
      ensures r.Ok? ==> forall c :: OfCandidate(candidates, c) && (c in old(objects) || c in old(server).objects) ==>
        c in r.value
      ensures ((forall a :: a in attempts ==> a.fetched)
               && exists a :: a in attempts && a.delivery.Answered? && a.between == []) ==> r.Ok?
      ensures r == Err(FetchFailed) ==> exists a :: a in attempts && !a.fetched
      ensures r == Err(PushRejected) ==> forall a :: a in attempts ==> a.fetched
      ensures var met := AcceptAll(old(server), attempts[0].before);
        attempts[0].fetched && AllReached(met, candidates) ==> r.Ok? && server == met
    {
      for attempt := 0 to MAX_ATTEMPTS
        invariant Sound() && Keeps(old(server), server) && Extends(objects, old(objects))
        invariant forall i :: 0 <= i < attempt ==>
          attempts[i].fetched && (!attempts[i].delivery.Answered? || attempts[i].between != [])
        invariant attempt == 0 ==> server == old(server)
        invariant attempt > 0 ==> !AllReached(AcceptAll(old(server), attempts[0].before), candidates)
      {
        Others(attempts[attempt].before);
        if !attempts[attempt].fetched {
          return Err(FetchFailed);
        }
        var done := TryOnce(candidates, attempts[attempt].between, attempts[attempt].delivery);
        if done.Some? {
          return Ok(done.value);
        }
      }
      return Err(PushRejected);
    }

    /** What the hosts report that is not archived yet. */
    method CollectCandidates(deployed: seq<Candidate>) returns (candidates: seq<Candidate>)
      ensures forall c :: OfCandidate(candidates, c) <==> OfCandidate(deployed, c) && c !in archived
    {
      candidates := [];
      for i := 0 to |deployed|
        invariant forall c :: OfCandidate(candidates, c) <==> OfCandidate(deployed[..i], c) && c !in archived
      {
        CandidateAdded(deployed[..i], deployed[i]);
        CandidateAdded(candidates, deployed[i]);
        assert deployed[..i + 1] == deployed[..i] + [deployed[i]];
        if deployed[i].oid !in archived {
          candidates := candidates + [deployed[i]];
        }
      }
      assert deployed[..|deployed|] == deployed;
    }

    /** One pass over what the hosts report. Whatever is remembered as archived is reachable. */
    method Pass(deployed: seq<Candidate>, attempts: seq<Attempt>) returns (ok: bool)
      requires Sound() && |attempts| == 3 && EveryoneNamesWell(name, attempts)
      modifies this
      ensures Sound() && Keeps(old(server), server) && old(archived) <= archived
      ensures ok ==> forall c :: OfCandidate(deployed, c) && (c in old(objects) || c in old(server).objects) ==>
        c in archived
      ensures forall c :: c in archived ==> c in old(archived) || OfCandidate(deployed, c)
      ensures !ok ==> archived == old(archived)
      ensures ((forall a :: a in attempts ==> a.fetched)
               && exists a :: a in attempts && a.delivery.Answered? && a.between == []) ==> ok
      ensures (forall c :: OfCandidate(deployed, c) ==> c in old(archived)) ==>
        ok && server == old(server) && objects == old(objects)
    {
      var candidates := CollectCandidates(deployed);
      if candidates != [] {
        assert OfCandidate(candidates, candidates[0].oid);
      }
      if candidates == [] {
        return true;
      }
      var r := ArchiveCommits(candidates, attempts);
      if r.Ok? {
        archived := archived + r.value;
      }
      return r.Ok?;
    }
  }

  /** Every candidate is archived already. */
  ghost predicate AllReached(s: Server, candidates: seq<Candidate>) {
    Valid(s.objects) && forall c :: OfCandidate(candidates, c) ==> Reaches(s, c)
  }

  lemma ReachedHere(s: Server, objects: Repo, candidates: seq<Candidate>)
    requires ServerValid(s) && Valid(objects) && Extends(objects, s.objects)
    ensures AllReached(s, candidates) ==>
      forall c :: OfCandidate(candidates, c) ==> c in objects && Descends(objects, s.head.value, c)
  {
    if AllReached(s, candidates) {
      forall c | OfCandidate(candidates, c)
        ensures c in objects && Descends(objects, s.head.value, c)
      {
        DescendsStable(s.objects, objects, s.head.value, c);
      }
    }
  }

  predicate OfCandidate(candidates: seq<Candidate>, c: Oid) {
    exists i :: 0 <= i < |candidates| && candidates[i].oid == c
  }

  lemma CandidateAdded(candidates: seq<Candidate>, last: Candidate)
    ensures forall c :: OfCandidate(candidates + [last], c) <==> OfCandidate(candidates, c) || c == last.oid
  {
    var more := candidates + [last];
    assert more[|candidates|] == last;
    forall c | OfCandidate(candidates, c)
      ensures OfCandidate(more, c)
    {
      var i :| 0 <= i < |candidates| && candidates[i].oid == c;
      assert more[i].oid == c;
    }
  }

  lemma {:induction false} NamedAfter(name: Naming, s: Server, pushes: seq<Push>)
    requires WellNamed(name, s.objects) && AllWellNamed(name, pushes)
    ensures WellNamed(name, AcceptAll(s, pushes).objects)
    decreases |pushes|
  {
    if pushes != [] {
      NamedAfter(name, Accept(s, pushes[0]), pushes[1..]);
    }
  }

  lemma ChainGrows(before: Repo, after: Repo, head: Option<Oid>, merged: Oid)
    requires Valid(before) && Valid(after) && Extends(after, before) && (head.Some? ==> head.value in before)
    requires head.Some? ==> Descends(after, merged, head.value)
    ensures forall c :: head.Some? && Descends(before, head.value, c) ==> Descends(after, merged, c)
  {
    forall c | head.Some? && Descends(before, head.value, c)
      ensures Descends(after, merged, c)
    {
      DescendsStable(before, after, head.value, c);
      DescendsTransitive(after, merged, head.value, c);
    }
  }

  lemma FetchedReach(s: Server, objects: Repo, done: set<Oid>)
    requires ServerValid(s) && Valid(objects) && Extends(objects, s.objects)
    requires forall c :: c in done ==> s.head.Some? && c in objects && Descends(objects, s.head.value, c)
    ensures forall c :: c in done ==> Reaches(s, c)
  {
    forall c | c in done
      ensures Reaches(s, c)
    {
      DescendsStable(s.objects, objects, s.head.value, c);
      HistoryStored(s.objects, s.head.value, c);
    }
  }

  lemma ReachIsHere(s: Server, objects: Repo, done: set<Oid>)
    requires ServerValid(s) && Valid(objects) && Extends(objects, s.objects)
    requires forall c :: c in done ==> Reaches(s, c)
    ensures forall c :: c in done ==> s.head.Some? && c in objects && Descends(objects, s.head.value, c)
  {
    forall c | c in done
      ensures Descends(objects, s.head.value, c)
    {
      DescendsStable(s.objects, objects, s.head.value, c);
    }
  }

  lemma PushedReach(objects: Repo, s: Server, head: Oid, done: set<Oid>)
    requires ServerValid(s) && Valid(objects) && Extends(s.objects, objects) && s.head == Some(head) && head in objects
    requires forall c :: c in done ==> c in objects && Descends(objects, head, c)
    ensures forall c :: c in done ==> Reaches(s, c)
  {
    forall c | c in done
      ensures Reaches(s, c)
    {
      DescendsStable(objects, s.objects, head, c);
    }
  }
}
