/** A git object database, reduced to what ancestry depends on: a finite map from
  * object ids to commits. A commit's generation number is above those of its parents,
  * which is what makes the parent links acyclic.
  */
module CommitGraph {
  import opened Wrappers

  type Oid = nat

  datatype Commit = Commit(parents: seq<Oid>, generation: nat, changeId: Option<string>)

  type Repo = map<Oid, Commit>

  predicate Valid(repo: Repo) {
    forall c, p :: c in repo && p in repo[c].parents ==> p in repo && repo[p].generation < repo[c].generation
  }

  function Generation(repo: Repo, c: Oid): nat {
    if c in repo then repo[c].generation + 1 else 0
  }

  /** Whether `b` is `a`, or is reached from `a` by following parent links. */
  predicate Descends(repo: Repo, a: Oid, b: Oid)
    requires Valid(repo)
    decreases Generation(repo, a)
  {
    a == b || (a in repo && exists p | p in repo[a].parents :: Descends(repo, p, b))
  }

  lemma {:induction false} DescendsTransitive(repo: Repo, a: Oid, b: Oid, c: Oid)
    requires Valid(repo) && Descends(repo, a, b) && Descends(repo, b, c)
    ensures Descends(repo, a, c)
    decreases Generation(repo, a)
  {
    if a != b {
      var p :| p in repo[a].parents && Descends(repo, p, b);
      DescendsTransitive(repo, p, b, c);
    }
  }

  lemma {:induction false} DescentLowersGeneration(repo: Repo, a: Oid, b: Oid)
    requires Valid(repo) && Descends(repo, a, b) && a != b
    ensures a in repo && b in repo && repo[b].generation < repo[a].generation
    decreases Generation(repo, a)
  {
    var p :| p in repo[a].parents && Descends(repo, p, b);
    if p != b {
      DescentLowersGeneration(repo, p, b);
    }
  }

  lemma DescendsAntisymmetric(repo: Repo, a: Oid, b: Oid)
    requires Valid(repo) && Descends(repo, a, b) && Descends(repo, b, a)
    ensures a == b
  {
    if a != b {
      DescentLowersGeneration(repo, a, b);
      DescentLowersGeneration(repo, b, a);
    }
  }

  /** What a stored commit descends from is stored too. */
  lemma HistoryStored(repo: Repo, a: Oid, c: Oid)
    requires Valid(repo) && a in repo && Descends(repo, a, c)
    ensures c in repo
  {
    if a != c {
      DescentLowersGeneration(repo, a, c);
    }
  }

  /** Fetching and committing only ever add objects. */
  predicate Extends(larger: Repo, smaller: Repo) {
    forall c :: c in smaller ==> c in larger && larger[c] == smaller[c]
  }

  /** Adding objects changes no ancestry between commits already present. */
  lemma {:induction false} DescendsStable(smaller: Repo, larger: Repo, a: Oid, b: Oid)
    requires Valid(smaller) && Valid(larger) && Extends(larger, smaller)
    requires a in smaller
    ensures Descends(smaller, a, b) <==> Descends(larger, a, b)
    decreases Generation(smaller, a)
  {
    forall p | p in smaller[a].parents
      ensures Descends(smaller, p, b) <==> Descends(larger, p, b)
    {
      DescendsStable(smaller, larger, p, b);
    }
  }
}
