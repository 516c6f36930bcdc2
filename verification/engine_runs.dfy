/** What update cycles keep and reach over whole runs: cycles of any kind and any luck,
  * fast-forward pushes, reboots and switches by hand, in any order.
  */
module EngineRuns {
  import opened Wrappers
  import opened CommitGraph
  import opened Landed
  import opened Engine

  /** The upstream repository and its tracked tip, and the host. */
  datatype Scene = Scene(repo: Repo, tip: Oid, host: HostState)

  datatype Event =
    | Push(repo: Repo, tip: Oid)
    | Reboot
    | ByHand(commit: Oid)
    | Cycle(world: World, trigger: Trigger, result: Result<Outcome, Failure>)

  ghost predicate Step(a: Scene, e: Event, b: Scene)
    requires Valid(a.repo)
  {
    match e
    case Push(repo, tip) =>
      Valid(repo) && Extends(repo, a.repo) && tip in repo && Descends(repo, tip, a.tip) && b == Scene(repo, tip, a.host)
    case Reboot =>
      b == a.(host := a.host.(running := a.host.bootDefault, bootId := a.host.bootId + 1, rebootPending := false))
    case ByHand(commit) => b == a.(host := a.host.(running := commit))
    case Cycle(w, trigger, r) =>
      && w.Valid() && w.repo == a.repo && w.tip == a.tip && b.repo == a.repo && b.tip == a.tip
      && Cycled(w, trigger, a.host, r, b.host)
      && (Smooth(w.fates) && r.Err? ==> NoBaseOrBranch(w, trigger, a.host))
  }

  ghost predicate IsRun(scenes: seq<Scene>, events: seq<Event>) {
    && |scenes| == |events| + 1
    && (forall i :: 0 <= i < |scenes| ==> Valid(scenes[i].repo) && scenes[i].tip in scenes[i].repo)
    && forall i :: 0 <= i < |events| ==> StepAt(scenes, events, i)
  }

  ghost predicate StepAt(scenes: seq<Scene>, events: seq<Event>, i: nat)
    requires i < |events| && i + 1 < |scenes|
  {
    Valid(scenes[i].repo) && Step(scenes[i], events[i], scenes[i + 1])
  }

  predicate StartsPersistentTrial(e: Event) {
    e.Cycle? && e.trigger.StartCanary? && e.trigger.persist
  }

  predicate NeverPersists(events: seq<Event>, from: nat, to: nat) {
    forall j :: from <= j < to && j < |events| ==> !StartsPersistentTrial(events[j])
  }

  /** From event `from` until before `to`, cycles are scheduled ones, of whatever fate. */
  predicate OnlyScheduled(events: seq<Event>, from: nat, to: nat) {
    forall j :: from <= j < to && j < |events| && events[j].Cycle? ==> events[j].trigger.Scheduled?
  }

  /** And nobody switches the host by hand. */
  predicate Unattended(events: seq<Event>, from: nat, to: nat) {
    OnlyScheduled(events, from, to) && forall j :: from <= j < to && j < |events| ==> !events[j].ByHand?
  }

  /** A scheduled cycle whose calls succeed, the prefetch included. */
  predicate Succeeds(e: Event) {
    e.Cycle? && e.trigger.Scheduled? && Smooth(e.world.fates) && e.world.prefetch != Some(false)
  }

  ghost predicate BootsTracked(s: Scene)
    requires Valid(s.repo)
  {
    InHistory(s.repo, s.tip, s.host.profile) && InHistory(s.repo, s.tip, s.host.bootDefault)
  }

  /** No trial outlives reboots, and none started in a boot yet to come. */
  predicate OnlyPastTrials(s: HostState) {
    s.record.Active? ==> s.record.hold.Ephemeral? && s.record.hold.bootId <= s.bootId
  }

  // ----- the boot default stays on the branch -------------------------------------------------------

  lemma HistoryGrows(a: Scene, e: Event, b: Scene, c: Oid)
    requires Valid(a.repo) && a.tip in a.repo && Step(a, e, b) && InHistory(a.repo, a.tip, c)
    ensures Valid(b.repo) && InHistory(b.repo, b.tip, c)
  {
    if e.Push? {
      DescendsStable(a.repo, b.repo, a.tip, c);
      DescendsTransitive(b.repo, b.tip, a.tip, c);
    }
  }

  /** What boots next is as before, or on the tracked branch. */
  ghost predicate BootsOldOrTracked(w: World, s: HostState, t: HostState)
    requires w.Valid()
  {
    && (t.profile == s.profile || InHistory(w.repo, w.tip, t.profile))
    && (t.bootDefault == s.bootDefault || InHistory(w.repo, w.tip, t.bootDefault))
  }

  lemma UpdateBootsTracked(w: World, force: bool, s: HostState, r: Result<Outcome, Failure>, t: HostState)
    requires w.Valid() && Updated(w, force, s, r, t)
    ensures BootsOldOrTracked(w, s, t)
  {
    assert InHistory(w.repo, w.tip, w.tip);
  }

  lemma StagingBootsTracked(w: World, commit: Oid, s: HostState, r: Result<Oid, Failure>, t: HostState)
    requires w.Valid() && Staged(w, commit, s, r, t)
    ensures BootsOldOrTracked(w, s, t)
  {
  }

  lemma EndingBootsTracked(w: World, reason: FinishReason, force: bool, s: HostState, r: Result<Outcome, Failure>,
      t: HostState)
    requires w.Valid() && s.record.Active? && EndedAndUpdated(w, reason, force, s, r, t)
    ensures BootsOldOrTracked(w, s, t)
  {
    if Updated(w, force, Ended(s, w.now, reason), r, t) {
      UpdateBootsTracked(w, force, Ended(s, w.now, reason), r, t);
    }
  }

  lemma ScheduledBootsTracked(w: World, s: HostState, r: Result<Outcome, Failure>, t: HostState)
    requires w.Valid() && ScheduledCycle(w, s, r, t) && (s.record.Active? ==> s.record.hold.Ephemeral?)
    ensures BootsOldOrTracked(w, s, t)
  {
    if !s.record.Active? {
      UpdateBootsTracked(w, false, s, r, t);
    } else if Ending(w, s).Some? {
      EndingBootsTracked(w, Ending(w, s).value, Ending(w, s).value == Expired, s, r, t);
    } else if r.Ok? {
      StagingBootsTracked(w, s.record.target.commit, s, Ok(r.value.nextBoot), t);
    } else {
      StagingBootsTracked(w, s.record.target.commit, s, Err(r.error), t);
    }
  }

  lemma StartBootsTracked(w: World, trigger: Trigger, s: HostState, r: Result<Outcome, Failure>, t: HostState)
    requires w.Valid() && trigger.StartCanary? && !trigger.persist && StartCycle(w, trigger, s, r, t)
    ensures BootsOldOrTracked(w, s, t)
  {
    if t != s && trigger.branch in w.branches {
      var commit, started := w.branches[trigger.branch], s.(record := Starting(w, trigger, s));
      if r.Ok? {
        StagingBootsTracked(w, commit, started, Ok(r.value.nextBoot), t.(running := s.running));
      } else {
        StagingBootsTracked(w, commit, started, Err(r.error), t.(running := s.running));
      }
    }
  }

  /** Everything a cycle that starts no persistent trial boots next was there or is tracked. */
  lemma CycleBootsTracked(w: World, trigger: Trigger, s: HostState, r: Result<Outcome, Failure>, t: HostState)
    requires w.Valid() && Cycled(w, trigger, s, r, t) && !(trigger.StartCanary? && trigger.persist)
    requires s.record.Active? ==> s.record.hold.Ephemeral?
    ensures BootsOldOrTracked(w, s, t)
  {
    if !(r.Err? && t == s) {
      match trigger {
        case Scheduled => ScheduledBootsTracked(w, s, r, t);
        case Manual =>
          if s.record.Active? {
            EndingBootsTracked(w, Cleared, true, s, r, t);
          } else {
            UpdateBootsTracked(w, true, s, r, t);
          }
        case StartCanary(_, _, _) => StartBootsTracked(w, trigger, s, r, t);
      }
    }
  }

  lemma StepKeepsBoot(a: Scene, e: Event, b: Scene)
    requires Valid(a.repo) && a.tip in a.repo && Step(a, e, b) && !StartsPersistentTrial(e)
    requires BootsTracked(a) && OnlyPastTrials(a.host)
    ensures Valid(b.repo) && BootsTracked(b)
  {
    HistoryGrows(a, e, b, a.host.profile);
    HistoryGrows(a, e, b, a.host.bootDefault);
    if e.Cycle? {
      CycleBootsTracked(e.world, e.trigger, a.host, e.result, b.host);
    }
  }

  lemma CycleKeepsTrialsPast(w: World, trigger: Trigger, s: HostState, r: Result<Outcome, Failure>, t: HostState)
    requires Cycled(w, trigger, s, r, t) && !(trigger.StartCanary? && trigger.persist) && OnlyPastTrials(s)
    ensures OnlyPastTrials(t) && t.bootId == s.bootId
  {
  }

  lemma StepKeepsTrialsPast(a: Scene, e: Event, b: Scene)
    requires Valid(a.repo) && Step(a, e, b) && !StartsPersistentTrial(e) && OnlyPastTrials(a.host)
    ensures OnlyPastTrials(b.host)
  {
    if e.Cycle? {
      CycleKeepsTrialsPast(e.world, e.trigger, a.host, e.result, b.host);
    }
  }

  lemma {:induction false} TrialsStayPast(scenes: seq<Scene>, events: seq<Event>, from: nat, i: nat)
    requires IsRun(scenes, events) && from <= i < |scenes| && NeverPersists(events, from, i)
    requires OnlyPastTrials(scenes[from].host)
    ensures OnlyPastTrials(scenes[i].host)
    decreases i
  {
    if from < i {
      TrialsStayPast(scenes, events, from, i - 1);
      assert StepAt(scenes, events, i - 1);
      StepKeepsTrialsPast(scenes[i - 1], events[i - 1], scenes[i]);
    }
  }

  /** Without a persistent trial, what the host boots next never leaves the tracked branch, even
    * when cycles fail half-way.
    */
  lemma {:induction false} BootStaysTracked(scenes: seq<Scene>, events: seq<Event>, from: nat, i: nat)
    requires IsRun(scenes, events) && from <= i < |scenes| && NeverPersists(events, from, i)
    requires BootsTracked(scenes[from]) && OnlyPastTrials(scenes[from].host)
    ensures BootsTracked(scenes[i])
    decreases i
  {
    if from < i {
      BootStaysTracked(scenes, events, from, i - 1);
      TrialsStayPast(scenes, events, from, i - 1);
      assert StepAt(scenes, events, i - 1);
      StepKeepsBoot(scenes[i - 1], events[i - 1], scenes[i]);
    }
  }

  // ----- the floor of a trial -------------------------------------------------------------------------

  /** Starting an ephemeral trial whose branch point can be built puts the branch point on the
    * profile, and in the boot loader too exactly when the two did not already disagree on it: a
    * loader left behind by a failed switch is not looked at.
    */
  lemma StartStagesFloor(w: World, trigger: Trigger, s: HostState, outcome: Outcome, t: HostState)
    requires w.Valid() && trigger.StartCanary? && !trigger.persist && Cycled(w, trigger, s, Ok(outcome), t)
    requires outcome.commit in w.bases && w.bases[outcome.commit] in w.defines
    ensures var floor := w.bases[outcome.commit];
      && t.profile == floor && outcome.nextBoot == floor && InHistory(w.repo, w.tip, floor)
      && t.bootDefault == (if s.profile == floor then s.bootDefault else floor)
      && (t.bootDefault == floor <==> s.profile != floor || s.bootDefault == floor)
    ensures OnlyPastTrials(t) && t.record.Active? && t.running == outcome.commit
  {
  }

  /** A held trial reports what a reboot lands on, except where only the loader was left behind. */
  lemma HeldReportsBoot(w: World, trigger: Trigger, s: HostState, outcome: Outcome, t: HostState)
    requires Cycled(w, trigger, s, Ok(outcome), t) && outcome.CanaryHeld?
    ensures s.record.Active? && t.record == s.record
    ensures s.record.hold.Ephemeral? ==>
      (t.bootDefault == outcome.nextBoot <==> s.profile != outcome.nextBoot || s.bootDefault == outcome.nextBoot)
    ensures s.record.hold.Persistent? ==> (t.bootDefault == outcome.nextBoot <==> s.bootDefault == outcome.commit)
  {
  }

  /** Being up to date says nothing of the loader. */
  lemma UpToDateReportsBoot(w: World, trigger: Trigger, s: HostState, t: HostState)
    requires Cycled(w, trigger, s, Ok(UpToDate), t)
    ensures t.running == t.profile == w.tip && (t.bootDefault == w.tip <==> s.bootDefault == w.tip)
  {
  }

  /** A held cycle whose switch to the new floor is refused, and one like it in which nothing fails:
    * the second reports the floor, and a reboot lands where it would have before.
    */
  method LeaveLoaderBehind(host: Host, w: World)
      returns (first: Result<Outcome, Failure>, second: Result<Outcome, Failure>)
    requires FloorMovesInTrial(w, host.State()) && Refused(w.fates, 8)
    requires host.bootDefault != w.bases[host.record.target.commit]
    modifies host
    ensures first.Err?
    ensures var commit := old(host.record).target.commit;
      second == Ok(CanaryHeld(commit, w.bases[commit])) && host.bootDefault == old(host.bootDefault) != w.bases[commit]
  {
    first := host.Run(w, Scheduled);
    second := host.Run(w.(fates := []), Scheduled);
  }

  lemma FloorRefused(w: World, s: HostState)
    requires FloorMovesInTrial(w, s)
    ensures Cycled(w, Scheduled, s, Err(CallFailed), s.(profile := w.bases[s.record.target.commit]))
  {
  }

  lemma FloorReported(w: World, s: HostState)
    requires FloorMovesInTrial(w, s)
    ensures var commit := s.record.target.commit;
      var t := s.(profile := w.bases[commit]);
      Cycled(w.(fates := []), Scheduled, t, Ok(CanaryHeld(commit, w.bases[commit])), t)
  {
  }

  /** As a run: the floor is reported, and a reboot lands on what the loader had before. */
  lemma LoaderLeftBehind(a: Scene, w: World) returns (b: Scene, failed: Event, held: Event)
    requires w.Valid() && w.repo == a.repo && w.tip == a.tip && FloorMovesInTrial(w, a.host) && Refused(w.fates, 8)
    ensures var commit := a.host.record.target.commit;
      && failed == Cycle(w, Scheduled, Err(CallFailed))
      && held == Cycle(w.(fates := []), Scheduled, Ok(CanaryHeld(commit, w.bases[commit])))
    ensures Step(a, failed, b) && Valid(b.repo) && Step(b, held, b) && b.host.bootDefault == a.host.bootDefault
  {
    var commit := a.host.record.target.commit;
    b := a.(host := a.host.(profile := w.bases[commit]));
    failed := Cycle(w, Scheduled, Err(CallFailed));
    held := Cycle(w.(fates := []), Scheduled, Ok(CanaryHeld(commit, w.bases[commit])));
    RefusedIsRough(w.fates, 8);
    FloorRefused(w, a.host);
    FloorReported(w, a.host);
  }

  lemma {:induction false} RefusedIsRough(fates: seq<Fate>, n: nat)
    requires Refused(fates, n)
    ensures !Smooth(fates)
    decreases n
  {
    if n == 0 {
      assert fates[0] != Done;
    } else {
      RefusedIsRough(Rest(fates), n - 1);
      assert fates != [] && forall i :: 0 <= i < |fates| - 1 ==> Rest(fates)[i] == fates[i + 1];
    }
  }

  const SMALL_REPO: Repo := map[0 := Commit([], 0, None), 1 := Commit([0], 1, None), 2 := Commit([1], 2, None)]

  lemma SmallHistory()
    ensures Valid(SMALL_REPO) && InHistory(SMALL_REPO, 2, 1) && InHistory(SMALL_REPO, 1, 1) &&
      InHistory(SMALL_REPO, 1, 0)
    ensures forall c :: InHistory(SMALL_REPO, 1, c) ==> c in {0, 1}
  {
    assert 1 in SMALL_REPO[2].parents && 0 in SMALL_REPO[1].parents;
    assert Descends(SMALL_REPO, 1, 1) && Descends(SMALL_REPO, 0, 0);
    forall c | InHistory(SMALL_REPO, 1, c)
      ensures c in {0, 1}
    {
      if c != 1 {
        DescentLowersGeneration(SMALL_REPO, 1, c);
      }
    }
  }

  function RefusedAt(n: nat): (fates: seq<Fate>)
    ensures Refused(fates, n)
  {
    if n == 0 then [Undone] else [Done] + RefusedAt(n - 1)
  }

  /** There is such a host: on trial of 2, which branched off the tip 1, and to boot 0. */
  lemma SmallTrial() returns (a: Scene, w: World)
    ensures Valid(a.repo) && a.tip in a.repo && BootsTracked(a) && OnlyPastTrials(a.host)
    ensures w.Valid() && w.repo == a.repo && w.tip == a.tip && FloorMovesInTrial(w, a.host) && Refused(w.fates, 8)
    ensures a.host.bootDefault != w.bases[a.host.record.target.commit]
  {
    SmallHistory();
    w := World(SMALL_REPO, 1, map[], 0, {0, 1}, map[2 := 1], {1}, None, false, false, RefusedAt(8));
    a := Scene(SMALL_REPO, 1, HostState(Active(Pinned("trial", 2), None, Ephemeral(0)), 2, 0, 0, 0, false));
  }

  /** An ephemeral trial started, its branch point one that can be built. */
  ghost predicate StartsFlooredTrial(e: Event) {
    && e.Cycle? && e.trigger.StartCanary? && !e.trigger.persist
    && e.result.Ok? && e.result.value.CanaryStarted?
    && e.result.value.commit in e.world.bases && e.world.bases[e.result.value.commit] in e.world.defines
  }

  function FloorOf(e: Event): Oid
    requires e.Cycle? && e.result.Ok? && e.result.value.CanaryStarted? && e.result.value.commit in e.world.bases
  {
    e.world.bases[e.result.value.commit]
  }

  /** The floor is yet to be staged, or the loader is on the tracked branch anyway. */
  ghost predicate LoaderTracked(s: Scene, floor: Oid)
    requires Valid(s.repo)
  {
    s.host.profile != floor || InHistory(s.repo, s.tip, s.host.bootDefault)
  }

  lemma TrialStarted(a: Scene, e: Event, b: Scene)
    requires Valid(a.repo) && Step(a, e, b) && StartsFlooredTrial(e)
    ensures Valid(b.repo) && OnlyPastTrials(b.host)
    ensures BootsTracked(b) <==> LoaderTracked(a, FloorOf(e))
  {
    StartStagesFloor(e.world, e.trigger, a.host, e.result.value, b.host);
  }

  /** From the start of an ephemeral trial on, the host boots the tracked branch, if and only if the
    * start did not find the floor on the profile and the loader off the branch.
    */
  lemma TrialBootsTracked(scenes: seq<Scene>, events: seq<Event>)
    requires IsRun(scenes, events) && 0 < |events| && NeverPersists(events, 0, |events|) &&
      StartsFlooredTrial(events[0])
    ensures (forall j :: 1 <= j < |scenes| ==> BootsTracked(scenes[j])) <==>
      LoaderTracked(scenes[0], FloorOf(events[0]))
  {
    assert StepAt(scenes, events, 0);
    TrialStarted(scenes[0], events[0], scenes[1]);
    if LoaderTracked(scenes[0], FloorOf(events[0])) {
      forall j | 1 <= j < |scenes|
        ensures BootsTracked(scenes[j])
      {
        BootStaysTracked(scenes, events, 1, j);
      }
    }
  }

  // ----- how a trial ends ---------------------------------------------------------------------------

  /** A cycle ended the trial, for the reboot before it. */
  ghost predicate EndedBy(was: Record, e: Event, now: Record) {
    e.Cycle? && was.Active? && now == Finished(was.target, e.world.now, Rebooted)
  }

  /** The record is as it was, or one of the events ended the trial. */
  ghost predicate RebootRecorded(was: Record, events: seq<Event>, from: nat, to: nat, now: Record) {
    now == was || exists j :: from <= j < to && j < |events| && EndedBy(was, events[j], now)
  }

  /** A trial from before this boot. */
  predicate Outlived(s: HostState) {
    s.record.Active? ==> s.record.hold.Ephemeral? && s.record.hold.bootId < s.bootId
  }

  /** A scheduled cycle on such a trial ends it and updates, or fails before that. */
  lemma OutlivedIsEnded(w: World, s: HostState, r: Result<Outcome, Failure>, t: HostState) returns (u: HostState)
    requires Cycled(w, Scheduled, s, r, t) && Outlived(s)
    ensures u == if s.record.Active? then Ended(s, w.now, Rebooted) else s
    ensures (r.Err? && t in {s, u}) || Updated(w, false, u, r, t)
  {
    u := if s.record.Active? then Ended(s, w.now, Rebooted) else s;
  }

  lemma OutlivedIsRecorded(e: Event, s: HostState, t: HostState)
    requires e.Cycle? && Cycled(e.world, Scheduled, s, e.result, t) && Outlived(s)
    ensures Outlived(t) && (t.record == s.record || EndedBy(s.record, e, t.record))
    ensures e.result.Ok? ==> !t.record.Active?
  {
    var u := OutlivedIsEnded(e.world, s, e.result, t);
  }

  lemma StepIsRecorded(a: Scene, e: Event, b: Scene)
    requires Valid(a.repo) && Step(a, e, b) && (e.Cycle? ==> e.trigger.Scheduled?) && Outlived(a.host)
    ensures Outlived(b.host) && (b.host.record == a.host.record || EndedBy(a.host.record, e, b.host.record))
    ensures e.Cycle? && e.result.Ok? ==> !b.host.record.Active?
  {
    if e.Cycle? {
      OutlivedIsRecorded(e, a.host, b.host);
    }
  }

  /** After a reboot, the first scheduled cycle that gets to it ends the trial, and says it was the
    * reboot whatever else has come true. One that fails leaves the record as it was or has ended the
    * trial so.
    */
  lemma {:induction false} RebootIsRecorded(scenes: seq<Scene>, events: seq<Event>, i: nat, k: nat)
    requires IsRun(scenes, events) && i < k <= |events| && events[i].Reboot? && OnlyScheduled(events, i + 1, k)
    requires OnlyPastTrials(scenes[i].host)
    ensures Outlived(scenes[k].host)
    ensures RebootRecorded(scenes[i].host.record, events, i + 1, k, scenes[k].host.record)
    decreases k
  {
    assert StepAt(scenes, events, k - 1);
    if i + 1 < k {
      RebootIsRecorded(scenes, events, i, k - 1);
      StepIsRecorded(scenes[k - 1], events[k - 1], scenes[k]);
    }
  }

  /** A scheduled cycle that does not fail has got to it, if none before had. */
  lemma SuccessIsRecorded(scenes: seq<Scene>, events: seq<Event>, i: nat, k: nat)
    requires IsRun(scenes, events) && i < k < |events| && events[i].Reboot? && OnlyScheduled(events, i + 1, k + 1)
    requires OnlyPastTrials(scenes[i].host) && scenes[i].host.record.Active?
    requires events[k].Cycle? && events[k].result.Ok?
    ensures exists j :: i < j <= k && EndedBy(scenes[i].host.record, events[j], scenes[k + 1].host.record)
  {
    RebootIsRecorded(scenes, events, i, k);
    RebootIsRecorded(scenes, events, i, k + 1);
    assert StepAt(scenes, events, k);
    StepIsRecorded(scenes[k], events[k], scenes[k + 1]);
  }

  // ----- how a host catches up ------------------------------------------------------------------------

  /** A host that boots and runs commits of the tracked branch, the tip only if it also boots it. */
  ghost predicate OnTrack(repo: Repo, tip: Oid, s: HostState)
    requires Valid(repo)
  {
    && InHistory(repo, tip, s.profile) && InHistory(repo, tip, s.bootDefault) && InHistory(repo, tip, s.running)
    && (s.running == s.bootDefault || s.running != tip)
  }

  ghost predicate Tracking(s: Scene)
    requires Valid(s.repo)
  {
    OnTrack(s.repo, s.tip, s.host) && Outlived(s.host)
  }

  lemma RebootStartsTracking(a: Scene, e: Event, b: Scene)
    requires Valid(a.repo) && Step(a, e, b) && e.Reboot? && BootsTracked(a) && OnlyPastTrials(a.host)
    ensures Valid(b.repo) && Tracking(b)
  {
  }

  lemma PushKeepsTracking(a: Scene, e: Event, b: Scene)
    requires Valid(a.repo) && a.tip in a.repo && Step(a, e, b) && e.Push? && Tracking(a)
    ensures Valid(b.repo) && Tracking(b)
  {
    HistoryGrows(a, e, b, a.host.profile);
    HistoryGrows(a, e, b, a.host.bootDefault);
    HistoryGrows(a, e, b, a.host.running);
    if a.host.running == b.tip {
      DescendsStable(a.repo, b.repo, a.tip, b.tip);
      DescendsAntisymmetric(b.repo, a.tip, b.tip);
    }
  }

  lemma UpdateKeepsTrack(w: World, s: HostState, r: Result<Outcome, Failure>, t: HostState)
    requires w.Valid() && Updated(w, false, s, r, t) && OnTrack(w.repo, w.tip, s)
    ensures OnTrack(w.repo, w.tip, t)
  {
    assert s.running in w.onBranch && s.profile in w.onBranch;
    assert InHistory(w.repo, w.tip, w.tip);
  }

  /** A scheduled cycle of any fate on a host that tracks moves it to the tip, in part or whole. */
  lemma CycleKeepsTracking(a: Scene, e: Event, b: Scene)
    requires Valid(a.repo) && a.tip in a.repo && Step(a, e, b) && e.Cycle? && e.trigger.Scheduled? && Tracking(a)
    ensures Valid(b.repo) && Tracking(b)
  {
    OutlivedIsRecorded(e, a.host, b.host);
    var ended := OutlivedIsEnded(e.world, a.host, e.result, b.host);
    if Updated(e.world, false, ended, e.result, b.host) {
      UpdateKeepsTrack(e.world, ended, e.result, b.host);
    }
  }

  lemma {:induction false} StaysTracking(scenes: seq<Scene>, events: seq<Event>, i: nat, k: nat)
    requires IsRun(scenes, events) && i < k <= |events| && events[i].Reboot? && Unattended(events, i + 1, k)
    requires BootsTracked(scenes[i]) && OnlyPastTrials(scenes[i].host)
    ensures Tracking(scenes[k])
    decreases k
  {
    var a, e, b := scenes[k - 1], events[k - 1], scenes[k];
    assert StepAt(scenes, events, k - 1);
    if i + 1 < k {
      StaysTracking(scenes, events, i, k - 1);
    }
    match e {
      case Push(_, _) => PushKeepsTracking(a, e, b);
      case Cycle(_, _, _) => CycleKeepsTracking(a, e, b);
      case _ => RebootStartsTracking(a, e, b);
    }
  }

  /** A cycle whose calls succeed makes the tip the boot default of a host that tracks. */
  lemma TrackingCatchesUp(a: Scene, e: Event, b: Scene)
    requires Valid(a.repo) && a.tip in a.repo && Step(a, e, b) && Succeeds(e) && Tracking(a)
    ensures e.result.Ok? && e.result.value in {UpToDate, Switched(a.tip), RebootScheduled(a.tip)}
    ensures b.host.profile == b.host.bootDefault == a.tip
  {
    var w, s := e.world, a.host;
    assert s.running in w.onBranch && s.profile in w.onBranch;
  }

  /** After a reboot, as soon as the calls of a scheduled cycle succeed the tip is the boot default:
    * nobody has to step in, whatever happened before and however many cycles failed since.
    */
  lemma RebootThenTip(scenes: seq<Scene>, events: seq<Event>, from: nat, i: nat, k: nat)
    requires IsRun(scenes, events) && from <= i < k < |events| && events[i].Reboot?
    requires NeverPersists(events, from, i) && Unattended(events, i + 1, k) && Succeeds(events[k])
    requires BootsTracked(scenes[from]) && OnlyPastTrials(scenes[from].host)
    ensures events[k].result.Ok? &&
      events[k].result.value in {UpToDate, Switched(scenes[k].tip), RebootScheduled(scenes[k].tip)}
    ensures scenes[k + 1].host.profile == scenes[k + 1].host.bootDefault == scenes[k].tip
  {
    BootStaysTracked(scenes, events, from, i);
    TrialsStayPast(scenes, events, from, i);
    StaysTracking(scenes, events, i, k);
    assert StepAt(scenes, events, k);
    TrackingCatchesUp(scenes[k], events[k], scenes[k + 1]);
  }

  /** A trial under way tracks the branch from its start on. */
  lemma TrialReachesTip(scenes: seq<Scene>, events: seq<Event>, i: nat, k: nat)
    requires IsRun(scenes, events) && 0 < i < k < |events| && events[i].Reboot?
    requires StartsFlooredTrial(events[0]) && LoaderTracked(scenes[0], FloorOf(events[0]))
    requires NeverPersists(events, 1, i) && Unattended(events, i + 1, k) && Succeeds(events[k])
    ensures OnlyPastTrials(scenes[i].host) && events[k].result.Ok?
    ensures scenes[k + 1].host.profile == scenes[k + 1].host.bootDefault == scenes[k].tip
  {
    assert StepAt(scenes, events, 0);
    TrialStarted(scenes[0], events[0], scenes[1]);
    RebootThenTip(scenes, events, 1, i, k);
    TrialsStayPast(scenes, events, 1, i);
  }

  /** And if the reboot ended it, that is recorded once a cycle's calls succeed. */
  lemma TrialEndsOnTip(scenes: seq<Scene>, events: seq<Event>, i: nat, k: nat)
    requires IsRun(scenes, events) && 0 < i < k < |events| && events[i].Reboot?
    requires StartsFlooredTrial(events[0]) && LoaderTracked(scenes[0], FloorOf(events[0]))
    requires NeverPersists(events, 1, i) && Unattended(events, i + 1, k) && Succeeds(events[k])
    ensures scenes[i].host.record.Active? ==>
      exists j :: i < j <= k && EndedBy(scenes[i].host.record, events[j], scenes[k + 1].host.record)
    ensures scenes[k + 1].host.profile == scenes[k + 1].host.bootDefault == scenes[k].tip
  {
    TrialReachesTip(scenes, events, i, k);
    if scenes[i].host.record.Active? {
      SuccessIsRecorded(scenes, events, i, k);
    }
  }

  // ----- settled hosts --------------------------------------------------------------------------------

  lemma SwitchedState(w: World, trigger: Trigger, s: HostState, commit: Oid, t: HostState)
    requires Cycled(w, trigger, s, Ok(Switched(commit)), t)
    ensures commit == w.tip && t.running == t.profile == t.bootDefault == w.tip && !t.record.Active?
  {
  }

  /** After a switch, a scheduled cycle on the same tip has nothing to do. */
  lemma SwitchIsSettled(w: World, trigger: Trigger, s: HostState, commit: Oid, t: HostState,
                        w': World, r: Result<Outcome, Failure>, u: HostState)
    requires w'.Valid() && w'.tip == w.tip
    requires Cycled(w, trigger, s, Ok(Switched(commit)), t) && Cycled(w', Scheduled, t, r, u)
    ensures u == t && (r.Ok? ==> r.value == UpToDate)
  {
    SwitchedState(w, trigger, s, commit, t);
    assert InHistory(w'.repo, w'.tip, w'.tip);
  }

  /** A successful manual update leaves the tip as boot default, except where the tip already runs
    * and is on the profile: then it does nothing, though the loader may have been left behind.
    */
  lemma ManualBootsTip(w: World, s: HostState, outcome: Outcome, t: HostState)
    requires Cycled(w, Manual, s, Ok(outcome), t) && w.prefetch != Some(false)
    ensures t.profile == w.tip && !t.record.Active?
    ensures t.bootDefault == w.tip <==> s.bootDefault == w.tip || s.running != w.tip || s.profile != w.tip
  {
  }

  /** With no trial on, a next-boot system staged by hand off the branch is kept by scheduled
    * cycles, and a running one is left alone altogether, also when a cycle fails.
    */
  lemma OffBranchIsKept(w: World, s: HostState, r: Result<Outcome, Failure>, t: HostState)
    requires w.Valid() && Cycled(w, Scheduled, s, r, t) && !s.record.Active?
    ensures s.profile !in w.onBranch ==> t.profile == s.profile && t.bootDefault == s.bootDefault
    ensures s.running !in w.onBranch ==> t == s
  {
    assert InHistory(w.repo, w.tip, w.tip);
  }

  // ----- persistent trials -----------------------------------------------------------------------------

  ghost predicate Holds(s: HostState, record: Record)
    requires record.Active?
  {
    s.record == record && s.running == s.profile == s.bootDefault == record.target.commit
  }

  /** A scheduled cycle before the trial's commit has landed or its time is up, or no cycle. */
  predicate LeavesTrialOn(e: Event, record: Record)
    requires record.Active?
  {
    || e.Push? || e.Reboot?
    || (e.Cycle? && e.trigger.Scheduled? && record.target.commit !in e.world.onBranch
        && (record.expiresAt.Some? ==> e.world.now < record.expiresAt.value))
  }

  /** A persistent trial runs through reboots and cycles, until it lands, expires or is replaced. */
  lemma {:induction false} PersistentTrialHolds(scenes: seq<Scene>, events: seq<Event>, record: Record, i: nat)
    requires IsRun(scenes, events) && i < |scenes|
    requires record.Active? && record.hold.Persistent? && Holds(scenes[0].host, record)
    requires forall j :: 0 <= j < i ==> LeavesTrialOn(events[j], record)
    ensures Holds(scenes[i].host, record)
    ensures i > 0 && events[i - 1].Cycle? && events[i - 1].result.Ok? ==>
      events[i - 1].result.value == CanaryHeld(record.target.commit, record.target.commit)
    decreases i
  {
    if i > 0 {
      PersistentTrialHolds(scenes, events, record, i - 1);
      assert StepAt(scenes, events, i - 1);
    }
  }

  /** Starting one makes it so, unless the loader alone had been left behind. */
  lemma PersistentTrialStarts(w: World, trigger: Trigger, s: HostState, outcome: Outcome, t: HostState)
    requires trigger.StartCanary? && trigger.persist && Cycled(w, trigger, s, Ok(outcome), t)
    ensures t.record.Active? && t.record.hold.Persistent?
    ensures Holds(t, t.record) <==>
      s.running != outcome.commit || s.profile != outcome.commit || s.bootDefault == outcome.commit
  {
  }
}
