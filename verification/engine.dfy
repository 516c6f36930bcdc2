/** One update cycle of the daemon: what it reads and changes on its host, call by call, under
  * any pattern of failing calls.
  */
module Engine {
  import opened Wrappers
  import opened CommitGraph
  import opened Landed

  // ----- the persisted trial ---------------------------------------------------------------------

  /** How a trial is held, and so what a reboot does to it. */
  datatype Hold = Ephemeral(bootId: nat) | Persistent

  datatype FinishReason = Merged | Expired | Cleared | Rebooted | Overwritten

  datatype Target = Pinned(branch: string, commit: Oid)

  datatype Record =
    | NoRecord
    | Unreadable
    | Active(target: Target, expiresAt: Option<int>, hold: Hold)
    | Finished(target: Target, at: int, reason: FinishReason)

  datatype Trigger = Scheduled | Manual | StartCanary(branch: string, timeout: Option<nat>, persist: bool)

  datatype Outcome =
    | UpToDate
    | NotOnBranch(revision: Oid)
    | Switched(commit: Oid)
    | TestActivated(commit: Oid)
    | RebootScheduled(commit: Oid)
    | PrefetchUnavailable(commit: Oid)
    | CanaryStarted(commit: Oid, nextBoot: Oid, persist: bool, expiresAt: Option<int>)
    | CanaryHeld(commit: Oid, nextBoot: Oid)

  datatype Failure = CallFailed | NoSuchBranch | NoMergeBase

  // ----- the host and what surrounds it ------------------------------------------------------------

  /** `profile` is the next-boot system as the daemon reads it, `bootDefault` the one the boot
    * loader starts. A failed call can leave the two apart.
    */
  datatype HostState = HostState(record: Record, running: Oid, profile: Oid, bootDefault: Oid,
                                 bootId: nat, rebootPending: bool)

  /** What became of a call: done, or failed having done nothing, its first half, or everything. */
  datatype Fate = Done | Undone | Half | Late

  /** What one cycle finds: the fetched repository, the clock, the answers of the merge-base and
    * on-branch queries and of the flake, whether the configured prefetch (if any) succeeds, the
    * rest of the configuration, and the fates of its other calls in order.
    */
  datatype World = World(repo: Repo, tip: Oid, branches: map<string, Oid>, now: int,
                         onBranch: set<Oid>, bases: map<Oid, Oid>, defines: set<Oid>,
                         prefetch: Option<bool>, allowReboot: bool, sameKernel: bool, fates: seq<Fate>)
  {
    ghost predicate Valid() {
      && CommitGraph.Valid(repo) && tip in repo
      && (forall c :: InHistory(repo, tip, c) ==> c in onBranch)
      && (forall c :: c in bases ==> InHistory(repo, c, bases[c]) && InHistory(repo, tip, bases[c]))
    }
  }

  predicate Smooth(fates: seq<Fate>) {
    forall i :: 0 <= i < |fates| ==> fates[i] == Done
  }

  /** Calls beyond the fates given are done. */
  function Next(fates: seq<Fate>): Fate {
    if fates == [] then Done else fates[0]
  }

  function Rest(fates: seq<Fate>): seq<Fate> {
    if fates == [] then [] else fates[1..]
  }

  /** The first `n` calls are done, and the one after them fails having done nothing. */
  predicate Refused(fates: seq<Fate>, n: nat)
    decreases n
  {
    if n == 0 then Next(fates) == Undone else Next(fates) == Done && Refused(Rest(fates), n - 1)
  }

  /** Whether a call of a single step takes effect. */
  predicate Takes(fate: Fate) {
    fate == Done || fate == Late
  }

  // ----- what a cycle amounts to --------------------------------------------------------------------

  /** What an update decides. */
  function Planned(w: World, force: bool, s: HostState): Outcome {
    if !force && s.running !in w.onBranch then NotOnBranch(s.running)
    else if s.running == w.tip && s.profile == w.tip then UpToDate
    else if w.prefetch == Some(false) then PrefetchUnavailable(w.tip)
    else if !force && s.profile !in w.onBranch then TestActivated(w.tip)
    else if w.allowReboot && !w.sameKernel then RebootScheduled(w.tip)
    else Switched(w.tip)
  }

  /** The host after an update with that outcome. */
  function After(s: HostState, outcome: Outcome): HostState {
    match outcome
    case Switched(c) => s.(running := c, profile := c, bootDefault := c)
    case TestActivated(c) => s.(running := c)
    case RebootScheduled(c) => s.(profile := c, bootDefault := c, rebootPending := true)
    case _ => s
  }

  /** Some of the steps of moving the host to `c` were taken, in their order. */
  ghost predicate Torn(s: HostState, c: Oid, t: HostState) {
    && t.record == s.record && t.bootId == s.bootId
    && t.running in {s.running, c} && t.profile in {s.profile, c} && t.bootDefault in {s.bootDefault, c}
    && (t.bootDefault != s.bootDefault ==> t.profile == c)
    && (t.rebootPending != s.rebootPending ==> t.bootDefault == c)
  }

  /** The running system is not changed to `c` before the boot loader is. */
  ghost predicate LoaderFirst(s: HostState, c: Oid, t: HostState) {
    t.running != s.running ==> t.bootDefault == c
  }

  ghost predicate Updated(w: World, force: bool, s: HostState, r: Result<Outcome, Failure>, t: HostState) {
    var planned := Planned(w, force, s);
    match r
    case Ok(outcome) => outcome == planned && t == After(s, planned)
    case Err(_) =>
      && Torn(s, w.tip, t)
      && (planned.NotOnBranch? || planned.UpToDate? || planned.PrefetchUnavailable? ==> t == s)
      && (planned.TestActivated? ==> t.profile == s.profile && t.bootDefault == s.bootDefault)
      && (!planned.TestActivated? ==> LoaderFirst(s, w.tip, t))
  }

  /** Staging a floor under `commit`, with the commit that a reboot is then said to land on. */
  ghost predicate Staged(w: World, commit: Oid, s: HostState, r: Result<Oid, Failure>, t: HostState) {
    match r
    case Ok(nextBoot) =>
      && commit in w.bases
      && var floor := w.bases[commit];
        if floor !in w.defines then nextBoot == s.profile && t == s
        else nextBoot == floor && t == if s.profile == floor then s else s.(profile := floor, bootDefault := floor)
    case Err(_) =>
      && t.running == s.running && t.rebootPending == s.rebootPending
      && if commit in w.bases then Torn(s, w.bases[commit], t) else t == s
  }

  /** The branch point can be built, and is not yet on the profile. */
  ghost predicate FloorMoves(w: World, commit: Oid, s: HostState) {
    commit in w.bases && w.bases[commit] in w.defines && s.profile != w.bases[commit]
  }

  /** Why a scheduled cycle ends the trial, if it does. */
  function Ending(w: World, s: HostState): Option<FinishReason>
    requires s.record.Active?
  {
    if s.record.hold.Ephemeral? && s.record.hold.bootId != s.bootId then Some(Rebooted)
    else if s.running != s.record.target.commit then Some(Overwritten)
    else if s.running in w.onBranch then Some(Merged)
    else if s.record.expiresAt.Some? && s.record.expiresAt.value <= w.now then Some(Expired)
    else None
  }

  /** A trial that only a floor is staged under, and its floor moves. */
  ghost predicate FloorMovesInTrial(w: World, s: HostState) {
    && s.record.Active? && s.record.hold.Ephemeral? && Ending(w, s).None?
    && FloorMoves(w, s.record.target.commit, s)
  }

  function Ended(s: HostState, now: int, reason: FinishReason): HostState
    requires s.record.Active?
  {
    s.(record := Finished(s.record.target, now, reason))
  }

  /** Ending the trial and updating, or failing before the update. */
  ghost predicate EndedAndUpdated(w: World, reason: FinishReason, force: bool, s: HostState,
      r: Result<Outcome, Failure>, t: HostState)
    requires s.record.Active?
  {
    var ended := Ended(s, w.now, reason);
    (r.Err? && t in {s, ended}) || Updated(w, force, ended, r, t)
  }

  ghost predicate ScheduledCycle(w: World, s: HostState, r: Result<Outcome, Failure>, t: HostState) {
    if !s.record.Active? then Updated(w, false, s, r, t)
    else
      match Ending(w, s)
      case Some(reason) => EndedAndUpdated(w, reason, reason == Expired, s, r, t)
      case None =>
        var commit := s.record.target.commit;
        match r
        case Ok(outcome) =>
          && outcome.CanaryHeld? && outcome.commit == commit
          && if s.record.hold.Ephemeral? then Staged(w, commit, s, Ok(outcome.nextBoot), t)
             else outcome.nextBoot == commit && t == s
        case Err(error) => if s.record.hold.Ephemeral? then Staged(w, commit, s, Err(error), t) else t == s
  }

  ghost predicate ManualCycle(w: World, s: HostState, r: Result<Outcome, Failure>, t: HostState) {
    if s.record.Active? then EndedAndUpdated(w, Cleared, true, s, r, t) else Updated(w, true, s, r, t)
  }

  /** The record of a trial of `branch` started now. */
  function Starting(w: World, trigger: Trigger, s: HostState): Record
    requires trigger.StartCanary? && trigger.branch in w.branches
  {
    var expiresAt := if trigger.timeout.Some? then Some(w.now + trigger.timeout.value) else None;
    Active(Pinned(trigger.branch, w.branches[trigger.branch]), expiresAt,
      if trigger.persist then Persistent else Ephemeral(s.bootId))
  }

  ghost predicate StartCycle(w: World, trigger: Trigger, s: HostState, r: Result<Outcome, Failure>, t: HostState)
    requires trigger.StartCanary?
  {
    if trigger.branch !in w.branches then r.Err? && t == s
    else
      var commit := w.branches[trigger.branch];
      var started := s.(record := Starting(w, trigger, s));
      match r
      case Ok(outcome) =>
        && outcome.CanaryStarted? && outcome.commit == commit
        && outcome.persist == trigger.persist && outcome.expiresAt == started.record.expiresAt
        && if trigger.persist then
            && outcome.nextBoot == commit
            && t == if s.running == commit && s.profile == commit then started else After(started, Switched(commit))
          else Staged(w, commit, started, Ok(outcome.nextBoot), t.(running := s.running)) && t.running == commit
      case Err(error) =>
        || t == s
        || (if trigger.persist then
              Torn(started, commit, t) && LoaderFirst(started, commit, t) && t.rebootPending == s.rebootPending
            else t.running in {s.running, commit} && Staged(w, commit, started, Err(error), t.(running := s.running)))
  }

  ghost predicate Cycled(w: World, trigger: Trigger, s: HostState, r: Result<Outcome, Failure>, t: HostState) {
    || (r.Err? && t == s)
    || match trigger
       case Scheduled => ScheduledCycle(w, s, r, t)
       case Manual => ManualCycle(w, s, r, t)
       case StartCanary(_, _, _) => StartCycle(w, trigger, s, r, t)
  }

  /** What makes a cycle fail when none of its calls does: a trial without its branch, or an
    * ephemeral one that shares no history with the tracked branch.
    */
  predicate NoBaseOrBranch(w: World, trigger: Trigger, s: HostState) {
    match trigger
    case Manual => false
    case StartCanary(branch, _, persist) => branch !in w.branches || (!persist && w.branches[branch] !in w.bases)
    case Scheduled =>
      s.record.Active? && s.record.hold.Ephemeral? && Ending(w, s).None? && s.record.target.commit !in w.bases
  }

  // ----- the cycle itself -----------------------------------------------------------------------------

  datatype Activation = Test | Switch | Boot

  class Host {
    var record: Record
    var running: Oid
    var profile: Oid
    var bootDefault: Oid
    var bootId: nat
    var rebootPending: bool
    /** The commit checked out in the daemon's clone. */
    var tree: Oid
    /** The fates of the calls still to come in this cycle. */
    var fates: seq<Fate>
    /** Whether a call has failed in this cycle. */
    ghost var failed: bool

    ghost function State(): HostState
      reads this
    {
      HostState(record, running, profile, bootDefault, bootId, rebootPending)
    }

    constructor (s: HostState)
      ensures State() == s
    {
      record, running, profile, bootDefault, bootId, rebootPending := s.record, s.running, s.profile, s.bootDefault,
        s.bootId, s.rebootPending;
      tree := 0;
      fates, failed := [], false;
    }

    method Call() returns (fate: Fate)
      modifies `fates, `failed
      ensures Smooth(old(fates)) ==> fate == Done && Smooth(fates)
      ensures fate == Next(old(fates)) && fates == Rest(old(fates))
      ensures failed == (old(failed) || fate != Done)
    {
      fate := Next(fates);
      failed := failed || fate != Done;
      fates := Rest(fates);
    }

    /** A call that changes nothing modelled here. */
    method Ask() returns (r: Result<(), Failure>)
      modifies `fates, `failed
      ensures Smooth(old(fates)) ==> r.Ok? && Smooth(fates)
      ensures r.Ok? <==> Next(old(fates)) == Done
      ensures fates == Rest(old(fates)) && failed == (old(failed) || r.Err?)
    {
      var fate := Call();
      return if fate == Done then Ok(()) else Err(CallFailed);
    }

    /** Replaced whole or not at all. */
    method Store(next: Record) returns (r: Result<(), Failure>)
      modifies `fates, `failed, `record
      ensures record == if Takes(Next(old(fates))) then next else old(record)
      ensures Smooth(old(fates)) ==> r.Ok? && Smooth(fates)
      ensures r.Ok? <==> Next(old(fates)) == Done
      ensures fates == Rest(old(fates)) && failed == (old(failed) || r.Err?)
    {
      var fate := Call();
      if Takes(fate) {
        record := next;
      }
      return if fate == Done then Ok(()) else Err(CallFailed);
    }

    method Checkout(commit: Oid) returns (r: Result<(), Failure>)
      modifies `fates, `failed, `tree
      ensures r.Ok? ==> tree == commit
      ensures r.Err? ==> tree == old(tree)
      ensures Smooth(old(fates)) ==> r.Ok? && Smooth(fates)
      ensures r.Ok? <==> Next(old(fates)) == Done
      ensures fates == Rest(old(fates)) && failed == (old(failed) || r.Err?)
    {
      var fate := Call();
      if fate != Done {
        return Err(CallFailed);
      }
      tree := commit;
      return Ok(());
    }

    /** What is built is the commit checked out. */
    method Build() returns (r: Result<Oid, Failure>)
      modifies `fates, `failed
      ensures r.Ok? ==> r.value == tree
      ensures Smooth(old(fates)) ==> r.Ok? && Smooth(fates)
      ensures r.Ok? <==> Next(old(fates)) == Done
      ensures fates == Rest(old(fates)) && failed == (old(failed) || r.Err?)
    {
      var _ :- Ask();
      return Ok(tree);
    }

    method CheckoutAndBuild(commit: Oid) returns (r: Result<Oid, Failure>)
      modifies `fates, `failed, `tree
      ensures r.Ok? ==> r.value == commit
      ensures Smooth(old(fates)) ==> r.Ok? && Smooth(fates)
      ensures Next(old(fates)) == Done && Next(Rest(old(fates))) == Done ==> r.Ok? && fates == Rest(Rest(old(fates)))
      ensures failed == (old(failed) || r.Err?) && (r.Ok? ==> tree == commit)
    {
      var _ :- Checkout(commit);
      r := Build();
    }

    method SetProfile(path: Oid) returns (r: Result<(), Failure>)
      modifies `fates, `failed, `profile
      ensures profile == if Takes(Next(old(fates))) then path else old(profile)
      ensures Smooth(old(fates)) ==> r.Ok? && Smooth(fates)
      ensures r.Ok? <==> Next(old(fates)) == Done
      ensures fates == Rest(old(fates)) && failed == (old(failed) || r.Err?)
    {
      var fate := Call();
      if Takes(fate) {
        profile := path;
      }
      return if fate == Done then Ok(()) else Err(CallFailed);
    }

    /** The boot loader comes first, then the running system. */
    method SwitchToConfiguration(path: Oid, action: Activation) returns (r: Result<(), Failure>)
      modifies `fates, `failed, `running, `bootDefault
      ensures bootDefault == old(bootDefault) || (bootDefault == path && action != Test)
      ensures running == old(running) || (running == path && action != Boot)
      ensures r.Ok? ==> (action != Boot ==> running == path) && (action != Test ==> bootDefault == path)
      ensures Smooth(old(fates)) ==> r.Ok? && Smooth(fates)
      ensures action == Switch && running != old(running) ==> bootDefault == path
      ensures Next(old(fates)) == Undone ==> r.Err? && running == old(running) && bootDefault == old(bootDefault)
      ensures bootDefault == if Next(old(fates)) != Undone && action != Test then path else old(bootDefault)
      ensures running == if Takes(Next(old(fates))) && action != Boot then path else old(running)
      ensures r.Ok? <==> Next(old(fates)) == Done
      ensures fates == Rest(old(fates)) && failed == (old(failed) || r.Err?)
    {
      var fate := Call();
      if fate != Undone && action != Test {
        bootDefault := path;
      }
      if Takes(fate) && action != Boot {
        running := path;
      }
      return if fate == Done then Ok(()) else Err(CallFailed);
    }

    method ScheduleReboot() returns (r: Result<(), Failure>)
      modifies `fates, `failed, `rebootPending
      ensures rebootPending == (old(rebootPending) || Takes(Next(old(fates))))
      ensures Smooth(old(fates)) ==> r.Ok? && Smooth(fates)
      ensures r.Ok? <==> Next(old(fates)) == Done
      ensures fates == Rest(old(fates)) && failed == (old(failed) || r.Err?)
    {
      var fate := Call();
      if Takes(fate) {
        rebootPending := true;
      }
      return if fate == Done then Ok(()) else Err(CallFailed);
    }

    /** The profile, and then the boot loader and the running system. */
    method SwitchNow(path: Oid) returns (r: Result<(), Failure>)
      modifies `fates, `failed, `profile, `running, `bootDefault
      ensures r.Ok? ==> State() == After(old(State()), Switched(path))
      ensures r.Err? ==> Torn(old(State()), path, State()) && LoaderFirst(old(State()), path, State())
      ensures Smooth(old(fates)) ==> r.Ok? && Smooth(fates)
      ensures failed == (old(failed) || r.Err?)
    {
      var _ :- SetProfile(path);
      r := SwitchToConfiguration(path, Switch);
    }

    /** The profile and the boot loader, and then the running system where the kernel stays. */
    method BootFirst(w: World, path: Oid) returns (r: Result<Outcome, Failure>)
      modifies `fates, `failed, `profile, `running, `bootDefault, `rebootPending
      ensures var outcome := if w.sameKernel then Switched(path) else RebootScheduled(path);
        r.Ok? ==> r.value == outcome && State() == After(old(State()), outcome)
      ensures r.Err? ==> Torn(old(State()), path, State()) && LoaderFirst(old(State()), path, State())
      ensures Smooth(old(fates)) ==> r.Ok? && Smooth(fates)
      ensures failed == (old(failed) || r.Err?)
    {
      var _ :- SetProfile(path);
      var _ :- SwitchToConfiguration(path, Boot);
      if w.sameKernel {
        var _ :- SwitchToConfiguration(path, Test);
        return Ok(Switched(path));
      } else {
        var _ :- ScheduleReboot();
        return Ok(RebootScheduled(path));
      }
    }

    method Activate(w: World, path: Oid, nextBootOnBranch: bool) returns (r: Result<Outcome, Failure>)
      modifies this
      ensures var outcome := if !nextBootOnBranch then TestActivated(path)
                else if w.allowReboot && !w.sameKernel then RebootScheduled(path) else Switched(path);
        r.Ok? ==> r.value == outcome && State() == After(old(State()), outcome)
      ensures r.Err? ==> Torn(old(State()), path, State())
      ensures !nextBootOnBranch ==> profile == old(profile) && bootDefault == old(bootDefault)
      ensures Smooth(old(fates)) ==> r.Ok? && Smooth(fates)
      ensures r.Err? && nextBootOnBranch ==> LoaderFirst(old(State()), path, State())
      ensures failed == (old(failed) || r.Err?) && tree == old(tree)
    {
      if !nextBootOnBranch {
        var _ :- SwitchToConfiguration(path, Test);
        return Ok(TestActivated(path));
      }
      if !w.allowReboot {
        var _ :- SwitchNow(path);
        return Ok(Switched(path));
      }
      r := BootFirst(w, path);
    }

    /** Nothing is built where the configured prefetch is not available. */
    method BuildTip(w: World) returns (r: Result<Option<Oid>, Failure>)
      modifies `fates, `failed, `tree
      ensures r.Ok? ==> r.value == if w.prefetch == Some(false) then None else Some(w.tip)
      ensures failed == (old(failed) || r.Err?) && (r.Ok? ==> tree == w.tip)
      ensures Smooth(old(fates)) ==> r.Ok? && Smooth(fates)
    {
      var _ :- Checkout(w.tip);
      if w.prefetch.Some? && !w.prefetch.value {
        return Ok(None);
      }
      var path :- Build();
      return Ok(Some(path));
    }

    method UpdateToTip(w: World, force: bool) returns (r: Result<Outcome, Failure>)
      modifies this
      ensures Updated(w, force, old(State()), r, State())
      ensures Smooth(old(fates)) ==> r.Ok?
      ensures failed == (old(failed) || r.Err?)
      ensures r.Ok? ==> tree == if r.value.NotOnBranch? || r.value.UpToDate? then old(tree) else w.tip
    {
      var _ :- Ask();
      var _ :- Ask();
      if !force && running !in w.onBranch {
        return Ok(NotOnBranch(running));
      }
      if running == w.tip && profile == w.tip {
        return Ok(UpToDate);
      }
      var built :- BuildTip(w);
      if built.None? {
        return Ok(PrefetchUnavailable(w.tip));
      }
      var nextBootOnBranch := force || profile in w.onBranch;
      r := Activate(w, built.value, nextBootOnBranch);
    }

    method MakeBootDefault(commit: Oid) returns (r: Result<(), Failure>)
      modifies `fates, `failed, `tree, `profile, `bootDefault, `running
      ensures running == old(running)
      ensures r.Ok? ==> profile == bootDefault == commit
      ensures profile in {old(profile), commit} && bootDefault in {old(bootDefault), commit}
      ensures bootDefault != old(bootDefault) ==> profile == commit
      ensures Smooth(old(fates)) ==> r.Ok? && Smooth(fates)
      ensures Refused(old(fates), 3) ==> r.Err? && profile == commit && bootDefault == old(bootDefault)
      ensures failed == (old(failed) || r.Err?) && (r.Ok? ==> tree == commit)
    {
      var path :- CheckoutAndBuild(commit);
      var _ :- SetProfile(path);
      r := SwitchToConfiguration(path, Boot);
    }

    method StageBootFloor(w: World, commit: Oid) returns (r: Result<Oid, Failure>)
      modifies `fates, `failed, `tree, `profile, `bootDefault, `running
      ensures Staged(w, commit, old(State()), r, State())
      ensures Smooth(old(fates)) && commit in w.bases ==> r.Ok? && Smooth(fates)
      ensures Refused(old(fates), 6) && FloorMoves(w, commit, old(State())) ==>
        r.Err? && State() == old(State()).(profile := w.bases[commit])
      ensures r.Ok? ==> failed == old(failed) && tree == w.bases[commit]
      ensures r.Err? ==> failed || commit !in w.bases
    {
      if commit !in w.bases {
        return Err(NoMergeBase);
      }
      var floor := w.bases[commit];
      var _ :- Ask();
      var nextBoot := profile;
      var _ :- Checkout(floor);
      var _ :- Ask();
      if tree !in w.defines {
        return Ok(nextBoot);
      }
      if nextBoot != floor {
        var _ :- MakeBootDefault(floor);
      }
      return Ok(floor);
    }

    method FinishCanary(w: World, target: Target, reason: FinishReason) returns (r: Result<(), Failure>)
      modifies `fates, `failed, `record
      ensures record == if Takes(Next(old(fates))) then Finished(target, w.now, reason) else old(record)
      ensures Smooth(old(fates)) ==> r.Ok? && Smooth(fates)
      ensures r.Ok? <==> Next(old(fates)) == Done
      ensures fates == Rest(old(fates)) && failed == (old(failed) || r.Err?)
    {
      r := Store(Finished(target, w.now, reason));
    }

    method EndTrial(w: World, reason: FinishReason, force: bool) returns (r: Result<Outcome, Failure>)
      requires record.Active?
      modifies this
      ensures EndedAndUpdated(w, reason, force, old(State()), r, State())
      ensures Smooth(old(fates)) ==> r.Ok?
      ensures failed == (old(failed) || r.Err?)
    {
      var _ :- FinishCanary(w, record.target, reason);
      r := UpdateToTip(w, force);
    }

    method RunScheduled(w: World) returns (r: Result<Outcome, Failure>)
      modifies this
      ensures (r.Err? && State() == old(State())) || ScheduledCycle(w, old(State()), r, State())
      ensures Smooth(old(fates)) && r.Err? ==> NoBaseOrBranch(w, Scheduled, old(State()))
      ensures r.Ok? ==> failed == old(failed)
      ensures r.Err? ==> failed || NoBaseOrBranch(w, Scheduled, old(State()))
      ensures Refused(old(fates), 7) && FloorMovesInTrial(w, old(State())) ==>
        r.Err? && State() == old(State()).(profile := w.bases[old(record).target.commit])
    {
      if !record.Active? {
        r := UpdateToTip(w, false);
        return;
      }
      var Active(target, expiresAt, hold) := record;
      var commit := target.commit;
      if hold.Ephemeral? && bootId != hold.bootId {
        r := EndTrial(w, Rebooted, false);
        return;
      }
      var _ :- Ask();
      if running != commit {
        r := EndTrial(w, Overwritten, false);
        return;
      }
      if commit in w.onBranch {
        r := EndTrial(w, Merged, false);
        return;
      }
      if expiresAt.Some? && w.now >= expiresAt.value {
        r := EndTrial(w, Expired, true);
        return;
      }
      var nextBoot := commit;
      if hold.Ephemeral? {
        nextBoot :- StageBootFloor(w, commit);
      }
      return Ok(CanaryHeld(commit, nextBoot));
    }

    method Start(w: World, trigger: Trigger) returns (r: Result<Outcome, Failure>)
      requires trigger.StartCanary?
      modifies this
      ensures (r.Err? && State() == old(State())) || StartCycle(w, trigger, old(State()), r, State())
      ensures Smooth(old(fates)) && r.Err? ==> NoBaseOrBranch(w, trigger, old(State()))
      ensures r.Ok? ==> failed == old(failed)
      ensures r.Err? ==> failed || NoBaseOrBranch(w, trigger, old(State()))
    {
      ghost var s := State();
      if trigger.branch !in w.branches {
        return Err(NoSuchBranch);
      }
      var commit := w.branches[trigger.branch];
      var expiresAt := if trigger.timeout.Some? then Some(w.now + trigger.timeout.value) else None;
      var hold := if trigger.persist then Persistent else Ephemeral(bootId);
      var _ :- Store(Active(Pinned(trigger.branch, commit), expiresAt, hold));
      ghost var started := s.(record := Starting(w, trigger, s));
      assert State() == started;
      if trigger.persist {
        r := StartPersistent(w, commit, expiresAt);
      } else {
        r := StartEphemeral(w, commit, expiresAt);
      }
    }

    method StartPersistent(w: World, commit: Oid, expiresAt: Option<int>) returns (r: Result<Outcome, Failure>)
      modifies this
      ensures r.Ok? ==> r.value == CanaryStarted(commit, commit, true, expiresAt)
      ensures r.Ok? ==>
        State() == if old(running) == commit && old(profile) == commit then old(State())
                   else After(old(State()), Switched(commit))
      ensures r.Err? ==> Torn(old(State()), commit, State()) && LoaderFirst(old(State()), commit, State())
      ensures r.Err? ==> rebootPending == old(rebootPending)
      ensures Smooth(old(fates)) ==> r.Ok?
      ensures failed == (old(failed) || r.Err?)
      ensures r.Ok? ==> tree == if old(running) == commit && old(profile) == commit then old(tree) else commit
    {
      var _ :- Ask();
      var _ :- Ask();
      if running != commit || profile != commit {
        var path :- CheckoutAndBuild(commit);
        var _ :- SwitchNow(path);
      }
      return Ok(CanaryStarted(commit, commit, true, expiresAt));
    }

    method StartEphemeral(w: World, commit: Oid, expiresAt: Option<int>) returns (r: Result<Outcome, Failure>)
      modifies this
      ensures r.Ok? ==>
        && r.value.CanaryStarted? && r.value == CanaryStarted(commit, r.value.nextBoot, false, expiresAt)
        && running == commit && Staged(w, commit, old(State()), Ok(r.value.nextBoot), State().(running := old(running)))
      ensures r.Err? ==>
        running in {old(running), commit} &&
          Staged(w, commit, old(State()), Err(r.error), State().(running := old(running)))
      ensures Smooth(old(fates)) && commit in w.bases ==> r.Ok?
      ensures r.Ok? ==> failed == old(failed) && tree == if old(running) == commit then w.bases[commit] else commit
      ensures r.Err? ==> failed || commit !in w.bases
    {
      var _ :- Ask();
      var current := running;
      var nextBoot :- StageBootFloor(w, commit);
      if current != commit {
        var path :- CheckoutAndBuild(commit);
        var _ :- SwitchToConfiguration(path, Test);
      }
      return Ok(CanaryStarted(commit, nextBoot, false, expiresAt));
    }

    /** An unreadable record counts as no trial. */
    method Run(w: World, trigger: Trigger) returns (r: Result<Outcome, Failure>)
      modifies this
      ensures Cycled(w, trigger, old(State()), r, State())
      ensures Smooth(w.fates) && r.Err? ==> NoBaseOrBranch(w, trigger, old(State()))
      ensures r.Ok? ==> !failed
      ensures r.Err? ==> failed || NoBaseOrBranch(w, trigger, old(State()))
      ensures trigger.Scheduled? && Refused(w.fates, 8) && FloorMovesInTrial(w, old(State())) ==>
        r.Err? && State() == old(State()).(profile := w.bases[old(record).target.commit])
    {
      fates, failed := w.fates, false;
      var _ :- Ask();
      match trigger {
        case StartCanary(_, _, _) =>
          r := Start(w, trigger);
        case Manual =>
          if record.Active? {
            r := EndTrial(w, Cleared, true);
          } else {
            r := UpdateToTip(w, true);
          }
        case Scheduled =>
          r := RunScheduled(w);
      }
    }

    /** What a reboot does: the loader's default comes up under a new boot id. */
    method Reboot()
      modifies this
      ensures State() == old(State()).(running := old(bootDefault), bootId := old(bootId) + 1, rebootPending := false)
    {
      running := bootDefault;
      bootId := bootId + 1;
      rebootPending := false;
    }
  }
}
