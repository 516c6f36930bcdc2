/** What each kind of cycle does, case by case, from what the host and its surroundings are: why a
  * trial ends, where an update leaves the host, and that a trial does not outlast its time.
  */
module EngineLaws {
  import opened Wrappers
  import opened CommitGraph
  import opened Landed
  import opened Engine
  import opened EngineRuns

  /** `record` is that of a trial of `target` begun in this boot, or a persistent one. */
  predicate OnTrial(s: HostState, target: Target, expiresAt: Option<int>) {
    && s.record.Active? && s.record.target == target && s.record.expiresAt == expiresAt
    && (s.record.hold == Persistent || s.record.hold == Ephemeral(s.bootId))
  }

  /** A trial from another boot. */
  predicate LeftByReboot(s: HostState, target: Target) {
    s.record.Active? && s.record.target == target && s.record.hold.Ephemeral? && s.record.hold.bootId != s.bootId
  }

  predicate TimeIsUp(expiresAt: Option<int>, now: int) {
    expiresAt.Some? && expiresAt.value <= now
  }

  /** The record says now, or still says, how the trial stood. */
  ghost predicate EndedWith(w: World, target: Target, reason: FinishReason, s: HostState, r: Result<Outcome, Failure>,
                            t: HostState)
  {
    t.record == Finished(target, w.now, reason) || (r.Err? && t.record == s.record)
  }

  // ----- why a trial ends ------------------------------------------------------------------------

  /** A reboot comes before anything else that has come true. */
  lemma EndsByReboot(w: World, target: Target, s: HostState, r: Result<Outcome, Failure>, t: HostState)
    requires Cycled(w, Scheduled, s, r, t) && LeftByReboot(s, target)
    ensures EndedWith(w, target, Rebooted, s, r, t)
  {
  }

  /** Then a host that runs something else. */
  lemma EndsByOverwriting(w: World, target: Target, expiresAt: Option<int>, s: HostState, r: Result<Outcome, Failure>,
                          t: HostState)
    requires Cycled(w, Scheduled, s, r, t) && OnTrial(s, target, expiresAt) && s.running != target.commit
    ensures EndedWith(w, target, Overwritten, s, r, t)
    ensures r.Ok? && s.running !in w.onBranch ==> r.value == NotOnBranch(s.running) && t == s.(record := t.record)
  {
  }

  /** Then a trial that has landed. */
  lemma EndsByMerge(w: World, target: Target, expiresAt: Option<int>, s: HostState, r: Result<Outcome, Failure>,
                    t: HostState)
    requires Cycled(w, Scheduled, s, r, t) && OnTrial(s, target, expiresAt) && s.running == target.commit
    requires target.commit in w.onBranch
    ensures EndedWith(w, target, Merged, s, r, t)
  {
  }

  /** Then one whose time is up. The host is taken back to the tip, whatever its guards say. */
  lemma EndsByExpiry(w: World, target: Target, expiresAt: Option<int>, s: HostState, r: Result<Outcome, Failure>,
                     t: HostState)
    requires w.Valid() && Cycled(w, Scheduled, s, r, t)
    requires OnTrial(s, target, expiresAt) && s.running == target.commit
    requires target.commit !in w.onBranch && TimeIsUp(expiresAt, w.now)
    ensures EndedWith(w, target, Expired, s, r, t)
    ensures r.Ok? && w.prefetch == Some(false) ==> r.value == PrefetchUnavailable(w.tip) && t == s.(record := t.record)
    ensures r.Ok? && w.prefetch != Some(false) ==> t.profile == t.bootDefault == w.tip
    ensures r.Ok? && w.prefetch != Some(false) && w.allowReboot && !w.sameKernel ==>
      r.value == RebootScheduled(w.tip) && t.running == s.running && t.rebootPending
    ensures r.Ok? && w.prefetch != Some(false) && !(w.allowReboot && !w.sameKernel) ==>
      r.value == Switched(w.tip) && t.running == w.tip && t.rebootPending == s.rebootPending
  {
    assert InHistory(w.repo, w.tip, w.tip);
  }

  /** And otherwise it is held, with the record and what runs left alone. */
  lemma HeldOtherwise(w: World, target: Target, expiresAt: Option<int>, s: HostState, r: Result<Outcome, Failure>,
                      t: HostState)
    requires Cycled(w, Scheduled, s, r, t) && OnTrial(s, target, expiresAt) && s.running == target.commit
    requires target.commit !in w.onBranch && !TimeIsUp(expiresAt, w.now)
    ensures r.Ok? ==> r.value.CanaryHeld? && r.value.commit == target.commit
    ensures t.record == s.record && t.running == s.running && t.rebootPending == s.rebootPending
    ensures s.record.hold.Persistent? ==> t == s && (r.Ok? ==> r.value.nextBoot == target.commit)
    ensures r.Ok? && s.record.hold.Ephemeral? ==> target.commit in w.bases
    ensures r.Ok? && s.record.hold.Ephemeral? && w.bases[target.commit] in w.defines ==>
      r.value.nextBoot == t.profile == w.bases[target.commit]
    ensures r.Ok? && s.record.hold.Ephemeral? && w.bases[target.commit] !in w.defines ==>
      r.value.nextBoot == s.profile && t == s
  {
  }

  /** A manual update ends any trial. */
  lemma EndsByHand(w: World, s: HostState, r: Result<Outcome, Failure>, t: HostState)
    requires Cycled(w, Manual, s, r, t) && s.record.Active?
    ensures EndedWith(w, s.record.target, Cleared, s, r, t)
  {
  }

  // ----- where an update leaves the host ------------------------------------------------------------

  /** A scheduled update of a host on no trial leaves a host that runs off the branch alone, and one
    * that is on the tip.
    */
  lemma NothingToUpdate(w: World, s: HostState, outcome: Outcome, t: HostState)
    requires Cycled(w, Scheduled, s, Ok(outcome), t) && !s.record.Active?
    ensures s.running !in w.onBranch ==> outcome == NotOnBranch(s.running) && t == s
    ensures s.running in w.onBranch && s.running == s.profile == w.tip ==> outcome == UpToDate && t == s
    ensures s.running in w.onBranch && !(s.running == s.profile == w.tip) && w.prefetch == Some(false) ==>
      outcome == PrefetchUnavailable(w.tip) && t == s
  {
  }

  /** Otherwise it moves it to the tip: in what runs only, where the next boot is off the branch; in
    * the next boot only, where that takes a new kernel and may be done; else in both.
    */
  lemma UpdatedToTip(w: World, s: HostState, outcome: Outcome, t: HostState)
    requires Cycled(w, Scheduled, s, Ok(outcome), t) && !s.record.Active?
    requires s.running in w.onBranch && !(s.running == s.profile == w.tip) && w.prefetch != Some(false)
    ensures s.profile !in w.onBranch ==> outcome == TestActivated(w.tip) && t == s.(running := w.tip)
    ensures s.profile in w.onBranch && w.allowReboot && !w.sameKernel ==>
      outcome == RebootScheduled(w.tip) && t == s.(profile := w.tip, bootDefault := w.tip, rebootPending := true)
    ensures s.profile in w.onBranch && !(w.allowReboot && !w.sameKernel) ==>
      outcome == Switched(w.tip) && t == s.(running := w.tip, profile := w.tip, bootDefault := w.tip)
  {
  }

  /** A manual update does so wherever the host is, and ends any trial. */
  lemma UpdatedByHand(w: World, s: HostState, outcome: Outcome, t: HostState)
    requires Cycled(w, Manual, s, Ok(outcome), t)
    ensures var u := if s.record.Active? then s.(record := Finished(s.record.target, w.now, Cleared)) else s;
      && (s.running == s.profile == w.tip ==> outcome == UpToDate && t == u)
      && (!(s.running == s.profile == w.tip) ==>
           && (w.prefetch == Some(false) ==> outcome == PrefetchUnavailable(w.tip) && t == u)
           && (w.prefetch != Some(false) && w.allowReboot && !w.sameKernel ==>
                && outcome == RebootScheduled(w.tip)
                && t == u.(profile := w.tip, bootDefault := w.tip, rebootPending := true))
           && (w.prefetch != Some(false) && !(w.allowReboot && !w.sameKernel) ==>
                && outcome == Switched(w.tip)
                && t == u.(running := w.tip, profile := w.tip, bootDefault := w.tip)))
  {
  }

  /** A trial runs the tip its branch had when it started, for the time given. */
  lemma TrialIsRecorded(w: World, branch: string, timeout: Option<nat>, persist: bool, s: HostState, outcome: Outcome,
                        t: HostState)
    requires Cycled(w, StartCanary(branch, timeout, persist), s, Ok(outcome), t)
    ensures branch in w.branches && t.running == w.branches[branch]
    ensures OnTrial(t, Pinned(branch, w.branches[branch]), if timeout.Some? then Some(w.now + timeout.value) else None)
    ensures t.record.hold == (if persist then Persistent else Ephemeral(s.bootId)) && t.bootId == s.bootId
    ensures persist ==> t.profile == w.branches[branch] && outcome.nextBoot == w.branches[branch]
    ensures outcome == CanaryStarted(w.branches[branch], outcome.nextBoot, persist, t.record.expiresAt)
  {
  }

  // ----- no trial outlasts its time -------------------------------------------------------------------

  /** The trial goes on, or is over for some reason. */
  ghost predicate OnOrOver(was: Record, now: Record)
    requires was.Active?
  {
    now == was || (now.Finished? && now.target == was.target)
  }

  lemma CycleEndsOnly(w: World, s: HostState, r: Result<Outcome, Failure>, t: HostState)
    requires Cycled(w, Scheduled, s, r, t)
    ensures s.record.Active? ==> OnOrOver(s.record, t.record)
    ensures !s.record.Active? ==> t.record == s.record
  {
  }

  lemma {:induction false} StaysOnOrOver(scenes: seq<Scene>, events: seq<Event>, i: nat, k: nat)
    requires IsRun(scenes, events) && i <= k < |scenes| && OnlyScheduled(events, i, k) && scenes[i].host.record.Active?
    ensures OnOrOver(scenes[i].host.record, scenes[k].host.record)
    decreases k
  {
    if i < k {
      StaysOnOrOver(scenes, events, i, k - 1);
      assert StepAt(scenes, events, k - 1);
      if events[k - 1].Cycle? {
        CycleEndsOnly(events[k - 1].world, scenes[k - 1].host, events[k - 1].result, scenes[k].host);
      }
    }
  }

  /** A scheduled cycle whose calls succeed, when the time of a trial is up, ends it. */
  lemma ExpiredEnds(w: World, s: HostState, r: Result<Outcome, Failure>, t: HostState)
    requires Cycled(w, Scheduled, s, r, t) && (r.Err? ==> NoBaseOrBranch(w, Scheduled, s))
    requires s.record.Active? && TimeIsUp(s.record.expiresAt, w.now)
    ensures r.Ok? && t.record.Finished? && t.record.target == s.record.target
  {
  }

  /** However a trial was started and whatever happens since, short of another start or a manual
    * update, the first scheduled cycle after its deadline whose calls succeed finds it over or ends it.
    */
  lemma TrialsTimeOut(scenes: seq<Scene>, events: seq<Event>, i: nat, k: nat)
    requires IsRun(scenes, events) && i <= k < |events| && OnlyScheduled(events, i, k) && scenes[i].host.record.Active?
    requires events[k].Cycle? && events[k].trigger.Scheduled? && Smooth(events[k].world.fates)
    requires TimeIsUp(scenes[i].host.record.expiresAt, events[k].world.now)
    ensures scenes[k + 1].host.record.Finished? && scenes[k + 1].host.record.target == scenes[i].host.record.target
  {
    StaysOnOrOver(scenes, events, i, k);
    assert StepAt(scenes, events, k);
    var e, s := events[k], scenes[k].host;
    if s.record.Active? {
      ExpiredEnds(e.world, s, e.result, scenes[k + 1].host);
    } else {
      CycleEndsOnly(e.world, s, e.result, scenes[k + 1].host);
    }
  }
}
