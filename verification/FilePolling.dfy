/**
 * The effect behind `useFileStatusPolling`: a timer, a request, the page's visibility and the
 * unmount interleave in any order, and files that stay absent are reported.
 */
module FilePolling {
  import opened Wrappers

  // ---- the scheduler, step by step ----

  datatype Stage = Resolving | Loading

  /** A run of `poll` past its first line: where it awaits, and whether its signal was aborted. */
  datatype Run = Run(stage: Stage, aborted: bool)

  /**
   * The closure variables of the effect (cancelled to controller), and what the browser holds for
   * it: visibility, armed timers with their delay, and runs of `poll` that have not finished.
   */
  datatype Poller = Poller(
    cancelled: bool,
    failureCount: nat,
    polling: bool,
    timer: Option<nat>,
    controller: Option<nat>,
    hidden: bool,
    armed: map<nat, nat>,
    live: map<nat, Run>,
    nextTimer: nat,
    nextRun: nat)

  function Pow2(n: nat): nat {
    if n == 0 then 1 else 2 * Pow2(n - 1)
  }

  function Delay(intervalMs: nat, failureCount: nat): nat {
    intervalMs * if Pow2(failureCount) < 4 then Pow2(failureCount) else 4
  }

  function Schedule(s: Poller, intervalMs: nat): Poller {
    if s.cancelled || s.hidden then s
    else s.(
      timer := Some(s.nextTimer),
      armed := s.armed[s.nextTimer := Delay(intervalMs, s.failureCount)],
      nextTimer := s.nextTimer + 1)
  }

  function Poll(s: Poller): Poller {
    if s.cancelled || s.polling || s.hidden then s
    else s.(
      polling := true,
      controller := Some(s.nextRun),
      live := s.live[s.nextRun := Run(Resolving, false)],
      nextRun := s.nextRun + 1)
  }

  /** The `finally` block. */
  function Settle(s: Poller, run: nat, intervalMs: nat): Poller {
    var s' := s.(
      live := s.live - {run},
      controller := if s.controller == Some(run) then None else s.controller,
      polling := false);
    Schedule(s', intervalMs)
  }

  function ClearTimer(s: Poller): Poller {
    if s.timer.Some? then s.(armed := s.armed - {s.timer.value}, timer := None) else s
  }

  function Abort(s: Poller): Poller {
    if s.controller.Some? && s.controller.value in s.live then
      s.(live := s.live[s.controller.value := s.live[s.controller.value].(aborted := true)])
    else s
  }

  datatype Event =
    | Fire(timer: nat)
    | Visibility(hidden: bool)
    | Unmount
    | TokenResolved(run: nat, present: bool)
    | TokenFailed(run: nat)
    | Loaded(run: nat)
    | LoadFailed(run: nat)

  predicate Enabled(s: Poller, e: Event) {
    match e
    case Fire(t) => t in s.armed
    case Visibility(_) => true
    case Unmount => true
    case TokenResolved(r, _) => r in s.live && s.live[r].stage.Resolving?
    case TokenFailed(r) => r in s.live && s.live[r].stage.Resolving?
    case Loaded(r) => r in s.live && s.live[r].stage.Loading?
    case LoadFailed(r) => r in s.live && s.live[r].stage.Loading?
  }

  /** A rejected await: only failures nobody asked for count. */
  function Failed(s: Poller, r: nat, intervalMs: nat): Poller
    requires r in s.live
  {
    Settle(if s.live[r].aborted then s else s.(failureCount := s.failureCount + 1), r, intervalMs)
  }

  function Next(s: Poller, e: Event, intervalMs: nat): Poller
    requires Enabled(s, e)
  {
    match e
    case Fire(t) => Poll(s.(armed := s.armed - {t}))
    case Visibility(hidden) =>
      var s' := s.(hidden := hidden);
      // the listener is gone after the cleanup
      if s.cancelled then s'
      else if hidden then Abort(ClearTimer(s'))
      else Poll(ClearTimer(s'))
    case Unmount =>
      var s' := Abort(s.(cancelled := true));
      if s.timer.Some? then s'.(armed := s'.armed - {s.timer.value}) else s'
    case TokenResolved(r, present) =>
      if !present || s.cancelled || s.live[r].aborted || s.hidden then Settle(s, r, intervalMs)
      else s.(live := s.live[r := s.live[r].(stage := Loading)])
    case TokenFailed(r) => Failed(s, r, intervalMs)
    case Loaded(r) => Settle(s.(failureCount := 0), r, intervalMs)
    case LoadFailed(r) => Failed(s, r, intervalMs)
  }

  /** The effect starts on a page that may be hidden, and polls at once. */
  function Mounted(hidden: bool): Poller {
    Poll(Poller(false, 0, false, None, None, hidden, map[], map[], 0, 0))
  }

  // ---- what every step keeps ----

  /** At most one armed timer, and it is the one the variable names. */
  ghost predicate TimersKnown(s: Poller) {
    && (s.armed.Keys == {} || (s.timer.Some? && s.armed.Keys == {s.timer.value}))
    && (s.timer.Some? ==> s.timer.value < s.nextTimer)
  }

  /** polling is true exactly while a run is live, and that run is the only one. */
  ghost predicate RunsKnown(s: Poller) {
    && (s.controller.Some? <==> s.polling)
    && s.live.Keys == (if s.controller.Some? then {s.controller.value} else {})
    && (s.controller.Some? ==> s.controller.value < s.nextRun)
  }

  ghost predicate Inv(s: Poller, intervalMs: nat) {
    && TimersKnown(s)
    && RunsKnown(s)
    && (!s.cancelled && !s.hidden ==> (s.polling <==> s.armed.Keys == {}))
    && (s.cancelled || s.hidden ==> s.armed.Keys == {} && forall r :: r in s.live ==> s.live[r].aborted)
    && (forall t :: t in s.armed ==> s.armed[t] == Delay(intervalMs, s.failureCount))
  }

  lemma PollKeeps(s: Poller, intervalMs: nat)
    requires TimersKnown(s) && RunsKnown(s)
    requires s.cancelled || s.hidden ==> s.armed.Keys == {} && forall r :: r in s.live ==> s.live[r].aborted
    requires s.armed.Keys == {}
    ensures Inv(Poll(s), intervalMs)
  {
  }

  lemma SettleKeeps(s: Poller, run: nat, intervalMs: nat)
    requires TimersKnown(s) && RunsKnown(s) && run in s.live && s.armed.Keys == {}
    ensures Inv(Settle(s, run, intervalMs), intervalMs)
    ensures !Settle(s, run, intervalMs).polling
  {
    assert s.live.Keys == {run};
    assert (s.live - {run}).Keys == {};
    var s' := Settle(s, run, intervalMs);
    if !s.cancelled && !s.hidden {
      assert s'.armed.Keys == {s.nextTimer};
    }
  }

  lemma LiveMeansNoTimer(s: Poller, run: nat, intervalMs: nat)
    requires Inv(s, intervalMs) && run in s.live
    ensures s.polling && s.armed.Keys == {}
  {
  }

  lemma StepKeeps(s: Poller, e: Event, intervalMs: nat)
    requires Inv(s, intervalMs) && Enabled(s, e)
    ensures Inv(Next(s, e, intervalMs), intervalMs)
  {
    match e
    case Fire(t) =>
      var s' := s.(armed := s.armed - {t});
      assert s'.armed.Keys == {};
      PollKeeps(s', intervalMs);
    case Visibility(hidden) =>
      if !s.cancelled {
        var s' := ClearTimer(s.(hidden := hidden));
        assert s'.armed.Keys == {};
        if hidden {
          assert Abort(s').live.Keys == s'.live.Keys;
        } else {
          PollKeeps(s', intervalMs);
        }
      }
    case Unmount =>
      var s' := Next(s, e, intervalMs);
      assert s'.armed.Keys == {};
      assert s'.live.Keys == s.live.Keys;
    case TokenResolved(r, present) =>
      LiveMeansNoTimer(s, r, intervalMs);
      if !present || s.cancelled || s.live[r].aborted || s.hidden {
        SettleKeeps(s, r, intervalMs);
      }
    case TokenFailed(r) =>
      LiveMeansNoTimer(s, r, intervalMs);
      SettleKeeps(if s.live[r].aborted then s else s.(failureCount := s.failureCount + 1), r, intervalMs);
    case Loaded(r) =>
      LiveMeansNoTimer(s, r, intervalMs);
      SettleKeeps(s.(failureCount := 0), r, intervalMs);
    case LoadFailed(r) =>
      LiveMeansNoTimer(s, r, intervalMs);
      SettleKeeps(if s.live[r].aborted then s else s.(failureCount := s.failureCount + 1), r, intervalMs);
  }

  ghost predicate IsRun(states: seq<Poller>, events: seq<Event>, intervalMs: nat) {
    && |states| == |events| + 1
    && (exists hidden :: states[0] == Mounted(hidden))
    && forall i :: 0 <= i < |events| ==> Enabled(states[i], events[i]) && states[i + 1] == Next(states[i], events[i], intervalMs)
  }

  lemma {:induction false} RunKeeps(states: seq<Poller>, events: seq<Event>, intervalMs: nat, i: nat)
    requires IsRun(states, events, intervalMs) && i <= |events|
    ensures Inv(states[i], intervalMs)
  {
    if i == 0 {
      var hidden :| states[0] == Mounted(hidden);
      PollKeeps(Poller(false, 0, false, None, None, hidden, map[], map[], 0, 0), intervalMs);
    } else {
      RunKeeps(states, events, intervalMs, i - 1);
      StepKeeps(states[i - 1], events[i - 1], intervalMs);
    }
  }

  /**
   * In every state of every run: polls never overlap; while mounted and visible exactly one of a
   * running poll and an armed timer is there; otherwise no timer is armed and a request still out
   * has been told to stop.
   */
  lemma ExactlyOneOfPollAndTimer(states: seq<Poller>, events: seq<Event>, intervalMs: nat, i: nat)
    requires IsRun(states, events, intervalMs) && i <= |events|
    ensures var s := states[i];
      && |s.live| + |s.armed| <= 1
      && (!s.cancelled && !s.hidden ==> |s.live| + |s.armed| == 1)
      && (s.cancelled || s.hidden ==> |s.armed| == 0 && forall r :: r in s.live ==> s.live[r].aborted)
      && (s.polling <==> |s.live| == 1)
  {
    RunKeeps(states, events, intervalMs, i);
    var s := states[i];
    assert |s.live| == |s.live.Keys| && |s.armed| == |s.armed.Keys|;
    if s.polling {
      assert s.live.Keys == {s.controller.value};
      assert |s.live.Keys| == 1;
    }
    if s.armed.Keys != {} {
      assert |s.armed.Keys| == |{s.timer.value}| == 1;
    }
  }

  /** A visible page always polls on: an armed timer that fires starts a run. */
  lemma TimerStartsPoll(states: seq<Poller>, events: seq<Event>, intervalMs: nat, i: nat, t: nat)
    requires IsRun(states, events, intervalMs) && i <= |events| && t in states[i].armed
    ensures Next(states[i], Fire(t), intervalMs).polling && !states[i].polling
  {
    RunKeeps(states, events, intervalMs, i);
  }

  /** A page that is visible when the effect starts, or becomes visible, is polled at once and not after a delay. */
  lemma PollsAtOnce(states: seq<Poller>, events: seq<Event>, intervalMs: nat, i: nat)
    requires IsRun(states, events, intervalMs) && i <= |events|
    ensures states[0].polling <==> !states[0].hidden
    ensures !states[i].cancelled ==> Next(states[i], Visibility(false), intervalMs).polling
    ensures forall r :: r in Next(states[i], Visibility(false), intervalMs).live && r !in states[i].live ==>
              Next(states[i], Visibility(false), intervalMs).live[r] == Run(Resolving, false)
  {
    RunKeeps(states, events, intervalMs, i);
  }

  /** The statuses are asked for exactly when there is a token and nobody has lost interest. */
  lemma LoadsExactly(s: Poller, r: nat, present: bool, intervalMs: nat)
    requires Enabled(s, TokenResolved(r, present))
    ensures var s' := Next(s, TokenResolved(r, present), intervalMs);
      && (r in s'.live <==> present && !s.cancelled && !s.live[r].aborted && !s.hidden)
      && (r in s'.live ==> s'.live[r] == Run(Loading, false))
  {
  }

  /** The event tells whatever run there is to stop. */
  predicate Stops(s: Poller, e: Event) {
    e.Unmount? || (e == Visibility(true) && !s.cancelled)
  }

  lemma AbortStep(s: Poller, e: Event, intervalMs: nat, r: nat)
    requires Inv(s, intervalMs) && Enabled(s, e) && r in Next(s, e, intervalMs).live
    ensures Next(s, e, intervalMs).live[r].aborted <==> r in s.live && (s.live[r].aborted || Stops(s, e))
    ensures r in s.live || r == s.nextRun
  {
  }

  lemma NextRunGrows(s: Poller, e: Event, intervalMs: nat)
    requires Enabled(s, e)
    ensures Next(s, e, intervalMs).nextRun >= s.nextRun
  {
  }

  lemma {:induction false} NextRunOnlyGrows(states: seq<Poller>, events: seq<Event>, intervalMs: nat, k: nat, i: nat)
    requires IsRun(states, events, intervalMs) && k <= i <= |events|
    ensures states[k].nextRun <= states[i].nextRun
    decreases i
  {
    if k < i {
      NextRunOnlyGrows(states, events, intervalMs, k, i - 1);
      NextRunGrows(states[i - 1], events[i - 1], intervalMs);
    }
  }

  lemma LiveIsOld(s: Poller, intervalMs: nat, r: nat)
    requires Inv(s, intervalMs) && r in s.live
    ensures r < s.nextRun
  {
  }

  /** A run is aborted exactly when the page was hidden or unmounted while it was under way. */
  lemma {:induction false} AbortedExactly(states: seq<Poller>, events: seq<Event>, intervalMs: nat, i: nat, r: nat)
    requires IsRun(states, events, intervalMs) && i <= |events| && r in states[i].live
    ensures states[i].live[r].aborted <==> exists k :: 0 <= k < i && r in states[k].live && Stops(states[k], events[k])
    decreases i
  {
    if i > 0 {
      var n := i - 1;
      RunKeeps(states, events, intervalMs, n);
      assert states[i] == Next(states[n], events[n], intervalMs);
      AbortStep(states[n], events[n], intervalMs, r);
      if r in states[n].live {
        AbortedExactly(states, events, intervalMs, n, r);
      } else {
        forall k | 0 <= k < i
          ensures r !in states[k].live
        {
          if r in states[k].live {
            RunKeeps(states, events, intervalMs, k);
            LiveIsOld(states[k], intervalMs, r);
            NextRunOnlyGrows(states, events, intervalMs, k, n);
          }
        }
      }
    }
  }

  /** The event is a rejection nobody asked for. */
  predicate Counted(s: Poller, e: Event) {
    match e
    case TokenFailed(r) => r in s.live && !s.live[r].aborted
    case LoadFailed(r) => r in s.live && !s.live[r].aborted
    case _ => false
  }

  /** Counted rejections among the first i events, since the last snapshot that was loaded. */
  ghost function FailuresInARow(states: seq<Poller>, events: seq<Event>, i: nat): nat
    requires i <= |events| < |states|
  {
    if i == 0 || events[i - 1].Loaded? then 0
    else FailuresInARow(states, events, i - 1) + if Counted(states[i - 1], events[i - 1]) then 1 else 0
  }

  lemma StepCounts(s: Poller, e: Event, intervalMs: nat)
    requires Enabled(s, e)
    ensures Next(s, e, intervalMs).failureCount
         == if e.Loaded? then 0 else s.failureCount + if Counted(s, e) then 1 else 0
  {
  }

  lemma {:induction false} CountsFailures(states: seq<Poller>, events: seq<Event>, intervalMs: nat, i: nat)
    requires IsRun(states, events, intervalMs) && i <= |events|
    ensures states[i].failureCount == FailuresInARow(states, events, i)
  {
    if i > 0 {
      CountsFailures(states, events, intervalMs, i - 1);
      StepCounts(states[i - 1], events[i - 1], intervalMs);
    }
  }

  /** The delay doubles, up to four intervals, with the failures in a row since the last success. */
  lemma BackoffCountsFailures(states: seq<Poller>, events: seq<Event>, intervalMs: nat, i: nat, t: nat)
    requires IsRun(states, events, intervalMs) && i <= |events| && t in states[i].armed
    ensures states[i].armed[t]
         == intervalMs * match FailuresInARow(states, events, i) case 0 => 1 case 1 => 2 case _ => 4
  {
    CountsFailures(states, events, intervalMs, i);
    RunKeeps(states, events, intervalMs, i);
    var n := states[i].failureCount;
    assert Pow2(0) == 1 && Pow2(1) == 2 * Pow2(0);
    if n >= 2 {
      Pow2AtLeast4(n);
    }
  }

  lemma {:induction false} Pow2AtLeast4(n: nat)
    requires n >= 2
    ensures Pow2(n) >= 4
  {
    if n > 2 {
      Pow2AtLeast4(n - 1);
    }
  }

  // ---- files that stay absent ----

  /** A snapshot the effect looked at: when, and the files it named. */
  datatype Seen = Seen(at: int, fileIDs: set<string>)

  datatype Observation = Observation(count: nat, firstSeenAt: int)

  /** How many snapshots at the end lack the file. */
  function AbsentRun(history: seq<Seen>, id: string): (n: nat)
    ensures n <= |history|
    ensures forall k :: |history| - n <= k < |history| ==> id !in history[k].fileIDs
    ensures n < |history| ==> id in history[|history| - n - 1].fileIDs
  {
    if history == [] || id in history[|history| - 1].fileIDs then 0
    else 1 + AbsentRun(history[..|history| - 1], id)
  }

  function Threshold(intervalMs: nat): nat {
    if intervalMs * 2 < 3000 then 3000 else intervalMs * 2
  }

  predicate Reported(history: seq<Seen>, id: string, intervalMs: nat) {
    var n := AbsentRun(history, id);
    n >= 2 && history[|history| - 1].at - history[|history| - n].at >= Threshold(intervalMs)
  }

  /** j is the snapshot in which the current, unbroken absence of the file began. */
  ghost predicate AbsentSince(history: seq<Seen>, id: string, j: nat) {
    && j < |history|
    && (forall k :: j <= k < |history| ==> id !in history[k].fileIDs)
    && (j > 0 ==> id in history[j - 1].fileIDs)
  }

  ghost predicate LongAbsent(history: seq<Seen>, id: string, intervalMs: nat) {
    exists j: nat ::
      && AbsentSince(history, id, j)
      && j < |history| - 1
      && history[|history| - 1].at - history[j].at >= 2 * intervalMs
      && history[|history| - 1].at - history[j].at >= 3000
  }

  lemma {:induction false} AbsentSinceIsRun(history: seq<Seen>, id: string, j: nat)
    requires AbsentSince(history, id, j)
    ensures AbsentRun(history, id) == |history| - j
  {
    var before := history[..|history| - 1];
    if j < |before| {
      AbsentSinceIsRun(before, id, j);
    } else {
      assert before != [] ==> before[|before| - 1] == history[j - 1];
    }
  }

  /**
   * A file is reported with a snapshot exactly when it is absent from it, was absent in an earlier
   * snapshot of the same unbroken run, and the run began two intervals and three seconds ago or more.
   */
  lemma ReportedExactly(history: seq<Seen>, id: string, intervalMs: nat)
    requires history != []
    ensures Reported(history, id, intervalMs) <==> LongAbsent(history, id, intervalMs)
  {
    var n := AbsentRun(history, id);
    if n > 0 {
      assert AbsentSince(history, id, |history| - n);
    }
    forall j: nat | AbsentSince(history, id, j)
      ensures n == |history| - j
    {
      AbsentSinceIsRun(history, id, j);
    }
  }

  /** What the map holds for a file after history. */
  function Remembered(history: seq<Seen>, id: string): Option<Observation> {
    var n := AbsentRun(history, id);
    if n == 0 then None else Some(Observation(n, history[|history| - n].at))
  }

  /** The files reported with the last snapshot of history, in the order they were asked for. */
  function Missing(ids: seq<string>, history: seq<Seen>, intervalMs: nat): seq<string> {
    if ids == [] then []
    else
      var id := ids[|ids| - 1];
      Missing(ids[..|ids| - 1], history, intervalMs) + (if Reported(history, id, intervalMs) then [id] else [])
  }

  /** picks are the places in ids, from left to right, of the files that have long been absent; missing are those files. */
  ghost predicate ArePicked(ids: seq<string>, history: seq<Seen>, intervalMs: nat, picks: seq<nat>, missing: seq<string>) {
    && (forall i :: i in picks <==> 0 <= i < |ids| && LongAbsent(history, ids[i], intervalMs))
    && (forall i, j :: 0 <= i < j < |picks| ==> picks[i] < picks[j])
    && |missing| == |picks|
    && forall k :: 0 <= k < |picks| ==> picks[k] < |ids| && missing[k] == ids[picks[k]]
  }

  lemma PickNext(init: seq<string>, id: string, history: seq<Seen>, intervalMs: nat, picks: seq<nat>, missing: seq<string>)
    requires ArePicked(init, history, intervalMs, picks, missing)
    ensures if LongAbsent(history, id, intervalMs)
      then ArePicked(init + [id], history, intervalMs, picks + [|init|], missing + [id])
      else ArePicked(init + [id], history, intervalMs, picks, missing)
  {
    var ids := init + [id];
    assert forall i :: 0 <= i < |init| ==> ids[i] == init[i];
    assert ids[|init|] == id;
    forall k | 0 <= k < |picks|
      ensures picks[k] < |init|
    {
      assert picks[k] in picks;
    }
  }

  /** The list of missing files: exactly the requested ones that have long been absent, in the order asked. */
  lemma {:induction false} MissingArePicked(ids: seq<string>, history: seq<Seen>, intervalMs: nat) returns (picks: seq<nat>)
    requires history != []
    ensures ArePicked(ids, history, intervalMs, picks, Missing(ids, history, intervalMs))
    decreases |ids|
  {
    if ids == [] {
      picks := [];
    } else {
      var init, id := SplitLast(ids);
      picks := MissingArePicked(init, history, intervalMs);
      MissingSnoc(init, id, history, intervalMs);
      ReportedExactly(history, id, intervalMs);
      PickNext(init, id, history, intervalMs, picks, Missing(init, history, intervalMs));
      if LongAbsent(history, id, intervalMs) {
        picks := picks + [|init|];
      }
    }
  }

  lemma MissingSnoc(init: seq<string>, id: string, history: seq<Seen>, intervalMs: nat)
    ensures Missing(init + [id], history, intervalMs)
         == Missing(init, history, intervalMs) + if Reported(history, id, intervalMs) then [id] else []
  {
    assert (init + [id])[..|init|] == init;
  }

  predicate Distinct(ids: seq<string>) {
    forall i, j :: 0 <= i < j < |ids| ==> ids[i] != ids[j]
  }

  function Lookup(m: map<string, Observation>, id: string): Option<Observation> {
    if id in m then Some(m[id]) else None
  }

  function Observed(o: Option<Observation>, seen: Seen, id: string): Option<Observation> {
    if id in seen.fileIDs then None
    else
      match o
      case None => Some(Observation(1, seen.at))
      case Some(previous) => Some(Observation(previous.count + 1, previous.firstSeenAt))
  }

  lemma RememberedNext(history: seq<Seen>, seen: Seen, id: string)
    ensures Remembered(history + [seen], id) == Observed(Remembered(history, id), seen, id)
  {
    assert (history + [seen])[..|history|] == history;
  }

  lemma ReportedNow(history: seq<Seen>, seen: Seen, id: string, intervalMs: nat)
    ensures var o := Observed(Remembered(history, id), seen, id);
      Reported(history + [seen], id, intervalMs) ==
        (o.Some? && o.value.count >= 2 && seen.at - o.value.firstSeenAt >= Threshold(intervalMs))
  {
    RememberedNext(history, seen, id);
  }

  function Observe(m: map<string, Observation>, seen: Seen, id: string): map<string, Observation> {
    match Observed(Lookup(m, id), seen, id)
    case None => m - {id}
    case Some(o) => m[id := o]
  }

  function ObserveAll(m: map<string, Observation>, seen: Seen, ids: seq<string>): map<string, Observation> {
    if ids == [] then m
    else Observe(ObserveAll(m, seen, ids[..|ids| - 1]), seen, ids[|ids| - 1])
  }

  lemma {:induction false} ObserveAllLookup(m: map<string, Observation>, seen: Seen, ids: seq<string>, id: string)
    requires Distinct(ids)
    ensures Lookup(ObserveAll(m, seen, ids), id) == if id in ids then Observed(Lookup(m, id), seen, id) else Lookup(m, id)
  {
    if ids != [] {
      var init, last := ids[..|ids| - 1], ids[|ids| - 1];
      assert ids == init + [last];
      ObserveAllLookup(m, seen, init, id);
    }
  }

  lemma ObservedAreRemembered(m: map<string, Observation>, history: seq<Seen>, seen: Seen, ids: seq<string>)
    requires Distinct(ids) && forall k :: 0 <= k < |ids| ==> Lookup(m, ids[k]) == Remembered(history, ids[k])
    ensures forall k :: 0 <= k < |ids| ==>
              Lookup(ObserveAll(m, seen, ids), ids[k]) == Remembered(history + [seen], ids[k])
  {
    forall k | 0 <= k < |ids|
      ensures Lookup(ObserveAll(m, seen, ids), ids[k]) == Remembered(history + [seen], ids[k])
    {
      ObserveAllLookup(m, seen, ids, ids[k]);
      RememberedNext(history, seen, ids[k]);
    }
  }

  // ---- the effect ----

  class FileStatusPolling {
    const intervalMs: nat
    const requestedFileIDs: seq<string>

    var cancelled: bool
    var failureCount: nat
    var polling: bool
    var timer: Option<nat>
    var requestController: Option<nat>
    var missingObservations: map<string, Observation>

    // the browser's side
    var hidden: bool
    var armed: map<nat, nat>
    var live: map<nat, Run>
    var nextTimer: nat
    var nextRun: nat

    ghost var history: seq<Seen>

    ghost function State(): Poller
      reads this
    {
      Poller(cancelled, failureCount, polling, timer, requestController, hidden, armed, live, nextTimer, nextRun)
    }

    /** The map says how long each requested file has been absent, over the whole history. */
    ghost predicate Remembers()
      reads this
    {
      && Distinct(requestedFileIDs)
      && forall i :: 0 <= i < |requestedFileIDs| ==>
           Lookup(missingObservations, requestedFileIDs[i]) == Remembered(history, requestedFileIDs[i])
    }

    constructor (intervalMs: nat, requestedFileIDs: seq<string>, hidden: bool)
      requires Distinct(requestedFileIDs)
      ensures State() == Mounted(hidden) && history == [] && Remembers()
      ensures this.intervalMs == intervalMs && this.requestedFileIDs == requestedFileIDs
    {
      this.intervalMs := intervalMs;
      this.requestedFileIDs := requestedFileIDs;
      this.hidden := hidden;
      cancelled, failureCount, polling, timer, requestController := false, 0, false, None, None;
      missingObservations, armed, live, nextTimer, nextRun := map[], map[], map[], 0, 0;
      history := [];
      new;
      StartPoll();
    }

    method ScheduleNext()
      modifies this`timer, this`armed, this`nextTimer
      ensures State() == Schedule(old(State()), intervalMs)
    {
      if !cancelled && !hidden {
        timer := Some(nextTimer);
        armed := armed[nextTimer := Delay(intervalMs, failureCount)];
        nextTimer := nextTimer + 1;
      }
    }

    /** `poll` up to its first await. */
    method StartPoll()
      modifies this`polling, this`requestController, this`live, this`nextRun
      ensures State() == Poll(old(State()))
    {
      if cancelled || polling || hidden {
        return;
      }
      polling := true;
      requestController := Some(nextRun);
      live := live[nextRun := Run(Resolving, false)];
      nextRun := nextRun + 1;
    }

    method Finally(run: nat)
      modifies this`live, this`requestController, this`polling, this`timer, this`armed, this`nextTimer
      ensures State() == Settle(old(State()), run, intervalMs)
    {
      live := live - {run};
      if requestController == Some(run) {
        requestController := None;
      }
      polling := false;
      ScheduleNext();
    }

    method ClearCurrentTimer()
      modifies this`armed, this`timer
      ensures State() == ClearTimer(old(State()))
    {
      if timer.Some? {
        armed := armed - {timer.value};
        timer := None;
      }
    }

    method AbortRequest()
      modifies this`live
      ensures State() == Abort(old(State()))
    {
      if requestController.Some? && requestController.value in live {
        var c := requestController.value;
        live := live[c := live[c].(aborted := true)];
      }
    }

    method OnTimer(t: nat)
      requires Enabled(State(), Fire(t))
      modifies this
      ensures State() == Next(old(State()), Fire(t), intervalMs)
      ensures history == old(history) && missingObservations == old(missingObservations)
    {
      armed := armed - {t};
      StartPoll();
    }

    method HandleVisibilityChange(nowHidden: bool)
      modifies this
      ensures State() == Next(old(State()), Visibility(nowHidden), intervalMs)
      ensures history == old(history) && missingObservations == old(missingObservations)
    {
      hidden := nowHidden;
      if cancelled {
        return;
      }
      ClearCurrentTimer();
      if hidden {
        AbortRequest();
      } else {
        StartPoll();
      }
    }

    method Cleanup()
      modifies this
      ensures State() == Next(old(State()), Unmount, intervalMs)
      ensures history == old(history) && missingObservations == old(missingObservations)
    {
      cancelled := true;
      AbortRequest();
      if timer.Some? {
        armed := armed - {timer.value};
      }
    }

    method OnToken(run: nat, present: bool)
      requires Enabled(State(), TokenResolved(run, present))
      modifies this
      ensures State() == Next(old(State()), TokenResolved(run, present), intervalMs)
      ensures history == old(history) && missingObservations == old(missingObservations)
    {
      if !present || cancelled || live[run].aborted || hidden {
        Finally(run);
      } else {
        live := live[run := live[run].(stage := Loading)];
      }
    }

    /** Either await rejects. */
    method OnRejected(run: nat)
      requires run in live
      modifies this
      ensures State() == Failed(old(State()), run, intervalMs)
      ensures history == old(history) && missingObservations == old(missingObservations)
    {
      if !live[run].aborted {
        failureCount := failureCount + 1;
      }
      Finally(run);
    }

    /** The snapshot arrives: None after an unmount, else the files reported missing. */
    method OnLoaded(run: nat, observedAt: int, returnedFileIDs: set<string>) returns (missing: Option<seq<string>>)
      requires Enabled(State(), Loaded(run)) && Remembers()
      modifies this
      ensures State() == Next(old(State()), Loaded(run), intervalMs)
      ensures Remembers()
      ensures old(cancelled) ==> missing == None && history == old(history)
      ensures !old(cancelled) ==> history == old(history) + [Seen(observedAt, returnedFileIDs)]
      ensures !old(cancelled) ==> missing.Some? && exists picks: seq<nat> ::
                ArePicked(requestedFileIDs, history, intervalMs, picks, missing.value)
    {
      failureCount := 0;
      Finally(run);
      if cancelled {
        return None;
      }
      var ids := Process(observedAt, returnedFileIDs);
      missing := Some(ids);
    }

    /** The loop over the requested files. */
    method Process(observedAt: int, returnedFileIDs: set<string>) returns (missingFileIDs: seq<string>)
      requires Remembers()
      modifies this`missingObservations, this`history
      ensures Remembers()
      ensures history == old(history) + [Seen(observedAt, returnedFileIDs)]
      ensures exists picks: seq<nat> :: ArePicked(requestedFileIDs, history, intervalMs, picks, missingFileIDs)
    {
      missingFileIDs := [];
      ghost var seen := Seen(observedAt, returnedFileIDs);
      ghost var before, ids := missingObservations, requestedFileIDs;
      history := history + [seen];
      assert ids[..0] == [];
      for i := 0 to |requestedFileIDs|
        invariant history == old(history) + [seen]
        invariant missingObservations == ObserveAll(before, seen, ids[..i])
        invariant missingFileIDs == Missing(ids[..i], old(history) + [seen], intervalMs)
      {
        var fileID := requestedFileIDs[i];
        assert ids[..i + 1][..i] == ids[..i];
        assert fileID !in ids[..i];
        ObserveAllLookup(before, seen, ids[..i], fileID);
        ReportedNow(old(history), seen, fileID, intervalMs);
        if fileID in returnedFileIDs {
          missingObservations := missingObservations - {fileID};
          continue;
        }
        var observation :=
          if fileID in missingObservations then
            Observation(missingObservations[fileID].count + 1, missingObservations[fileID].firstSeenAt)
          else Observation(1, observedAt);
        missingObservations := missingObservations[fileID := observation];
        if observation.count >= 2 && observedAt - observation.firstSeenAt >= Threshold(intervalMs) {
          missingFileIDs := missingFileIDs + [fileID];
        }
      }
      assert ids[..|ids|] == ids;
      ObservedAreRemembered(before, old(history), seen, ids);
      ghost var picks := MissingArePicked(ids, history, intervalMs);
    }
  }
}
