/**
 * What the session protocol guarantees over whole runs: one refresh at a time, an answer for
 * every caller, and no clear of a session that changed meanwhile.
 */
module SessionSafety {
  import opened Wrappers
  import opened SessionStore
  import opened SessionTabs

  // ---- one refresh at a time ----

  ghost predicate InFlight(s: System, j: nat) {
    j < |s.jobs| && s.jobs[j].phase.Requesting?
  }

  ghost predicate AtMostOneRequest(s: System) {
    forall j, k :: InFlight(s, j) && InFlight(s, k) ==> j == k
  }

  /** A tab never has two unfinished refreshes, and its promise stands for the one it has. */
  lemma OnePendingPerTab(s: System, j: nat, k: nat)
    requires Reachable(s) && j < |s.jobs| && k < |s.jobs|
    requires s.jobs[j].tab == s.jobs[k].tab && !s.jobs[j].phase.Done? && !s.jobs[k].phase.Done?
    ensures j == k && s.jobs[j].tab < |s.tabs| && s.tabs[s.jobs[j].tab].promise == Some(j)
  {
    ReachableInv(s);
  }

  /** A caller is answered exactly when its refresh is done, and with what that refresh came to. */
  lemma EveryCallerServed(s: System, j: nat, c: nat)
    requires Reachable(s) && j < |s.jobs| && c in s.jobs[j].joined
    ensures c in s.answers <==> s.jobs[j].phase.Done?
    ensures c in s.answers ==> s.answers[c] == s.jobs[j].phase.outcome
    ensures forall k :: 0 <= k < |s.jobs| && c in s.jobs[k].joined ==> k == j
  {
    ReachableInv(s);
  }

  /** While the browser's lock excludes, no two refresh requests are in flight in all tabs together. */
  lemma LockedRefreshesExclude(s: System)
    requires Reachable(s) && s.locks
    ensures AtMostOneRequest(s)
  {
    ReachableInv(s);
  }

  function Fresh(n: nat, locks: bool): System {
    System(seq(n, i => Tab(Store(EMPTY, 0, true, false), None)), [], locks, None, [], map[])
  }

  /** Two tabs without locks: both ask, both requests are out. */
  lemma TwoTabsRace(n: nat) returns (s: System)
    requires n >= 2
    ensures Reachable(s) && |s.tabs| == n && !s.locks && !AtMostOneRequest(s)
  {
    var s0 := Fresh(n, false);
    var a0, a1 := Refresh(0, 0, ""), Refresh(1, 1, "");
    var s1 := Next(s0, a0);
    assert s1.tabs[1].promise == None && s1.jobs[0].joined == {0};
    var s2 := Next(s1, a1);
    s := s2;
    assert InFlight(s, 0) && InFlight(s, 1);
    assert IsRun([s0, s1, s2], [a0, a1]);
    assert [s0, s1, s2][|[a0, a1]|] == s;
  }

  lemma ConfigurationStays(s: System, a: Action)
    requires Enabled(s, a)
    ensures |Next(s, a).tabs| == |s.tabs| && Next(s, a).locks == s.locks
  {
  }

  /** Exclusion over every run holds with the lock or in a single tab, and in no other setting. */
  lemma ExclusionExactly(n: nat, locks: bool)
    ensures (forall s :: Reachable(s) && |s.tabs| == n && s.locks == locks ==> AtMostOneRequest(s)) <==> (locks || n <= 1)
  {
    if locks || n <= 1 {
      forall s | Reachable(s) && |s.tabs| == n && s.locks == locks
        ensures AtMostOneRequest(s)
      {
        ReachableInv(s);
        if !locks {
          forall j, k | InFlight(s, j) && InFlight(s, k)
            ensures j == k
          {
            OnePendingPerTab(s, j, k);
          }
        }
      }
    } else {
      var s := TwoTabsRace(n);
    }
  }

  // ---- when a request goes out and what it brings ----

  /** A request goes out only for a tab that has no token, or no other than the one that failed. */
  lemma NoNeedlessRequest(s: System, a: Action, j: nat)
    requires Reachable(s) && Enabled(s, a) && !InFlight(s, j) && InFlight(Next(s, a), j)
    ensures var s' := Next(s, a);
      && s'.jobs[j].tab < |s'.tabs|
      && s'.tabs[s'.jobs[j].tab].store.snapshot.accessToken in {"", s'.jobs[j].failedToken}
  {
    ReachableInv(s);
  }

  ghost predicate IsSettled(s: System, j: nat) {
    j < |s.jobs| && s.jobs[j].phase.Settled?
  }

  /** A token a refresh settles with is the token its tab holds in that moment. */
  lemma SettledTokenIsHeld(s: System, a: Action, j: nat)
    requires Reachable(s) && Enabled(s, a) && !IsSettled(s, j) && IsSettled(Next(s, a), j)
    ensures var s' := Next(s, a);
      s'.jobs[j].phase.outcome.Token? && s'.jobs[j].phase.outcome.token != "" ==>
        s'.jobs[j].tab < |s'.tabs| && s'.tabs[s'.jobs[j].tab].store.snapshot.accessToken == s'.jobs[j].phase.outcome.token
  {
    ReachableInv(s);
  }

  /** A refresh that ends the session ends it in its own tab only: no message, no other tab. */
  lemma ClearStaysLocal(s: System, j: nat, r: SessionStore.Reply)
    requires Enabled(s, Reply(j, r)) && EndsSession(r)
    ensures Next(s, Reply(j, r)).network == s.network
    ensures forall t :: 0 <= t < |s.tabs| && t != s.jobs[j].tab ==> Next(s, Reply(j, r)).tabs[t] == s.tabs[t]
  {
  }

  // ---- no stale clear ----

  /** A step raises a tab's revision exactly when it changes that tab's snapshot, and then by one. */
  lemma RevisionCounts(s: System, a: Action, t: nat)
    requires Enabled(s, a) && t < |s.tabs|
    ensures |Next(s, a).tabs| == |s.tabs|
    ensures var old_, new_ := s.tabs[t].store, Next(s, a).tabs[t].store;
      new_.revision == old_.revision + (if new_.snapshot == old_.snapshot then 0 else 1)
  {
  }

  lemma {:induction false} TabsStay(states: seq<System>, actions: seq<Action>, i: nat)
    requires IsRun(states, actions) && i <= |actions|
    ensures |states[i].tabs| == |states[0].tabs|
  {
    if i > 0 {
      TabsStay(states, actions, i - 1);
      ConfigurationStays(states[i - 1], actions[i - 1]);
    }
  }

  /** The stores tab t goes through. */
  ghost function History(states: seq<System>, t: nat): (h: seq<Store>)
    requires forall k :: 0 <= k < |states| ==> t < |states[k].tabs|
    ensures |h| == |states|
  {
    seq(|states|, k requires 0 <= k < |states| => states[k].tabs[t].store)
  }

  ghost predicate Counts(h: seq<Store>) {
    forall k :: 0 <= k < |h| - 1 ==>
      h[k + 1].revision == h[k].revision + if h[k + 1].snapshot == h[k].snapshot then 0 else 1
  }

  lemma HistoryCounts(states: seq<System>, actions: seq<Action>, t: nat)
    requires IsRun(states, actions)
    requires forall k :: 0 <= k < |states| ==> t < |states[k].tabs|
    ensures Counts(History(states, t))
  {
    var h := History(states, t);
    forall k | 0 <= k < |h| - 1
      ensures h[k + 1].revision == h[k].revision + if h[k + 1].snapshot == h[k].snapshot then 0 else 1
    {
      RevisionCounts(states[k], actions[k], t);
    }
  }

  /** The snapshot is one and the same from i to j, all the way through. */
  ghost predicate Undisturbed(h: seq<Store>, i: nat, j: nat)
    requires i <= j < |h|
  {
    forall k :: i <= k <= j ==> h[k].snapshot == h[i].snapshot
  }

  /** Equal revisions at both ends of an interval mean the snapshot never moved inside it, and back. */
  lemma {:induction false} RevisionTellsChange(h: seq<Store>, i: nat, j: nat)
    requires Counts(h) && i <= j < |h|
    ensures h[i].revision <= h[j].revision
    ensures h[i].revision == h[j].revision <==> Undisturbed(h, i, j)
    decreases j
  {
    if i < j {
      RevisionTellsChange(h, i, j - 1);
      assert h[j] == h[(j - 1) + 1];
    }
  }

  /** A request in flight keeps the revision it started from; it was there before or begins with this step. */
  lemma RequestStep(s: System, a: Action, j: nat)
    requires Inv(s) && Enabled(s, a) && j < |Next(s, a).jobs| && Next(s, a).jobs[j].phase.Requesting?
    ensures if j < |s.jobs| && s.jobs[j].phase.Requesting? then
        Next(s, a).jobs[j].phase == s.jobs[j].phase && Next(s, a).jobs[j].tab == s.jobs[j].tab
      else
        Next(s, a).jobs[j].tab < |Next(s, a).tabs|
        && Next(s, a).jobs[j].phase.startedRevision == Next(s, a).tabs[Next(s, a).jobs[j].tab].store.revision
  {
  }

  /** i is the state in which job j's request went out, and it is still out in every state up to n. */
  ghost predicate InFlightSince(states: seq<System>, j: nat, i: nat, n: nat)
    requires n < |states|
  {
    && i <= n
    && (forall k :: i <= k <= n ==> InFlight(states[k], j))
    && (i > 0 ==> !InFlight(states[i - 1], j))
  }

  /** The same for one step of a run. */
  lemma RequestInRun(states: seq<System>, actions: seq<Action>, j: nat, n: nat)
    requires IsRun(states, actions) && Start(states[0]) && 0 < n <= |actions| && InFlight(states[n], j)
    ensures if InFlight(states[n - 1], j) then
        states[n].jobs[j].phase == states[n - 1].jobs[j].phase && states[n].jobs[j].tab == states[n - 1].jobs[j].tab
      else
        states[n].jobs[j].tab < |states[n].tabs|
        && states[n].jobs[j].phase.startedRevision == states[n].tabs[states[n].jobs[j].tab].store.revision
  {
    RunInv(states, actions, n - 1);
    assert states[n] == Next(states[n - 1], actions[n - 1]);
    RequestStep(states[n - 1], actions[n - 1], j);
  }

  lemma {:induction false} StartedRevisionHeld(states: seq<System>, actions: seq<Action>, j: nat, i: nat, n: nat)
    requires IsRun(states, actions) && Start(states[0]) && n <= |actions| && InFlightSince(states, j, i, n)
    ensures states[n].jobs[j].tab == states[i].jobs[j].tab < |states[i].tabs|
    ensures states[n].jobs[j].phase.startedRevision == states[i].tabs[states[i].jobs[j].tab].store.revision
    decreases n
  {
    assert InFlight(states[n], j);
    RequestInRun(states, actions, j, n);
    if i < n {
      assert InFlight(states[n - 1], j);
      StartedRevisionHeld(states, actions, j, i, n - 1);
    }
  }

  /**
   * Over every interleaving: a refresh that went out in state i and comes back empty-handed after
   * state n empties its tab's session if no change at all happened there since, not even one
   * that was undone, and otherwise leaves the session exactly as it is.
   */
  lemma NoStaleClear(states: seq<System>, actions: seq<Action>, j: nat, i: nat, n: nat)
    requires IsRun(states, actions) && Start(states[0]) && n < |actions| && InFlightSince(states, j, i, n)
    requires actions[n].Reply? && actions[n].job == j && EndsSession(actions[n].reply)
    ensures var t := states[n].jobs[j].tab;
      && (forall k :: 0 <= k < |states| ==> t < |states[k].tabs|)
      && states[n + 1].tabs[t].store.snapshot
         == if Undisturbed(History(states, t), i, n) then EMPTY else states[n].tabs[t].store.snapshot
  {
    assert InFlight(states[n], j);
    var t := states[n].jobs[j].tab;
    StartedRevisionHeld(states, actions, j, i, n);
    TabsStay(states, actions, i);
    forall k | 0 <= k < |states|
      ensures t < |states[k].tabs|
    {
      TabsStay(states, actions, k);
    }
    HistoryCounts(states, actions, t);
    RevisionTellsChange(History(states, t), i, n);
    assert states[n + 1] == Next(states[n], actions[n]);
  }
}
