/** Broadcasts come to rest, and what a tab posted reaches every tab that was listening. */
module SessionBroadcast {
  import opened SessionStore
  import opened SessionTabs

  /** Every tab that was listening holds the snapshot or has it on its way, and nothing else is on its way. */
  ghost predicate Spreading(s: System, listening: set<nat>, snapshot: Snapshot) {
    && (forall i :: 0 <= i < |s.network| ==> s.network[i].snapshot == snapshot && s.network[i].to < |s.tabs|)
    && (forall t :: t in listening ==> t < |s.tabs|)
    && (forall t :: t in listening ==> s.tabs[t].store.snapshot == snapshot || Message(t, snapshot) in s.network)
  }

  ghost function Listeners(s: System): set<nat> {
    set t: nat | t < |s.tabs| && Listens(s.tabs[t].store)
  }

  // ---- the steps that post ----

  /** The step changes its tab's snapshot and tells the peers: a write that syncs, or a reply that grants a token. */
  predicate PostsChange(s: System, a: Action)
    requires Enabled(s, a)
  {
    var t := Actor(s, a);
    && ((a.Write? && a.syncPeers) || (a.Reply? && !EndsSession(a.reply)))
    && s.tabs[t].store.supported
    && Next(s, a).tabs[t].store.snapshot != s.tabs[t].store.snapshot
  }

  lemma PostIsSent(s: System, a: Action)
    requires Enabled(s, a) && PostsChange(s, a)
    ensures var t, s' := Actor(s, a), Next(s, a);
      s'.network == s.network + Broadcast(s.tabs, t, s'.tabs[t].store.snapshot, |s.tabs|)
  {
  }

  lemma PostSpreads(s: System, a: Action)
    requires s.network == [] && Enabled(s, a) && PostsChange(s, a)
    ensures Spreading(Next(s, a), Listeners(s) + {Actor(s, a)}, Next(s, a).tabs[Actor(s, a)].store.snapshot)
  {
    PostIsSent(s, a);
    var t, s' := Actor(s, a), Next(s, a);
    BroadcastReaches(s.tabs, t, s'.tabs[t].store.snapshot, |s.tabs|);
    assert s'.network == Broadcast(s.tabs, t, s'.tabs[t].store.snapshot, |s.tabs|);
  }

  // ---- the steps that let it spread ----

  /** A delivery, or a step after which every tab holds the snapshot it held. */
  ghost predicate IsCalm(s: System, a: Action)
    requires Enabled(s, a)
  {
    a.Deliver? || (|Next(s, a).tabs| == |s.tabs|
      && forall t :: 0 <= t < |s.tabs| ==> Next(s, a).tabs[t].store.snapshot == s.tabs[t].store.snapshot)
  }

  /** Reading, all of the refresh protocol but an answer that changes the session, and writing what is there already. */
  lemma CalmSteps(s: System, a: Action)
    requires Enabled(s, a)
    requires match a
      case Write(t, u, _) => Merge(s.tabs[t].store.snapshot, u) == s.tabs[t].store.snapshot
      case Reply(j, r) => r.Failure? || (EndsSession(r) && s.tabs[s.jobs[j].tab].store.revision != s.jobs[j].phase.startedRevision)
      case RetryRejected(t) => s.tabs[t].store.snapshot == EMPTY
      case _ => true
    ensures IsCalm(s, a)
  {
  }

  lemma DeliveryShrinks(s: System, i: nat)
    requires Enabled(s, Deliver(i))
    ensures |Next(s, Deliver(i)).network| == |s.network| - 1
  {
  }

  /** Whatever posts changes a snapshot. */
  lemma CalmSendsNothing(s: System, a: Action)
    requires Enabled(s, a) && IsCalm(s, a) && !a.Deliver?
    ensures Next(s, a).network == s.network
  {
    var t := Actor(s, a);
    assert Next(s, a).tabs[t].store.snapshot == s.tabs[t].store.snapshot;
  }

  lemma DeliverySpreads(s: System, i: nat, listening: set<nat>, snapshot: Snapshot)
    requires Spreading(s, listening, snapshot) && Enabled(s, Deliver(i))
    ensures Spreading(Next(s, Deliver(i)), listening, snapshot)
  {
    var m := s.network[i];
    var s' := Next(s, Deliver(i));
    forall t | t in listening
      ensures t < |s'.tabs| && (s'.tabs[t].store.snapshot == snapshot || Message(t, snapshot) in s'.network)
    {
      if t != m.to && s.tabs[t].store.snapshot != snapshot {
        var k :| 0 <= k < |s.network| && s.network[k] == Message(t, snapshot);
        assert s'.network[if k < i then k else k - 1] == Message(t, snapshot);
      }
    }
  }

  lemma CalmSpreads(s: System, a: Action, listening: set<nat>, snapshot: Snapshot)
    requires Spreading(s, listening, snapshot) && Enabled(s, a) && IsCalm(s, a)
    ensures Spreading(Next(s, a), listening, snapshot)
    ensures |Next(s, a).network| == |s.network| - if a.Deliver? then 1 else 0
  {
    if a.Deliver? {
      DeliverySpreads(s, a.index, listening, snapshot);
      DeliveryShrinks(s, a.index);
    } else {
      CalmSendsNothing(s, a);
    }
  }

  ghost predicate IsCalmRun(states: seq<System>, actions: seq<Action>) {
    IsRun(states, actions) && forall i :: 0 <= i < |actions| ==> IsCalm(states[i], actions[i])
  }

  function Deliveries(actions: seq<Action>): nat {
    if actions == [] then 0
    else Deliveries(actions[..|actions| - 1]) + if actions[|actions| - 1].Deliver? then 1 else 0
  }

  /** Only deliveries change the network, each by one message, so no more can follow than are on their way. */
  lemma {:induction false} DeliveriesSpread(states: seq<System>, actions: seq<Action>, listening: set<nat>, snapshot: Snapshot)
    requires IsCalmRun(states, actions) && Spreading(states[0], listening, snapshot)
    ensures Spreading(states[|actions|], listening, snapshot)
    ensures |states[|actions|].network| == |states[0].network| - Deliveries(actions)
    decreases |actions|
  {
    if actions != [] {
      var n := |actions| - 1;
      assert IsCalmRun(states[..n + 1], actions[..n]);
      DeliveriesSpread(states[..n + 1], actions[..n], listening, snapshot);
      CalmSpreads(states[n], actions[n], listening, snapshot);
    }
  }

  /**
   * A change posted into a quiet system, by a write or by a granted token, then any steps that
   * change no session but by a delivery, in any order: as many deliveries as messages were sent
   * empty the network, and with it empty every tab that was listening holds what was posted.
   */
  lemma PostReachesEveryone(s: System, a: Action, states: seq<System>, actions: seq<Action>)
    requires s.network == [] && Enabled(s, a) && PostsChange(s, a)
    requires IsCalmRun(states, actions) && states[0] == Next(s, a)
    ensures var end := states[|actions|];
      && |end.network| == |states[0].network| - Deliveries(actions)
      && (end.network == [] ==> forall t :: t in Listeners(s) + {Actor(s, a)} ==>
            t < |end.tabs| && end.tabs[t].store.snapshot == states[0].tabs[Actor(s, a)].store.snapshot)
  {
    PostSpreads(s, a);
    DeliveriesSpread(states, actions, Listeners(s) + {Actor(s, a)}, states[0].tabs[Actor(s, a)].store.snapshot);
  }

  /** In every reachable state with messages left, one can be delivered. */
  lemma DrainNeverBlocks(s: System)
    requires Reachable(s) && s.network != []
    ensures Enabled(s, Deliver(0))
  {
    ReachableInv(s);
  }
}
