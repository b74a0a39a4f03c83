/**
 * Any number of tabs, any number of callers in each, messages in flight between them, and the
 * refresh protocol, as one state machine whose steps interleave in every order.
 */
module SessionTabs {
  import opened Wrappers
  import opened SessionStore

  datatype Message = Message(to: nat, snapshot: Snapshot)

  /** A refresh ever started: its tab, the token that failed, how far it is and who awaits it. */
  datatype Job = Job(tab: nat, failedToken: string, phase: Phase, joined: set<nat>)

  /** promise: the job `refreshAccessTokenPromise` stands for. */
  datatype Tab = Tab(store: Store, promise: Option<nat>)

  datatype System = System(
    tabs: seq<Tab>,
    jobs: seq<Job>,
    locks: bool,
    holder: Option<nat>,
    network: seq<Message>,
    answers: map<nat, Outcome>)

  datatype Action =
    | Write(tab: nat, update: Update, syncPeers: bool)
    | Read(tab: nat)
    | Deliver(index: nat)
    | Refresh(tab: nat, caller: nat, failedToken: string)
    | Grant(job: nat)
    | Reply(job: nat, reply: SessionStore.Reply)
    | Finish(job: nat)
    | RetryRejected(tab: nat)

  ghost predicate Start(s: System) {
    && s.jobs == [] && s.holder == None && s.network == [] && s.answers == map[]
    && forall t :: 0 <= t < |s.tabs| ==>
         s.tabs[t].promise == None && s.tabs[t].store == Store(EMPTY, 0, s.tabs[t].store.supported, false)
  }

  predicate Enabled(s: System, a: Action) {
    match a
    case Write(t, _, _) => t < |s.tabs|
    case Read(t) => t < |s.tabs|
    case Deliver(i) => i < |s.network| && s.network[i].to < |s.tabs|
    case Refresh(t, c, _) =>
      && t < |s.tabs|
      && (forall j :: 0 <= j < |s.jobs| ==> c !in s.jobs[j].joined)
      && (s.tabs[t].promise.Some? ==> s.tabs[t].promise.value < |s.jobs|)
    case Grant(j) =>
      j < |s.jobs| && s.jobs[j].tab < |s.tabs| && s.jobs[j].phase.Waiting? && s.locks && s.holder == None
    case Reply(j, _) => j < |s.jobs| && s.jobs[j].tab < |s.tabs| && s.jobs[j].phase.Requesting?
    case Finish(j) => j < |s.jobs| && s.jobs[j].tab < |s.tabs| && s.jobs[j].phase.Settled?
    case RetryRejected(t) => t < |s.tabs|
  }

  /** One copy of each posted snapshot for every other tab with an open channel. */
  function Broadcast(tabs: seq<Tab>, from: nat, snapshot: Snapshot, n: nat): seq<Message>
    requires n <= |tabs|
  {
    if n == 0 then []
    else
      var t := n - 1;
      Broadcast(tabs, from, snapshot, t)
        + (if t != from && Listens(tabs[t].store) then [Message(t, snapshot)] else [])
  }

  function Sent(tabs: seq<Tab>, from: nat, posts: seq<Snapshot>): seq<Message> {
    if posts == [] then [] else Broadcast(tabs, from, posts[0], |tabs|)
  }

  function WithStore(s: System, t: nat, st: Store): System
    requires t < |s.tabs|
  {
    s.(tabs := s.tabs[t := s.tabs[t].(store := st)])
  }

  function WithPhase(s: System, j: nat, p: Phase): System
    requires j < |s.jobs|
  {
    s.(jobs := s.jobs[j := s.jobs[j].(phase := p)])
  }

  /** `refresh` runs inside the lock; it is released as soon as no request is in flight. */
  function Started(s: System, j: nat): System
    requires j < |s.jobs| && s.jobs[j].tab < |s.tabs|
  {
    var st := s.tabs[s.jobs[j].tab].store;
    var p := Begin(st, s.jobs[j].failedToken);
    var s' := WithPhase(WithStore(s, s.jobs[j].tab, Opened(st)), j, p);
    if s.locks && p.Requesting? then s'.(holder := Some(j)) else s'
  }

  /** A new job for an idle tab, waiting. */
  function Added(s: System, t: nat, c: nat, failed: string): System
    requires t < |s.tabs|
  {
    s.(jobs := s.jobs + [Job(t, failed, Waiting, {c})],
       tabs := s.tabs[t := s.tabs[t].(promise := Some(|s.jobs|))])
  }

  function Next(s: System, a: Action): System
    requires Enabled(s, a)
  {
    match a
    case Write(t, u, sync) =>
      var st := s.tabs[t].store;
      WithStore(s, t, Apply(st, u)).(network := s.network + Sent(s.tabs, t, Posts(st, u, sync)))
    case Read(t) => WithStore(s, t, Opened(s.tabs[t].store))
    case Deliver(i) =>
      var m := s.network[i];
      WithStore(s, m.to, Apply(s.tabs[m.to].store, Whole(m.snapshot)))
        .(network := s.network[..i] + s.network[i + 1..])
    case Refresh(t, c, failed) =>
      if s.tabs[t].promise.Some? then
        var j := s.tabs[t].promise.value;
        s.(jobs := s.jobs[j := s.jobs[j].(joined := s.jobs[j].joined + {c})])
      else if s.locks then Added(s, t, c, failed)
      else Started(Added(s, t, c, failed), |s.jobs|)
    case Grant(j) => Started(s, j)
    case Reply(j, r) =>
      var t := s.jobs[j].tab;
      var a := Answer(s.tabs[t].store, s.jobs[j].phase.startedRevision, r);
      WithPhase(WithStore(s, t, a.store), j, Settled(a.outcome))
        .(network := s.network + Sent(s.tabs, t, a.posts), holder := if s.holder == Some(j) then None else s.holder)
    case Finish(j) =>
      var o := s.jobs[j].phase.outcome;
      var t := s.jobs[j].tab;
      WithPhase(s, j, Done(o)).(
        tabs := s.tabs[t := s.tabs[t].(promise := None)],
        answers := map c | c in s.answers.Keys + s.jobs[j].joined :: if c in s.jobs[j].joined then o else s.answers[c])
    case RetryRejected(t) => WithStore(s, t, Apply(s.tabs[t].store, CLEAR))
  }

  /** The tab a step happens in. */
  function Actor(s: System, a: Action): nat
    requires Enabled(s, a)
  {
    match a
    case Write(t, _, _) => t
    case Read(t) => t
    case Deliver(i) => s.network[i].to
    case Refresh(t, _, _) => t
    case Grant(j) => s.jobs[j].tab
    case Reply(j, _) => s.jobs[j].tab
    case Finish(j) => s.jobs[j].tab
    case RetryRejected(t) => t
  }

  // ---- runs ----

  ghost predicate IsRun(states: seq<System>, actions: seq<Action>) {
    && |states| == |actions| + 1
    && forall i :: 0 <= i < |actions| ==> Enabled(states[i], actions[i]) && states[i + 1] == Next(states[i], actions[i])
  }

  ghost predicate Reachable(s: System) {
    exists states: seq<System>, actions: seq<Action> ::
      IsRun(states, actions) && Start(states[0]) && states[|actions|] == s
  }

  // ---- one refresh at a time ----

  ghost predicate PromisesPoint(s: System) {
    && (forall t :: 0 <= t < |s.tabs| && s.tabs[t].promise.Some? ==>
          var j := s.tabs[t].promise.value;
          j < |s.jobs| && s.jobs[j].tab == t && !s.jobs[j].phase.Done?)
    && (forall j :: 0 <= j < |s.jobs| ==> s.jobs[j].tab < |s.tabs|)
    && (forall j :: 0 <= j < |s.jobs| && !s.jobs[j].phase.Done? ==> s.tabs[s.jobs[j].tab].promise == Some(j))
  }

  ghost predicate LockGuards(s: System) {
    && (s.locks ==> forall j :: 0 <= j < |s.jobs| ==> (s.jobs[j].phase.Requesting? <==> s.holder == Some(j)))
    && (s.holder.Some? ==> s.locks && s.holder.value < |s.jobs|)
    && (!s.locks ==> forall j :: 0 <= j < |s.jobs| ==> !s.jobs[j].phase.Waiting?)
  }

  ghost predicate CallersServed(s: System) {
    && (forall j, k, c :: 0 <= j < |s.jobs| && 0 <= k < |s.jobs| && c in s.jobs[j].joined && c in s.jobs[k].joined ==> j == k)
    && (forall j, c :: 0 <= j < |s.jobs| && c in s.jobs[j].joined ==>
          if s.jobs[j].phase.Done? then c in s.answers && s.answers[c] == s.jobs[j].phase.outcome
          else c !in s.answers)
    && (forall c :: c in s.answers ==> exists j :: 0 <= j < |s.jobs| && c in s.jobs[j].joined)
    && (forall i :: 0 <= i < |s.network| ==> s.network[i].to < |s.tabs|)
  }

  ghost predicate Inv(s: System) {
    PromisesPoint(s) && LockGuards(s) && CallersServed(s)
  }

  lemma StartInv(s: System)
    requires Start(s)
    ensures Inv(s)
  {
  }

  /** A broadcast goes to every other open channel, and to nobody else. */
  lemma {:induction false} BroadcastReaches(tabs: seq<Tab>, from: nat, snapshot: Snapshot, n: nat)
    requires n <= |tabs|
    ensures forall t :: 0 <= t < n && t != from && Listens(tabs[t].store) ==> Message(t, snapshot) in Broadcast(tabs, from, snapshot, n)
    ensures forall m :: m in Broadcast(tabs, from, snapshot, n) ==> m.snapshot == snapshot && m.to < n && Listens(tabs[m.to].store)
  {
    if n > 0 {
      BroadcastReaches(tabs, from, snapshot, n - 1);
    }
  }

  /** Steps that only touch stores and messages leave the refresh protocol as it is. */
  ghost predicate SameProtocol(s: System, s': System) {
    && s'.jobs == s.jobs && s'.locks == s.locks && s'.holder == s.holder && s'.answers == s.answers
    && |s'.tabs| == |s.tabs|
    && (forall t :: 0 <= t < |s.tabs| ==> s'.tabs[t].promise == s.tabs[t].promise)
    && (forall i :: 0 <= i < |s'.network| ==> s'.network[i].to < |s.tabs|)
  }

  lemma SameProtocolKeeps(s: System, s': System)
    requires Inv(s) && SameProtocol(s, s')
    ensures Inv(s')
  {
  }

  lemma SentReaches(s: System, from: nat, posts: seq<Snapshot>)
    ensures var ms := Sent(s.tabs, from, posts);
      forall i :: 0 <= i < |ms| ==> ms[i].to < |s.tabs|
  {
    if posts != [] {
      BroadcastReaches(s.tabs, from, posts[0], |s.tabs|);
      var ms := Sent(s.tabs, from, posts);
      assert forall i :: 0 <= i < |ms| ==> ms[i] in ms;
    }
  }

  lemma StoreStep(s: System, a: Action)
    requires Inv(s) && Enabled(s, a)
    requires a.Write? || a.Read? || a.Deliver? || a.RetryRejected?
    ensures Inv(Next(s, a))
  {
    if a.Write? {
      SentReaches(s, a.tab, Posts(s.tabs[a.tab].store, a.update, a.syncPeers));
    }
    SameProtocolKeeps(s, Next(s, a));
  }

  /** A job moves from one unfinished phase to another, its tab's store and the messages along with it. */
  lemma PhaseStep(s: System, s': System, j: nat, p: Phase)
    requires PromisesPoint(s) && CallersServed(s) && j < |s.jobs| && !s.jobs[j].phase.Done? && !p.Done?
    requires s'.jobs == s.jobs[j := s.jobs[j].(phase := p)]
    requires s'.locks == s.locks && s'.answers == s.answers && |s'.tabs| == |s.tabs|
    requires forall t :: 0 <= t < |s.tabs| ==> s'.tabs[t].promise == s.tabs[t].promise
    requires forall i :: 0 <= i < |s'.network| ==> s'.network[i].to < |s.tabs|
    requires LockGuards(s')
    ensures Inv(s')
  {
    assert PromisesPoint(s');
    AnswersKnown(s, s');
  }

  lemma StartedStep(s: System, j: nat)
    requires Inv(s) && j < |s.jobs| && !s.jobs[j].phase.Done? && !s.jobs[j].phase.Requesting?
    requires s.locks ==> s.holder == None
    ensures Inv(Started(s, j))
  {
    var s' := Started(s, j);
    PhaseStep(s, s', j, s'.jobs[j].phase);
  }

  /** Every answered caller is known to some job of s', which has the jobs of s with more callers or another phase. */
  lemma AnswersKnown(s: System, s': System)
    requires CallersServed(s) && |s.jobs| <= |s'.jobs| && s'.answers == s.answers
    requires forall k :: 0 <= k < |s.jobs| ==> s.jobs[k].joined <= s'.jobs[k].joined
    ensures forall c :: c in s'.answers ==> exists k :: 0 <= k < |s'.jobs| && c in s'.jobs[k].joined
  {
    forall c | c in s'.answers
      ensures exists k :: 0 <= k < |s'.jobs| && c in s'.jobs[k].joined
    {
      var k :| 0 <= k < |s.jobs| && c in s.jobs[k].joined;
      assert c in s'.jobs[k].joined;
    }
  }

  /** A caller in no job has no answer yet. */
  lemma StrangerUnanswered(s: System, c: nat)
    requires CallersServed(s) && forall j :: 0 <= j < |s.jobs| ==> c !in s.jobs[j].joined
    ensures c !in s.answers
  {
  }

  lemma NewJobPromises(s: System, t: nat, c: nat, failed: string)
    requires PromisesPoint(s) && t < |s.tabs| && s.tabs[t].promise == None
    ensures PromisesPoint(Added(s, t, c, failed))
  {
  }

  lemma NewJobCallers(s: System, t: nat, c: nat, failed: string)
    requires CallersServed(s) && t < |s.tabs|
    requires forall j :: 0 <= j < |s.jobs| ==> c !in s.jobs[j].joined
    ensures CallersServed(Added(s, t, c, failed))
  {
    AnswersKnown(s, Added(s, t, c, failed));
    StrangerUnanswered(s, c);
  }

  lemma JoinCallers(s: System, s': System, j: nat, c: nat)
    requires CallersServed(s) && j < |s.jobs| && !s.jobs[j].phase.Done?
    requires forall k :: 0 <= k < |s.jobs| ==> c !in s.jobs[k].joined
    requires s' == s.(jobs := s.jobs[j := s.jobs[j].(joined := s.jobs[j].joined + {c})])
    ensures CallersServed(s')
  {
    AnswersKnown(s, s');
    StrangerUnanswered(s, c);
  }

  lemma JoinStep(s: System, t: nat, c: nat, failed: string)
    requires Inv(s) && Enabled(s, Refresh(t, c, failed)) && s.tabs[t].promise.Some?
    ensures Inv(Next(s, Refresh(t, c, failed)))
  {
    JoinCallers(s, Next(s, Refresh(t, c, failed)), s.tabs[t].promise.value, c);
  }

  lemma NewJobWaits(s: System, t: nat, c: nat, failed: string)
    requires Inv(s) && Enabled(s, Refresh(t, c, failed)) && s.tabs[t].promise == None && s.locks
    ensures Inv(Next(s, Refresh(t, c, failed)))
  {
    NewJobPromises(s, t, c, failed);
    NewJobCallers(s, t, c, failed);
    assert Next(s, Refresh(t, c, failed)) == Added(s, t, c, failed);
  }

  /** Without locks the new job begins at once. */
  lemma NewJobBegins(s: System, t: nat, c: nat, failed: string)
    requires Inv(s) && Enabled(s, Refresh(t, c, failed)) && s.tabs[t].promise == None && !s.locks
    ensures Inv(Next(s, Refresh(t, c, failed)))
  {
    NewJobPromises(s, t, c, failed);
    NewJobCallers(s, t, c, failed);
    var mid := Added(s, t, c, failed);
    var s' := Started(mid, |s.jobs|);
    assert Next(s, Refresh(t, c, failed)) == s';
    PhaseStep(mid, s', |s.jobs|, s'.jobs[|s.jobs|].phase);
  }

  lemma ReplyStep(s: System, j: nat, r: SessionStore.Reply)
    requires Inv(s) && Enabled(s, Reply(j, r))
    ensures Inv(Next(s, Reply(j, r)))
  {
    var t := s.jobs[j].tab;
    var a := Answer(s.tabs[t].store, s.jobs[j].phase.startedRevision, r);
    SentReaches(s, t, a.posts);
    var s' := Next(s, Reply(j, r));
    PhaseStep(s, s', j, Settled(a.outcome));
  }

  lemma FinishCallers(s: System, j: nat)
    requires CallersServed(s) && Enabled(s, Finish(j))
    ensures CallersServed(Next(s, Finish(j)))
  {
    var s' := Next(s, Finish(j));
    forall d | d in s'.answers
      ensures exists k :: 0 <= k < |s'.jobs| && d in s'.jobs[k].joined
    {
      if d in s.jobs[j].joined {
        assert d in s'.jobs[j].joined;
      } else {
        var k :| 0 <= k < |s.jobs| && d in s.jobs[k].joined;
        assert d in s'.jobs[k].joined;
      }
    }
  }

  lemma FinishStep(s: System, j: nat)
    requires Inv(s) && Enabled(s, Finish(j))
    ensures Inv(Next(s, Finish(j)))
  {
    FinishCallers(s, j);
  }

  lemma StepInv(s: System, a: Action)
    requires Inv(s) && Enabled(s, a)
    ensures Inv(Next(s, a))
  {
    match a
    case Refresh(t, c, failed) =>
      if s.tabs[t].promise.Some? {
        JoinStep(s, t, c, failed);
      } else if s.locks {
        NewJobWaits(s, t, c, failed);
      } else {
        NewJobBegins(s, t, c, failed);
      }
    case Grant(j) => StartedStep(s, j);
    case Reply(j, r) => ReplyStep(s, j, r);
    case Finish(j) => FinishStep(s, j);
    case _ => StoreStep(s, a);
  }

  lemma {:induction false} RunInv(states: seq<System>, actions: seq<Action>, i: nat)
    requires IsRun(states, actions) && Start(states[0]) && i <= |actions|
    ensures Inv(states[i])
  {
    if i == 0 {
      StartInv(states[0]);
    } else {
      RunInv(states, actions, i - 1);
      StepInv(states[i - 1], actions[i - 1]);
    }
  }

  lemma ReachableInv(s: System)
    requires Reachable(s)
    ensures Inv(s)
  {
    var states: seq<System>, actions: seq<Action> :|
      IsRun(states, actions) && Start(states[0]) && states[|actions|] == s;
    RunInv(states, actions, |actions|);
  }
}
