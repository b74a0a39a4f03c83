/**
 * One tab's side of the refresh protocol: the module variable that holds the promise, the steps
 * between its awaits, and the proof that the system of many tabs does in each tab just this.
 */
module RefreshClient {
  import opened Wrappers
  import opened SessionStore
  import opened SessionTabs

  /** The promise: the token it was started for, how far it is, and the callers that await it. */
  datatype Pending = Pending(failedToken: string, phase: Phase, joined: set<nat>)

  datatype Client = Client(store: Store, pending: Option<Pending>)

  function Began(c: Client, failedToken: string, joined: set<nat>): Client {
    Client(Opened(c.store), Some(Pending(failedToken, Begin(c.store, failedToken), joined)))
  }

  /** `refreshAccessToken`: join the promise there is, or make one. */
  function Called(c: Client, caller: nat, failedToken: string, locks: bool): Client {
    if c.pending.Some? then
      c.(pending := Some(c.pending.value.(joined := c.pending.value.joined + {caller})))
    else if locks then c.(pending := Some(Pending(failedToken, Waiting, {caller})))
    else Began(c, failedToken, {caller})
  }

  predicate IsWaiting(c: Client) {
    c.pending.Some? && c.pending.value.phase.Waiting?
  }

  predicate IsRequesting(c: Client) {
    c.pending.Some? && c.pending.value.phase.Requesting?
  }

  predicate IsSettled(c: Client) {
    c.pending.Some? && c.pending.value.phase.Settled?
  }

  function LockGranted(c: Client): Client
    requires IsWaiting(c)
  {
    Began(c, c.pending.value.failedToken, c.pending.value.joined)
  }

  function Replied(c: Client, r: SessionStore.Reply): Client
    requires IsRequesting(c)
  {
    var a := Answer(c.store, c.pending.value.phase.startedRevision, r);
    Client(a.store, Some(c.pending.value.(phase := Settled(a.outcome))))
  }

  /** The snapshots posted on a reply. */
  function RepliedPosts(c: Client, r: SessionStore.Reply): seq<Snapshot>
    requires IsRequesting(c)
  {
    Answer(c.store, c.pending.value.phase.startedRevision, r).posts
  }

  /** One outcome for every caller that joined. */
  function Answers(c: Client): map<nat, Outcome>
    requires IsSettled(c)
  {
    map caller | caller in c.pending.value.joined :: c.pending.value.phase.outcome
  }

  // ---- the system in one tab ----

  function View(s: System, t: nat): Client
    requires t < |s.tabs| && (s.tabs[t].promise.Some? ==> s.tabs[t].promise.value < |s.jobs|)
  {
    Client(
      s.tabs[t].store,
      match s.tabs[t].promise
      case None => None
      case Some(j) => Some(Pending(s.jobs[j].failedToken, s.jobs[j].phase, s.jobs[j].joined)))
  }

  /** A step changes, besides its own tab, no other tab and no job of another tab. */
  lemma OnlyActorMoves(s: System, a: Action, t: nat)
    requires PromisesPoint(s) && Enabled(s, a) && t < |s.tabs| && t != Actor(s, a)
    ensures var s' := Next(s, a);
      |s'.tabs| == |s.tabs| && s'.tabs[t] == s.tabs[t]
      && forall k :: 0 <= k < |s.jobs| && s.jobs[k].tab == t ==> k < |s'.jobs| && s'.jobs[k] == s.jobs[k]
  {
  }

  /** A step of the system leaves every tab but its own alone. */
  lemma OthersUntouched(s: System, a: Action, t: nat)
    requires Inv(s) && Enabled(s, a) && t < |s.tabs| && t != Actor(s, a)
    ensures Inv(Next(s, a)) && t < |Next(s, a).tabs|
    ensures View(Next(s, a), t) == View(s, t)
  {
    StepInv(s, a);
    OnlyActorMoves(s, a, t);
  }

  /** What one tab's client posts to its peers in a step. */
  function Posted(c: Client, a: Action): seq<Snapshot> {
    match a
    case Write(_, u, sync) => Posts(c.store, u, sync)
    case Reply(_, r) => if IsRequesting(c) then RepliedPosts(c, r) else []
    case _ => []
  }

  /** What it hands to the callers that await its promise. */
  function HandedOut(c: Client, a: Action): map<nat, Outcome> {
    if a.Finish? && IsSettled(c) then Answers(c) else map[]
  }

  /** The messages that stay on their way through a step. */
  function Remaining(s: System, a: Action): seq<Message>
    requires Enabled(s, a)
  {
    if a.Deliver? then s.network[..a.index] + s.network[a.index + 1..] else s.network
  }

  lemma MessagesAreClientPosts(s: System, a: Action)
    requires PromisesPoint(s) && Enabled(s, a)
    ensures var c := View(s, Actor(s, a));
      Next(s, a).network == Remaining(s, a) + Sent(s.tabs, Actor(s, a), Posted(c, a))
  {
    assert s.network + [] == s.network;
  }

  lemma AnswersAreHandedOut(s: System, a: Action)
    requires PromisesPoint(s) && Enabled(s, a)
    ensures Next(s, a).answers == s.answers + HandedOut(View(s, Actor(s, a)), a)
  {
    assert s.answers + map[] == s.answers;
  }

  /** The step is, from before to after, what the client of its tab does. */
  predicate IsClientStep(s: System, a: Action, before: Client, after: Client)
    requires Enabled(s, a)
  {
    match a
    case Write(_, u, _) => after == before.(store := Apply(before.store, u))
    case Read(_) => after == before.(store := Opened(before.store))
    case Deliver(i) => after == before.(store := Apply(before.store, Whole(s.network[i].snapshot)))
    case Refresh(_, c, failed) => after == Called(before, c, failed, s.locks)
    case Grant(_) => IsWaiting(before) && after == LockGranted(before)
    case Reply(_, r) => IsRequesting(before) && after == Replied(before, r)
    case Finish(_) => IsSettled(before) && after == before.(pending := None)
    case RetryRejected(_) => after == before.(store := Apply(before.store, CLEAR))
  }

  lemma StepInTab(s: System, a: Action)
    requires PromisesPoint(s) && Enabled(s, a) && PromisesPoint(Next(s, a))
    requires Actor(s, a) < |s.tabs| == |Next(s, a).tabs|
    ensures IsClientStep(s, a, View(s, Actor(s, a)), View(Next(s, a), Actor(s, a)))
  {
  }

  /**
   * In its own tab it is the client's step, with the promise the tab has; the messages it sends
   * are what the client posts, and the answers it gives are what the client hands out.
   */
  lemma SystemStepsAreClientSteps(s: System, a: Action)
    requires Inv(s) && Enabled(s, a)
    ensures Inv(Next(s, a)) && Actor(s, a) < |s.tabs| == |Next(s, a).tabs|
    ensures IsClientStep(s, a, View(s, Actor(s, a)), View(Next(s, a), Actor(s, a)))
    ensures Next(s, a).network == Remaining(s, a) + Sent(s.tabs, Actor(s, a), Posted(View(s, Actor(s, a)), a))
    ensures Next(s, a).answers == s.answers + HandedOut(View(s, Actor(s, a)), a)
  {
    StepInv(s, a);
    StepInTab(s, a);
    MessagesAreClientPosts(s, a);
    AnswersAreHandedOut(s, a);
  }

  // ---- the module variable ----

  class AuthClient {
    const session: Session
    const locks: bool
    var refreshAccessTokenPromise: Option<Pending>

    constructor (session: Session, locks: bool)
      ensures this.session == session && this.locks == locks
      ensures State() == Client(session.State(), None)
    {
      this.session := session;
      this.locks := locks;
      refreshAccessTokenPromise := None;
    }

    ghost function State(): Client
      reads this, session
    {
      Client(session.State(), refreshAccessTokenPromise)
    }

    method RefreshAccessToken(caller: nat, failedToken: string)
      modifies this, session
      ensures State() == Called(old(State()), caller, failedToken, locks)
      ensures session.posted == old(session.posted)
    {
      if refreshAccessTokenPromise.None? {
        if locks {
          refreshAccessTokenPromise := Some(Pending(failedToken, Waiting, {}));
        } else {
          var phase := BeginRefresh(session, failedToken);
          refreshAccessTokenPromise := Some(Pending(failedToken, phase, {}));
        }
      }
      var p := refreshAccessTokenPromise.value;
      refreshAccessTokenPromise := Some(p.(joined := p.joined + {caller}));
      assert {} + {caller} == {caller};
    }

    /** The lock calls back. */
    method OnLockGranted()
      requires IsWaiting(State())
      modifies this, session
      ensures State() == LockGranted(old(State()))
      ensures session.posted == old(session.posted)
    {
      var p := refreshAccessTokenPromise.value;
      var phase := BeginRefresh(session, p.failedToken);
      refreshAccessTokenPromise := Some(p.(phase := phase));
    }

    /** The request is answered. */
    method OnReply(reply: SessionStore.Reply)
      requires IsRequesting(State())
      modifies this, session
      ensures State() == Replied(old(State()), reply)
      ensures session.posted == old(session.posted) + RepliedPosts(old(State()), reply)
    {
      var p := refreshAccessTokenPromise.value;
      var outcome := AnswerRefresh(session, p.phase.startedRevision, reply);
      refreshAccessTokenPromise := Some(p.(phase := Settled(outcome)));
    }

    /** `finally` clears the variable; then every caller that joined is answered alike. */
    method OnFinally() returns (callers: set<nat>, outcome: Outcome)
      requires IsSettled(State())
      modifies this
      ensures State() == old(State()).(pending := None)
      ensures callers == old(refreshAccessTokenPromise.value.joined)
      ensures (map caller | caller in callers :: outcome) == Answers(old(State()))
    {
      callers, outcome := refreshAccessTokenPromise.value.joined, refreshAccessTokenPromise.value.phase.outcome;
      refreshAccessTokenPromise := None;
    }
  }
}
