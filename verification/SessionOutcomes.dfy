/**
 * What each step of the session protocol does, in the terms of the fields it leaves behind: the
 * snapshot, the messages, who listens, how a refresh begins and what it comes to.
 */
module SessionOutcomes {
  import opened Wrappers
  import opened SessionStore
  import opened SessionTabs

  // ---- the session after a step ----

  /** The fields an update gives replace the old ones, absent fields are kept. */
  ghost predicate Replaces(old_: Snapshot, token: Option<string>, sessionID: Option<string>, new_: Snapshot) {
    && (token.Some? ==> new_.accessToken == token.value)
    && (token.None? ==> new_.accessToken == old_.accessToken)
    && (sessionID.Some? ==> new_.sessionID == sessionID.value)
    && (sessionID.None? ==> new_.sessionID == old_.sessionID)
  }

  /** The session a step leaves in its own tab; other tabs keep theirs. */
  lemma SnapshotAfter(s: System, a: Action)
    requires Enabled(s, a)
    ensures |Next(s, a).tabs| == |s.tabs|
    ensures var t := Actor(s, a);
      var old_, new_ := s.tabs[t].store.snapshot, Next(s, a).tabs[t].store.snapshot;
      match a
      case Write(_, u, _) => Replaces(old_, u.accessToken, u.sessionID, new_)
      case Deliver(i) => new_ == s.network[i].snapshot
      case Reply(j, Failure) => new_ == old_
      case Reply(j, Data(token, sessionID)) =>
        if token != "" then Replaces(old_, Some(token), sessionID, new_)
        else new_ == if s.tabs[t].store.revision == s.jobs[j].phase.startedRevision then Snapshot("", "") else old_
      case Reply(j, Terminating) =>
        new_ == if s.tabs[t].store.revision == s.jobs[j].phase.startedRevision then Snapshot("", "") else old_
      case RetryRejected(_) => new_ == Snapshot("", "")
      case _ => new_ == old_
    ensures forall t :: 0 <= t < |s.tabs| && t != Actor(s, a) ==> Next(s, a).tabs[t].store == s.tabs[t].store
  {
  }

  // ---- who is told, and who listens ----

  /** to gets the snapshot from a step in tab from. */
  predicate IsTold(s: System, from: nat, to: nat) {
    to < |s.tabs| && to != from && s.tabs[to].store.supported && s.tabs[to].store.initialized
  }

  /** To tabs below n other than from, in the order of the tabs. */
  ghost predicate InTabOrder(ms: seq<Message>, from: nat, n: nat) {
    && (forall i :: 0 <= i < |ms| ==> ms[i].to < n && ms[i].to != from)
    && (forall i, j :: 0 <= i < j < |ms| ==> ms[i].to < ms[j].to)
  }

  lemma InTabOrderSnoc(ms: seq<Message>, from: nat, t: nat, snapshot: Snapshot)
    requires InTabOrder(ms, from, t)
    ensures InTabOrder(ms, from, t + 1)
    ensures t != from ==> InTabOrder(ms + [Message(t, snapshot)], from, t + 1)
  {
  }

  lemma {:induction false} BroadcastOnce(tabs: seq<Tab>, from: nat, snapshot: Snapshot, n: nat)
    requires n <= |tabs|
    ensures InTabOrder(Broadcast(tabs, from, snapshot, n), from, n)
  {
    if n > 0 {
      BroadcastOnce(tabs, from, snapshot, n - 1);
      var init := Broadcast(tabs, from, snapshot, n - 1);
      InTabOrderSnoc(init, from, n - 1, snapshot);
      assert init + [] == init;
    }
  }

  /** ms is one message for each tab that is to be told, in the order of the tabs. */
  ghost predicate TellsOnce(s: System, from: nat, snapshot: Snapshot, ms: seq<Message>) {
    && (forall m :: m in ms <==> m.snapshot == snapshot && IsTold(s, from, m.to))
    && forall i, j :: 0 <= i < j < |ms| ==> ms[i].to < ms[j].to
  }

  lemma BroadcastTells(s: System, from: nat, snapshot: Snapshot)
    ensures TellsOnce(s, from, snapshot, Broadcast(s.tabs, from, snapshot, |s.tabs|))
  {
    BroadcastReaches(s.tabs, from, snapshot, |s.tabs|);
    BroadcastOnce(s.tabs, from, snapshot, |s.tabs|);
    var ms := Broadcast(s.tabs, from, snapshot, |s.tabs|);
    forall m: Message
      ensures m in ms ==> m.snapshot == snapshot && IsTold(s, from, m.to)
      ensures m.snapshot == snapshot && IsTold(s, from, m.to) ==> m in ms
    {
      assert m.snapshot == snapshot ==> m == Message(m.to, snapshot);
      if m in ms {
        var i :| 0 <= i < |ms| && ms[i] == m;
      }
    }
  }

  /** Peers are told of a change by a write that syncs and by a token a refresh brought, and of nothing else. */
  predicate Tells(s: System, a: Action)
    requires Enabled(s, a)
  {
    var t := Actor(s, a);
    && ((a.Write? && a.syncPeers) || (a.Reply? && a.reply.Data? && a.reply.accessToken != ""))
    && s.tabs[t].store.supported
    && Next(s, a).tabs[t].store.snapshot != s.tabs[t].store.snapshot
  }

  lemma NewMessages(s: System, a: Action)
    requires Enabled(s, a) && !a.Deliver?
    ensures var t, s' := Actor(s, a), Next(s, a);
      s'.network == s.network + if Tells(s, a) then Broadcast(s.tabs, t, s'.tabs[t].store.snapshot, |s.tabs|) else []
  {
    assert s.network + [] == s.network;
  }

  /** A delivery takes its message away; any other step adds one message for each peer to be told, or none. */
  lemma MessagesAfter(s: System, a: Action) returns (sent: seq<Message>)
    requires Enabled(s, a)
    ensures a.Deliver? ==> Next(s, a).network == s.network[..a.index] + s.network[a.index + 1..]
    ensures !a.Deliver? ==> Next(s, a).network == s.network + sent
    ensures if Tells(s, a) then TellsOnce(s, Actor(s, a), Next(s, a).tabs[Actor(s, a)].store.snapshot, sent) else sent == []
  {
    if Tells(s, a) {
      sent := Broadcast(s.tabs, Actor(s, a), Next(s, a).tabs[Actor(s, a)].store.snapshot, |s.tabs|);
      BroadcastTells(s, Actor(s, a), Next(s, a).tabs[Actor(s, a)].store.snapshot);
    } else {
      sent := [];
    }
    if !a.Deliver? {
      NewMessages(s, a);
    }
  }

  /** The refresh of job j begins with this step: it was not there or waited for the lock, and does no longer. */
  predicate Begins(s: System, a: Action, j: nat)
    requires Enabled(s, a)
  {
    && j < |Next(s, a).jobs| && !Next(s, a).jobs[j].phase.Waiting?
    && (j < |s.jobs| ==> s.jobs[j].phase.Waiting?)
  }

  /** The step makes its tab open its channel: it reads the session, a refresh begins, or an answer may end the session. */
  predicate Opens(s: System, a: Action)
    requires Enabled(s, a)
  {
    match a
    case Read(_) => true
    case Grant(_) => true
    case Refresh(t, _, _) => s.tabs[t].promise.None? && !s.locks
    case Reply(_, Data(token, _)) => token == ""
    case Reply(_, Terminating) => true
    case _ => false
  }

  lemma ActorListens(s: System, a: Action)
    requires Enabled(s, a)
    ensures var t := Actor(s, a);
      var old_, new_ := s.tabs[t].store, Next(s, a).tabs[t].store;
      && new_.supported == old_.supported
      && (new_.initialized <==> old_.initialized || new_.snapshot != old_.snapshot || Opens(s, a))
  {
  }

  /** Then, and when its session changes, a tab's channel is open, and it stays open; no other step opens it. */
  lemma ListensAfter(s: System, a: Action, t: nat)
    requires Enabled(s, a) && t < |s.tabs|
    ensures |Next(s, a).tabs| == |s.tabs|
    ensures var old_, new_ := s.tabs[t].store, Next(s, a).tabs[t].store;
      && new_.supported == old_.supported
      && (new_.initialized <==> old_.initialized || new_.snapshot != old_.snapshot || (t == Actor(s, a) && Opens(s, a)))
  {
    SnapshotAfter(s, a);
    if t == Actor(s, a) {
      ActorListens(s, a);
    }
  }

  // ---- how a refresh begins and what it comes to ----

  /** A caller joins the unfinished refresh of its tab, or a new one if there is none, and is not lost. */
  lemma RefreshJoins(s: System, t: nat, c: nat, failed: string)
    requires Inv(s) && Enabled(s, Refresh(t, c, failed))
    ensures var s' := Next(s, Refresh(t, c, failed));
      && t < |s'.tabs| && s'.tabs[t].promise.Some?
      && var j := s'.tabs[t].promise.value;
      && j < |s'.jobs| && s'.jobs[j].tab == t
      && (if s.tabs[t].promise.Some? then
            |s'.jobs| == |s.jobs| && s'.tabs[t].promise == s.tabs[t].promise
            && s'.jobs[j].joined == s.jobs[j].joined + {c} && s'.jobs[j].failedToken == s.jobs[j].failedToken
          else
            j == |s.jobs| && |s'.jobs| == |s.jobs| + 1 && s'.jobs[j].joined == {c} && s'.jobs[j].failedToken == failed
            && (s'.jobs[j].phase.Waiting? <==> s.locks))
  {
  }

  /**
   * A refresh asks the server exactly when its tab has no token or just the one that failed;
   * otherwise it settles at once with the token there is.
   */
  lemma BeginsExactly(s: System, a: Action, j: nat)
    requires Inv(s) && Enabled(s, a) && Begins(s, a, j)
    ensures var s' := Next(s, a);
      && s'.jobs[j].tab < |s.tabs|
      && var st := s.tabs[s'.jobs[j].tab].store;
      && (s'.jobs[j].phase.Requesting? <==> st.snapshot.accessToken == "" || st.snapshot.accessToken == s'.jobs[j].failedToken)
      && (s'.jobs[j].phase.Requesting? ==> s'.jobs[j].phase.startedRevision == st.revision)
      && (!s'.jobs[j].phase.Requesting? ==> s'.jobs[j].phase == Settled(Token(st.snapshot.accessToken)))
  {
  }

  /** What a reply comes to for those who wait: its token, no token, or a failure. */
  lemma ReplySettles(s: System, j: nat, r: SessionStore.Reply)
    requires Enabled(s, Reply(j, r))
    ensures Next(s, Reply(j, r)).jobs[j].phase ==
      match r
      case Data(token, _) => Settled(Token(token))
      case Terminating => Settled(Token(""))
      case Failure => Settled(Rejected)
  {
  }

  ghost predicate HasOutcome(s: System, j: nat, o: Outcome) {
    j < |s.jobs| && (s.jobs[j].phase == Settled(o) || s.jobs[j].phase == Done(o))
  }

  /** The step gives job j its outcome: an early answer, or a reply. */
  ghost predicate GivesOutcome(s: System, a: Action, j: nat, o: Outcome) {
    Enabled(s, a) &&
    if a.Reply? then
      a.job == j && o == match a.reply
        case Data(token, _) => Token(token)
        case Terminating => Token("")
        case Failure => Rejected
    else
      && Begins(s, a, j) && Next(s, a).jobs[j].tab < |s.tabs|
      && var token := s.tabs[Next(s, a).jobs[j].tab].store.snapshot.accessToken;
      o == Token(token) && token != "" && token != Next(s, a).jobs[j].failedToken
  }

  lemma OutcomeStep(s: System, a: Action, j: nat, o: Outcome)
    requires Inv(s) && Enabled(s, a) && HasOutcome(Next(s, a), j, o) && !HasOutcome(s, j, o)
    ensures GivesOutcome(s, a, j, o)
  {
    if a.Reply? && a.job == j {
      ReplySettles(s, j, a.reply);
    } else {
      assert Begins(s, a, j);
      BeginsExactly(s, a, j);
    }
  }

  lemma FailedTokenStays(s: System, a: Action, j: nat)
    requires Enabled(s, a) && j < |s.jobs|
    ensures j < |Next(s, a).jobs| && Next(s, a).jobs[j].failedToken == s.jobs[j].failedToken
  {
  }

  /** Over every run: what a refresh came to was given to it by one step, an early answer or a reply. */
  lemma {:induction false} OutcomeIsGiven(states: seq<System>, actions: seq<Action>, n: nat, j: nat, o: Outcome) returns (k: nat)
    requires IsRun(states, actions) && Start(states[0]) && n <= |actions| && HasOutcome(states[n], j, o)
    ensures k < n && GivesOutcome(states[k], actions[k], j, o)
    ensures j < |states[k + 1].jobs| && states[k + 1].jobs[j].failedToken == states[n].jobs[j].failedToken
  {
    assert n > 0;
    assert states[n] == Next(states[n - 1], actions[n - 1]);
    if HasOutcome(states[n - 1], j, o) {
      k := OutcomeIsGiven(states, actions, n - 1, j, o);
      FailedTokenStays(states[n - 1], actions[n - 1], j);
    } else {
      k := n - 1;
      RunInv(states, actions, k);
      OutcomeStep(states[k], actions[k], j, o);
    }
  }

  /** No caller is handed the token that failed, unless the server granted that very token anew. */
  lemma FailedTokenIsNotReturned(states: seq<System>, actions: seq<Action>, n: nat, j: nat) returns (k: nat)
    requires IsRun(states, actions) && Start(states[0]) && n <= |actions|
    requires j < |states[n].jobs| && states[n].jobs[j].failedToken != ""
    requires HasOutcome(states[n], j, Token(states[n].jobs[j].failedToken))
    ensures k < n && actions[k].Reply? && actions[k].job == j && actions[k].reply.Data?
    ensures actions[k].reply.accessToken == states[n].jobs[j].failedToken
  {
    k := OutcomeIsGiven(states, actions, n, j, Token(states[n].jobs[j].failedToken));
    assert states[k + 1] == Next(states[k], actions[k]);
  }
}
