/**
 * The session snapshot one tab holds, its revision, and the refresh that may clear it.
 * The functions say what each operation does; the classes are the module variables it works on.
 */
module SessionStore {
  import opened Wrappers

  datatype Snapshot = Snapshot(accessToken: string, sessionID: string)

  const EMPTY := Snapshot("", "")

  /** A partial snapshot: absent fields are kept. */
  datatype Update = Update(accessToken: Option<string>, sessionID: Option<string>)

  const CLEAR := Update(Some(""), Some(""))

  function Whole(s: Snapshot): Update {
    Update(Some(s.accessToken), Some(s.sessionID))
  }

  /** supported: the browser has a BroadcastChannel; initialized: this tab asked for it already. */
  datatype Store = Store(snapshot: Snapshot, revision: nat, supported: bool, initialized: bool)

  predicate Listens(st: Store) {
    st.supported && st.initialized
  }

  function Merge(s: Snapshot, u: Update): Snapshot {
    Snapshot(
      if u.accessToken.Some? then u.accessToken.value else s.accessToken,
      if u.sessionID.Some? then u.sessionID.value else s.sessionID)
  }

  /** `applySessionSnapshot`: a write that changes nothing leaves the revision alone. */
  function Apply(st: Store, u: Update): Store {
    var next := Merge(st.snapshot, u);
    if next == st.snapshot then st else st.(snapshot := next, revision := st.revision + 1, initialized := true)
  }

  /** What `applySessionSnapshot` posts to the peers. */
  function Posts(st: Store, u: Update, syncPeers: bool): seq<Snapshot> {
    if Merge(st.snapshot, u) != st.snapshot && syncPeers && st.supported then [Merge(st.snapshot, u)] else []
  }

  /** Any of the read functions opens the channel. */
  function Opened(st: Store): Store {
    st.(initialized := true)
  }

  // ---- refreshing ----

  datatype Outcome = Token(token: string) | Rejected

  /** Waiting for the lock; request in flight; settled; and the promise variable cleared. */
  datatype Phase =
    | Waiting
    | Requesting(startedRevision: nat)
    | Settled(outcome: Outcome)
    | Done(outcome: Outcome)

  /** The answer to a refresh request: data (perhaps without a token), a terminating 401, or any other failure. */
  datatype Reply =
    | Data(accessToken: string, sessionID: Option<string>)
    | Terminating
    | Failure

  /** Up to the request: a newer token than the failed one is taken as it is. */
  function Begin(st: Store, failedToken: string): Phase {
    var token := st.snapshot.accessToken;
    if token != "" && token != failedToken then Settled(Token(token)) else Requesting(st.revision)
  }

  datatype Answered = Answered(store: Store, posts: seq<Snapshot>, outcome: Outcome)

  /** The reply grants nothing, so the session is over unless it changed meanwhile. */
  predicate EndsSession(r: Reply) {
    r.Terminating? || (r.Data? && r.accessToken == "")
  }

  /** After the request: `requestAccessTokenRefresh` from its await on. */
  function Answer(st: Store, startedRevision: nat, r: Reply): Answered {
    if EndsSession(r) then
      Answered(if st.revision == startedRevision then Apply(Opened(st), CLEAR) else Opened(st), [], Token(""))
    else if r.Data? then
      var u := Update(Some(r.accessToken), r.sessionID);
      Answered(Apply(st, u), Posts(st, u, true), Token(r.accessToken))
    else
      Answered(st, [], Rejected)
  }

  // ---- the module variables ----

  class Session {
    var accessToken: string
    var sessionID: string
    var revision: nat
    var channelInitialized: bool
    const channelSupported: bool
    var posted: seq<Snapshot>

    constructor (channelSupported: bool)
      ensures State() == Store(EMPTY, 0, channelSupported, false) && posted == []
    {
      accessToken, sessionID, revision := "", "", 0;
      channelInitialized := false;
      this.channelSupported := channelSupported;
      posted := [];
    }

    ghost function State(): Store
      reads this
    {
      Store(Snapshot(accessToken, sessionID), revision, channelSupported, channelInitialized)
    }

    method EnsureSessionChannel() returns (open: bool)
      modifies this`channelInitialized
      ensures State() == Opened(old(State()))
      ensures open == channelSupported
    {
      channelInitialized := true;
      open := channelSupported;
    }

    method ApplySessionSnapshot(next: Update, syncPeers: bool)
      modifies this
      ensures State() == Apply(old(State()), next)
      ensures posted == old(posted) + Posts(old(State()), next, syncPeers)
    {
      var previousAccessToken, previousSessionID := accessToken, sessionID;
      if next.accessToken.Some? {
        accessToken := next.accessToken.value;
      }
      if next.sessionID.Some? {
        sessionID := next.sessionID.value;
      }
      if accessToken != previousAccessToken || sessionID != previousSessionID {
        revision := revision + 1;
        var open := EnsureSessionChannel();
        if syncPeers && open {
          posted := posted + [Snapshot(accessToken, sessionID)];
        }
      }
    }

    /** The channel's receive handler. */
    method OnMessage(message: Snapshot)
      modifies this
      ensures State() == Apply(old(State()), Whole(message))
      ensures posted == old(posted)
      ensures Snapshot(accessToken, sessionID) == message
    {
      ApplySessionSnapshot(Whole(message), false);
    }

    method ReadAccessToken() returns (token: string)
      modifies this`channelInitialized
      ensures State() == Opened(old(State())) && token == accessToken
    {
      var open := EnsureSessionChannel();
      token := accessToken;
    }

    method ReadSessionRevision() returns (r: nat)
      modifies this`channelInitialized
      ensures State() == Opened(old(State())) && r == revision
    {
      var open := EnsureSessionChannel();
      r := revision;
    }

    method ClearSessionSnapshot(syncPeers: bool)
      modifies this
      ensures State() == Apply(old(State()), CLEAR)
      ensures posted == old(posted) + Posts(old(State()), CLEAR, syncPeers)
      ensures Snapshot(accessToken, sessionID) == EMPTY
    {
      ApplySessionSnapshot(CLEAR, syncPeers);
    }
  }

  /** The inner `refresh` of `runAccessTokenRefresh`, up to its request or its early answer. */
  method BeginRefresh(session: Session, failedToken: string) returns (phase: Phase)
    modifies session
    ensures session.State() == Opened(old(session.State())) && session.posted == old(session.posted)
    ensures phase == Begin(old(session.State()), failedToken)
  {
    var currentToken := session.ReadAccessToken();
    if currentToken != "" && currentToken != failedToken {
      return Settled(Token(currentToken));
    }
    var startedRevision := session.ReadSessionRevision();
    phase := Requesting(startedRevision);
  }

  /** `requestAccessTokenRefresh` once its request has an answer. */
  method AnswerRefresh(session: Session, startedRevision: nat, reply: Reply) returns (outcome: Outcome)
    modifies session
    ensures var a := Answer(old(session.State()), startedRevision, reply);
      session.State() == a.store && session.posted == old(session.posted) + a.posts && outcome == a.outcome
  {
    match reply
    case Data(token, sessionID) =>
      if token == "" {
        var r := session.ReadSessionRevision();
        if r == startedRevision {
          session.ClearSessionSnapshot(false);
        }
        return Token("");
      }
      session.ApplySessionSnapshot(Update(Some(token), sessionID), true);
      outcome := Token(token);
    case Terminating =>
      var r := session.ReadSessionRevision();
      if r == startedRevision {
        session.ClearSessionSnapshot(false);
      }
      outcome := Token("");
    case Failure =>
      outcome := Rejected;
  }
}
