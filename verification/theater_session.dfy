/**
 * Session setup against a Theater client. The setup effect is a straight
 * line of steps separated by awaits; after every await it first checks that
 * the hook is still mounted. Its observable behaviour is the log of state
 * updates and client calls it makes, computed here from what each client
 * method does when called and from the moment the hook unmounts.
 */
module TheaterSession {
  import opened Types
  import TheaterHelpers

  /** An actor handle and the id of the chat actor; absent or empty fields are falsy. */
  datatype Session = Session(domainActor: Option<string>, chatActorId: Option<string>)

  datatype Channel = Channel(channelId: string)

  /** A thrown value: an `Error` object, or anything else (given by its string form). */
  datatype Thrown = ErrorObject(message: string) | OtherValue(text: string)

  /** What an awaited call does: resolve with a value or throw. */
  datatype Outcome<T> = Returns(value: T) | Throws(error: Thrown)

  /**
   * The client's optional methods (`None` when the method is missing) with
   * what each does when called. `sendMessage` gets the actor and the text.
   */
  datatype Client = Client(
    createSession: Option<Outcome<Option<Session>>>,
    openChannelStream: Option<Outcome<Option<Channel>>>,
    startChat: Option<Outcome<()>>,
    sendMessage: Option<(string, string) -> Outcome<string>>,
    stopActor: Option<Outcome<()>>)

  datatype Call = CreateSession | OpenChannelStream(chatActorId: string) | StartChat(actor: string)

  /**
   * One observable step of the setup effect. `Resumed(k)` marks the k-th
   * await settling and the function going on from it, mounted or not.
   */
  datatype Event =
    | StatusSet(status: SetupStatus)
    | MessageSet(message: string)
    | SessionSet(session: Option<Session>)
    | ChannelSet(channel: Option<Channel>)
    | Called(call: Call)
    | Resumed(k: nat)

  /** Events that leave the state alone: client calls and resumptions. */
  predicate Quiet(e: Event) {
    e.Called? || e.Resumed?
  }

  const ConnectingMessage := "Connecting to Theater..."
  const OpeningMessage := "Opening communication channel..."
  const LoadingMessage := "Starting chat automation..."

  function ErrorText(e: Thrown): string {
    match e
    case ErrorObject(m) => m
    case OtherValue(t) => t
  }

  function ChatActor(ns: Option<Session>): Option<string> {
    if ns.Some? && ns.value.chatActorId.Some? && ns.value.chatActorId.value != "" then ns.value.chatActorId else None
  }

  function DomainActor(ns: Option<Session>): Option<string> {
    if ns.Some? && ns.value.domainActor.Some? && ns.value.domainActor.value != "" then ns.value.domainActor else None
  }

  /**
   * Whether the hook is still mounted when the k-th await resumes: `None`
   * never unmounts, `Some(n)` unmounts after the n-th resumption.
   */
  predicate Mounted(unmount: Option<nat>, k: nat) {
    unmount.None? || k <= unmount.value
  }

  /** The catch block, entered when the k-th await throws. */
  function Catch(unmount: Option<nat>, k: nat, e: Thrown): seq<Event> {
    if Mounted(unmount, k) then [StatusSet(Error), MessageSet("Error: " + ErrorText(e))] else []
  }

  /** A call through optional chaining: made only when the method exists. */
  function CallIf(present: bool, call: Call): seq<Event> {
    if present then [Called(call)] else []
  }

  /**
   * An optional call awaited as the k-th await: without the method the
   * function awaits `undefined`, which still settles.
   */
  function Await(present: bool, call: Call, k: nat): seq<Event> {
    CallIf(present, call) + [Resumed(k)]
  }

  /** After `startChat` (await k) settles: `ready`, or the catch block. */
  function ReadyStep(o: Outcome<()>, unmount: Option<nat>, k: nat): seq<Event> {
    match o
    case Throws(e) => Catch(unmount, k, e)
    case Returns(_) => if Mounted(unmount, k) then [StatusSet(Ready)] else []
  }

  /** After the second delay (await k + 1): `startChat` when there is a domain actor. */
  function StartChatStep(c: Client, unmount: Option<nat>, ns: Option<Session>, k: nat): seq<Event> {
    if DomainActor(ns).Some? then
      Await(c.startChat.Some?, StartChat(DomainActor(ns).value), k + 2) + ReadyStep(c.startChat.GetOr(Returns(())), unmount, k + 2)
    else [StatusSet(Ready)]
  }

  /** `loading_actor`, the second delay (await k + 1), then the rest. */
  function LoadActor(c: Client, unmount: Option<nat>, ns: Option<Session>, k: nat): seq<Event> {
    [StatusSet(LoadingActor), MessageSet(LoadingMessage), Resumed(k + 1)] +
    if Mounted(unmount, k + 1) then StartChatStep(c, unmount, ns, k) else []
  }

  /** After `openChannelStream` (await 3) settles. */
  function ChannelStep(o: Outcome<Option<Channel>>, c: Client, unmount: Option<nat>, ns: Option<Session>): seq<Event> {
    match o
    case Throws(e) => Catch(unmount, 3, e)
    case Returns(ch) => if Mounted(unmount, 3) then [ChannelSet(ch)] + LoadActor(c, unmount, ns, 3) else []
  }

  /** After `setSession`: the channel, when the session names a chat actor. */
  function AfterSession(c: Client, unmount: Option<nat>, ns: Option<Session>): seq<Event> {
    if ChatActor(ns).Some? then
      Await(c.openChannelStream.Some?, OpenChannelStream(ChatActor(ns).value), 3)
        + ChannelStep(c.openChannelStream.GetOr(Returns(None)), c, unmount, ns)
    else LoadActor(c, unmount, ns, 2)
  }

  /** After `createSession` (await 2) settles. */
  function SessionStep(o: Outcome<Option<Session>>, c: Client, unmount: Option<nat>): seq<Event> {
    match o
    case Throws(e) => Catch(unmount, 2, e)
    case Returns(ns) => if Mounted(unmount, 2) then [SessionSet(ns)] + AfterSession(c, unmount, ns) else []
  }

  /** `createSession` and what follows once it settles. */
  function CreateStep(c: Client, unmount: Option<nat>): seq<Event> {
    Await(c.createSession.Some?, CreateSession, 2) + SessionStep(c.createSession.GetOr(Returns(None)), c, unmount)
  }

  /** After the first delay (await 1): `opening_channel`, then `createSession`. */
  function AfterFirstDelay(c: Client, unmount: Option<nat>): seq<Event> {
    if Mounted(unmount, 1) then [StatusSet(OpeningChannel), MessageSet(OpeningMessage)] + CreateStep(c, unmount) else []
  }

  /** The setup effect: nothing without a client. */
  function SetupSession(client: Option<Client>, unmount: Option<nat>): (log: seq<Event>)
    ensures client.None? ==> log == []
    ensures client.Some? ==> |log| >= 2 && log[..2] == [StatusSet(Connecting), MessageSet(ConnectingMessage)]
  {
    if client.None? then []
    else [StatusSet(Connecting), MessageSet(ConnectingMessage), Resumed(1)] + AfterFirstDelay(client.value, unmount)
  }

  /** The hook's state. */
  datatype HookState = HookState(setupStatus: SetupStatus, setupMessage: string,
                                 session: Option<Session>, channel: Option<Channel>)

  const InitialHookState := HookState(Connecting, ConnectingMessage, None, None)

  /** `isReady`. */
  predicate IsReady(s: HookState) {
    s.setupStatus == Ready
  }

  /** The effect of one event on the state; calls and resumptions change nothing. */
  function Apply(s: HookState, e: Event): (r: HookState)
    ensures Quiet(e) ==> r == s
  {
    match e
    case StatusSet(st) => s.(setupStatus := st)
    case MessageSet(m) => s.(setupMessage := m)
    case SessionSet(ns) => s.(session := ns)
    case ChannelSet(ch) => s.(channel := ch)
    case Called(_) => s
    case Resumed(_) => s
  }

  function Run(s: HookState, log: seq<Event>): HookState
    decreases |log|
  {
    if |log| == 0 then s else Apply(Run(s, log[..|log| - 1]), log[|log| - 1])
  }

  /** The state a setup run leaves behind. */
  function Final(client: Option<Client>, unmount: Option<nat>): HookState {
    Run(InitialHookState, SetupSession(client, unmount))
  }

  function StatusOf(e: Event): seq<SetupStatus> {
    if e.StatusSet? then [e.status] else []
  }

  /** The statuses set, in order. */
  function Statuses(log: seq<Event>): (r: seq<SetupStatus>)
    ensures |r| <= |log|
    decreases |log|
  {
    if |log| == 0 then []
    else if log[|log| - 1].StatusSet? then Statuses(log[..|log| - 1]) + [log[|log| - 1].status]
    else Statuses(log[..|log| - 1])
  }

  lemma StatusesOfPair(a: Event, b: Event)
    ensures Statuses([a]) == StatusOf(a)
    ensures Statuses([a, b]) == StatusOf(a) + StatusOf(b)
  {
    assert [a, b][..1] == [a];
    assert StatusOf(a) + [] == StatusOf(a);
  }

  lemma {:induction false} RunConcat(s: HookState, a: seq<Event>, b: seq<Event>)
    ensures Run(s, a + b) == Run(Run(s, a), b)
    decreases |b|
  {
    if |b| == 0 {
      assert a + b == a;
    } else {
      assert (a + b)[..|a + b| - 1] == a + b[..|b| - 1];
      RunConcat(s, a, b[..|b| - 1]);
    }
  }

  lemma {:induction false} StatusesConcat(a: seq<Event>, b: seq<Event>)
    ensures Statuses(a + b) == Statuses(a) + Statuses(b)
    decreases |b|
  {
    if |b| == 0 {
      assert a + b == a;
      assert Statuses(a) + [] == Statuses(a);
    } else {
      assert (a + b)[..|a + b| - 1] == a + b[..|b| - 1];
      StatusesConcat(a, b[..|b| - 1]);
    }
  }

  /** The final status is the last one set, or the initial one when none was. */
  lemma {:induction false} RunStatusIsLastSet(s: HookState, log: seq<Event>)
    ensures var t := Statuses(log);
      Run(s, log).setupStatus == if |t| == 0 then s.setupStatus else t[|t| - 1]
    decreases |log|
  {
    if |log| > 0 {
      RunStatusIsLastSet(s, log[..|log| - 1]);
    }
  }

  /** The statuses a successful setup sets, in order. */
  const HappyPath: seq<SetupStatus> := [Connecting, OpeningChannel, LoadingActor, Ready]

  /**
   * A trail of statuses set from position `k` of the happy path on: each
   * status is the happy-path status at its position, except that the last
   * may be an error once `opening_channel` has been announced.
   */
  predicate TrailFrom(t: seq<SetupStatus>, k: nat) {
    && k + |t| <= |HappyPath|
    && forall i :: 0 <= i < |t| ==> t[i] == HappyPath[k + i] || (i == |t| - 1 && k + i >= 2 && t[i] == Error)
  }

  /** The status trails a setup run can produce. */
  predicate ValidTrail(t: seq<SetupStatus>) {
    TrailFrom(t, 0)
  }

  /** An error ends a trail and excludes ready; without one, the trail is a prefix of the happy path. */
  lemma TrailErrorIsLast(t: seq<SetupStatus>)
    requires ValidTrail(t)
    ensures Error in t ==> Ready !in t && t[|t| - 1] == Error
    ensures Error !in t ==> t <= HappyPath
  {
    if Error !in t {
      assert t == HappyPath[..|t|];
    }
  }

  /** One happy-path status set in front of a trail continuing from the next position. */
  lemma TrailCons(k: nat, rest: seq<Event>)
    requires k < 3
    requires TrailFrom(Statuses(rest), k + 1)
    ensures TrailFrom(Statuses([StatusSet(HappyPath[k])] + rest), k)
    ensures Statuses([StatusSet(HappyPath[k])] + rest) == [HappyPath[k]] + Statuses(rest)
  {
    StatusesConcat([StatusSet(HappyPath[k])], rest);
    var r := Statuses(rest);
    var t := [HappyPath[k]] + r;
    forall i | 1 <= i < |t|
      ensures t[i] == HappyPath[k + i] || (i == |t| - 1 && k + i >= 2 && t[i] == Error)
    {
      assert t[i] == r[i - 1];
    }
  }

  lemma TrailSkipsQuietEvents(quiet: seq<Event>, rest: seq<Event>, k: nat)
    requires forall i :: 0 <= i < |quiet| ==> !quiet[i].StatusSet?
    requires TrailFrom(Statuses(rest), k)
    ensures TrailFrom(Statuses(quiet + rest), k)
  {
    NoStatuses(quiet);
    StatusesConcat(quiet, rest);
    assert [] + Statuses(rest) == Statuses(rest);
  }

  lemma {:induction false} NoStatuses(log: seq<Event>)
    requires forall i :: 0 <= i < |log| ==> !log[i].StatusSet?
    ensures Statuses(log) == []
    decreases |log|
  {
    if |log| > 0 {
      NoStatuses(log[..|log| - 1]);
    }
  }

  lemma CatchTrail(unmount: Option<nat>, k: nat, e: Thrown, pos: nat)
    requires 2 <= pos <= 3
    ensures TrailFrom(Statuses(Catch(unmount, k, e)), pos)
  {
    StatusesOfPair(StatusSet(Error), MessageSet("Error: " + ErrorText(e)));
    assert [Error] + [] == [Error];
  }

  lemma ReadyStepTrail(o: Outcome<()>, unmount: Option<nat>, k: nat)
    ensures TrailFrom(Statuses(ReadyStep(o, unmount, k)), 3)
  {
    match o
    case Throws(e) => CatchTrail(unmount, k, e, 3);
    case Returns(_) => StatusesOfPair(StatusSet(Ready), StatusSet(Ready));
  }

  lemma StartChatStepTrail(c: Client, unmount: Option<nat>, ns: Option<Session>, k: nat)
    ensures TrailFrom(Statuses(StartChatStep(c, unmount, ns, k)), 3)
  {
    if DomainActor(ns).Some? {
      var o := c.startChat.GetOr(Returns(()));
      ReadyStepTrail(o, unmount, k + 2);
      TrailSkipsQuietEvents(Await(c.startChat.Some?, StartChat(DomainActor(ns).value), k + 2), ReadyStep(o, unmount, k + 2), 3);
    } else {
      StatusesOfPair(StatusSet(Ready), StatusSet(Ready));
    }
  }

  lemma LoadActorTrail(c: Client, unmount: Option<nat>, ns: Option<Session>, k: nat)
    ensures TrailFrom(Statuses(LoadActor(c, unmount, ns, k)), 2)
  {
    var rest := if Mounted(unmount, k + 1) then StartChatStep(c, unmount, ns, k) else [];
    if Mounted(unmount, k + 1) {
      StartChatStepTrail(c, unmount, ns, k);
    }
    TrailSkipsQuietEvents([MessageSet(LoadingMessage), Resumed(k + 1)], rest, 3);
    assert LoadActor(c, unmount, ns, k) == [StatusSet(LoadingActor)] + ([MessageSet(LoadingMessage), Resumed(k + 1)] + rest);
    TrailCons(2, [MessageSet(LoadingMessage), Resumed(k + 1)] + rest);
  }

  lemma ChannelStepTrail(o: Outcome<Option<Channel>>, c: Client, unmount: Option<nat>, ns: Option<Session>)
    ensures TrailFrom(Statuses(ChannelStep(o, c, unmount, ns)), 2)
  {
    match o
    case Throws(e) => CatchTrail(unmount, 3, e, 2);
    case Returns(ch) =>
      if Mounted(unmount, 3) {
        LoadActorTrail(c, unmount, ns, 3);
        TrailSkipsQuietEvents([ChannelSet(ch)], LoadActor(c, unmount, ns, 3), 2);
      }
  }

  lemma AfterSessionTrail(c: Client, unmount: Option<nat>, ns: Option<Session>)
    ensures TrailFrom(Statuses(AfterSession(c, unmount, ns)), 2)
  {
    if ChatActor(ns).Some? {
      var o := c.openChannelStream.GetOr(Returns(None));
      ChannelStepTrail(o, c, unmount, ns);
      TrailSkipsQuietEvents(Await(c.openChannelStream.Some?, OpenChannelStream(ChatActor(ns).value), 3),
                            ChannelStep(o, c, unmount, ns), 2);
    } else {
      LoadActorTrail(c, unmount, ns, 2);
    }
  }

  lemma SessionStepTrail(o: Outcome<Option<Session>>, c: Client, unmount: Option<nat>)
    ensures TrailFrom(Statuses(SessionStep(o, c, unmount)), 2)
  {
    match o
    case Throws(e) => CatchTrail(unmount, 2, e, 2);
    case Returns(ns) =>
      if Mounted(unmount, 2) {
        AfterSessionTrail(c, unmount, ns);
        TrailSkipsQuietEvents([SessionSet(ns)], AfterSession(c, unmount, ns), 2);
      }
  }

  /** A happy-path status and its message in front of a trail continuing from the next position. */
  lemma TrailAnnounces(k: nat, m: string, rest: seq<Event>)
    requires k < 3
    requires TrailFrom(Statuses(rest), k + 1)
    ensures TrailFrom(Statuses([StatusSet(HappyPath[k]), MessageSet(m)] + rest), k)
    ensures Statuses([StatusSet(HappyPath[k]), MessageSet(m)] + rest) == [HappyPath[k]] + Statuses(rest)
  {
    TrailSkipsQuietEvents([MessageSet(m)], rest, k + 1);
    TrailCons(k, [MessageSet(m)] + rest);
    NoStatuses([MessageSet(m)]);
    StatusesConcat([MessageSet(m)], rest);
    assert [] + Statuses(rest) == Statuses(rest);
    assert [StatusSet(HappyPath[k]), MessageSet(m)] + rest == [StatusSet(HappyPath[k])] + ([MessageSet(m)] + rest);
  }

  lemma CreateStepTrail(c: Client, unmount: Option<nat>)
    ensures TrailFrom(Statuses(CreateStep(c, unmount)), 2)
  {
    var o := c.createSession.GetOr(Returns(None));
    SessionStepTrail(o, c, unmount);
    TrailSkipsQuietEvents(Await(c.createSession.Some?, CreateSession, 2), SessionStep(o, c, unmount), 2);
  }

  lemma AfterFirstDelayTrail(c: Client, unmount: Option<nat>)
    ensures TrailFrom(Statuses(AfterFirstDelay(c, unmount)), 1)
  {
    if Mounted(unmount, 1) {
      assert HappyPath[1] == OpeningChannel;
      CreateStepTrail(c, unmount);
      TrailAnnounces(1, OpeningMessage, CreateStep(c, unmount));
    }
  }

  /**
   * Statuses only move forward through connecting, opening_channel,
   * loading_actor and ready; an error ends the trail, so ready never follows
   * it, and no error is reported before the first await.
   */
  lemma SetupTrailValid(client: Option<Client>, unmount: Option<nat>)
    ensures ValidTrail(Statuses(SetupSession(client, unmount)))
    ensures client.Some? ==> |Statuses(SetupSession(client, unmount))| > 0
  {
    if client.Some? {
      var rest := [Resumed(1)] + AfterFirstDelay(client.value, unmount);
      assert HappyPath[0] == Connecting;
      AfterFirstDelayTrail(client.value, unmount);
      TrailSkipsQuietEvents([Resumed(1)], AfterFirstDelay(client.value, unmount), 1);
      TrailAnnounces(0, ConnectingMessage, rest);
      SetupShape(client.value, unmount);
    }
  }

  lemma SetupShape(c: Client, unmount: Option<nat>)
    ensures SetupSession(Some(c), unmount)
      == [StatusSet(Connecting), MessageSet(ConnectingMessage)] + ([Resumed(1)] + AfterFirstDelay(c, unmount))
  {
  }

  /** The final status is the last one in the trail, so `ready` and `error` are final. */
  lemma FinalStatusEndsTrail(client: Option<Client>, unmount: Option<nat>)
    ensures var t := Statuses(SetupSession(client, unmount));
      Final(client, unmount).setupStatus == if |t| == 0 then Connecting else t[|t| - 1]
  {
    RunStatusIsLastSet(InitialHookState, SetupSession(client, unmount));
  }

  /** A message reporting a failure. */
  predicate IsErrorMessage(m: string) {
    |m| >= 7 && m[..7] == "Error: "
  }

  /** The log ends by setting `error` and then an error message. */
  predicate EndsInError(log: seq<Event>) {
    |log| >= 2 && log[|log| - 2] == StatusSet(Error) && log[|log| - 1].MessageSet? && IsErrorMessage(log[|log| - 1].message)
  }

  lemma EndsInErrorAfter(a: seq<Event>, b: seq<Event>)
    requires StatusSet(Error) !in a
    requires StatusSet(Error) in b ==> EndsInError(b)
    ensures StatusSet(Error) in a + b ==> EndsInError(a + b)
  {
    if StatusSet(Error) in a + b {
      assert (a + b)[|a + b| - 2] == b[|b| - 2];
    }
  }

  lemma CatchEndsInError(unmount: Option<nat>, k: nat, e: Thrown)
    ensures StatusSet(Error) in Catch(unmount, k, e) ==> EndsInError(Catch(unmount, k, e))
  {
    assert ("Error: " + ErrorText(e))[..7] == "Error: ";
  }

  lemma LoadActorEndsInError(c: Client, unmount: Option<nat>, ns: Option<Session>, k: nat)
    ensures StatusSet(Error) in LoadActor(c, unmount, ns, k) ==> EndsInError(LoadActor(c, unmount, ns, k))
  {
    var rest := if Mounted(unmount, k + 1) then StartChatStep(c, unmount, ns, k) else [];
    if Mounted(unmount, k + 1) && DomainActor(ns).Some? {
      var o := c.startChat.GetOr(Returns(()));
      match o
      case Throws(e) => CatchEndsInError(unmount, k + 2, e);
      case Returns(_) =>
      EndsInErrorAfter(Await(c.startChat.Some?, StartChat(DomainActor(ns).value), k + 2), ReadyStep(o, unmount, k + 2));
    }
    EndsInErrorAfter([StatusSet(LoadingActor), MessageSet(LoadingMessage), Resumed(k + 1)], rest);
  }

  lemma AfterSessionEndsInError(c: Client, unmount: Option<nat>, ns: Option<Session>)
    ensures StatusSet(Error) in AfterSession(c, unmount, ns) ==> EndsInError(AfterSession(c, unmount, ns))
  {
    if ChatActor(ns).Some? {
      var o := c.openChannelStream.GetOr(Returns(None));
      match o
      case Throws(e) => CatchEndsInError(unmount, 3, e);
      case Returns(ch) =>
        LoadActorEndsInError(c, unmount, ns, 3);
        EndsInErrorAfter([ChannelSet(ch)], LoadActor(c, unmount, ns, 3));
      EndsInErrorAfter(Await(c.openChannelStream.Some?, OpenChannelStream(ChatActor(ns).value), 3), ChannelStep(o, c, unmount, ns));
    } else {
      LoadActorEndsInError(c, unmount, ns, 2);
    }
  }

  lemma CreateStepEndsInError(c: Client, unmount: Option<nat>)
    ensures StatusSet(Error) in CreateStep(c, unmount) ==> EndsInError(CreateStep(c, unmount))
  {
    var o := c.createSession.GetOr(Returns(None));
    match o
    case Throws(e) => CatchEndsInError(unmount, 2, e);
    case Returns(ns) =>
      AfterSessionEndsInError(c, unmount, ns);
      EndsInErrorAfter([SessionSet(ns)], AfterSession(c, unmount, ns));
    EndsInErrorAfter(Await(c.createSession.Some?, CreateSession, 2), SessionStep(o, c, unmount));
  }

  lemma AfterFirstDelayEndsInError(c: Client, unmount: Option<nat>)
    ensures StatusSet(Error) in AfterFirstDelay(c, unmount) ==> EndsInError(AfterFirstDelay(c, unmount))
  {
    if Mounted(unmount, 1) {
      CreateStepEndsInError(c, unmount);
      EndsInErrorAfter([StatusSet(OpeningChannel), MessageSet(OpeningMessage)], CreateStep(c, unmount));
    }
  }

  lemma SetupEndsInError(client: Option<Client>, unmount: Option<nat>)
    ensures StatusSet(Error) in SetupSession(client, unmount) ==> EndsInError(SetupSession(client, unmount))
  {
    if client.Some? {
      AfterFirstDelayEndsInError(client.value, unmount);
      EndsInErrorAfter([StatusSet(Connecting), MessageSet(ConnectingMessage), Resumed(1)], AfterFirstDelay(client.value, unmount));
    }
  }

  lemma {:induction false} StatusesComeFromEvents(log: seq<Event>, x: SetupStatus)
    requires x in Statuses(log)
    ensures StatusSet(x) in log
    decreases |log|
  {
    var init := log[..|log| - 1];
    if x in Statuses(init) {
      StatusesComeFromEvents(init, x);
      assert forall e :: e in init ==> e in log;
    }
  }

  /** A log that ends by reporting an error leaves the state at `error` with that report. */
  lemma RunEndsInError(st: HookState, log: seq<Event>)
    requires EndsInError(log)
    ensures Run(st, log).setupStatus == Error && Run(st, log).setupMessage == log[|log| - 1].message
  {
    var n := |log|;
    assert log[..n - 1][..n - 2] == log[..n - 2];
  }

  /** When every error a log sets ends it, the state ends at `error` exactly when one was set. */
  lemma ErrorReported(st: HookState, log: seq<Event>)
    requires st.setupStatus != Error
    requires StatusSet(Error) in log ==> EndsInError(log)
    ensures Run(st, log).setupStatus == Error <==> StatusSet(Error) in log
    ensures Run(st, log).setupStatus == Error ==> IsErrorMessage(Run(st, log).setupMessage)
  {
    RunStatusIsLastSet(st, log);
    if Run(st, log).setupStatus == Error {
      StatusesComeFromEvents(log, Error);
    }
    if StatusSet(Error) in log {
      RunEndsInError(st, log);
    }
  }

  /**
   * Setup ends in `error` exactly when some step set it, and then the
   * message is `Error: ` followed by the thrown value's text.
   */
  lemma FailureIsReported(client: Option<Client>, unmount: Option<nat>)
    ensures Final(client, unmount).setupStatus == Error <==> StatusSet(Error) in SetupSession(client, unmount)
    ensures Final(client, unmount).setupStatus == Error ==> IsErrorMessage(Final(client, unmount).setupMessage)
  {
    SetupEndsInError(client, unmount);
    ErrorReported(InitialHookState, SetupSession(client, unmount));
  }

  /** The log ends with the loading message followed only by calls and resumptions. */
  predicate LoadingThenQuiet(log: seq<Event>)
    decreases |log|
  {
    && |log| > 0
    && (log[|log| - 1] == MessageSet(LoadingMessage)
        || (Quiet(log[|log| - 1]) && LoadingThenQuiet(log[..|log| - 1])))
  }

  /** The log ends with `ready`, with only calls and resumptions since the loading message. */
  predicate EndsInReady(log: seq<Event>) {
    |log| >= 2 && log[|log| - 1] == StatusSet(Ready) && LoadingThenQuiet(log[..|log| - 1])
  }

  lemma {:induction false} LoadingThenQuietAfter(a: seq<Event>, b: seq<Event>)
    requires LoadingThenQuiet(b)
    ensures LoadingThenQuiet(a + b)
    decreases |b|
  {
    assert (a + b)[|a + b| - 1] == b[|b| - 1];
    assert (a + b)[..|a + b| - 1] == a + b[..|b| - 1];
    if b[|b| - 1] != MessageSet(LoadingMessage) {
      LoadingThenQuietAfter(a, b[..|b| - 1]);
    }
  }

  lemma {:induction false} LoadingThenQuietEvents(pre: seq<Event>, quiet: seq<Event>)
    requires forall i :: 0 <= i < |quiet| ==> Quiet(quiet[i])
    ensures LoadingThenQuiet(pre + [MessageSet(LoadingMessage)] + quiet)
    decreases |quiet|
  {
    var log := pre + [MessageSet(LoadingMessage)] + quiet;
    if |quiet| > 0 {
      assert log[..|log| - 1] == pre + [MessageSet(LoadingMessage)] + quiet[..|quiet| - 1];
      LoadingThenQuietEvents(pre, quiet[..|quiet| - 1]);
    }
  }

  lemma EndsInReadyAfter(a: seq<Event>, b: seq<Event>)
    requires StatusSet(Ready) !in a
    requires StatusSet(Ready) in b ==> EndsInReady(b)
    ensures StatusSet(Ready) in a + b ==> EndsInReady(a + b)
  {
    if StatusSet(Ready) in a + b {
      assert StatusSet(Ready) in b;
      assert (a + b)[|a + b| - 1] == b[|b| - 1];
      assert (a + b)[..|a + b| - 1] == a + b[..|b| - 1];
      LoadingThenQuietAfter(a, b[..|b| - 1]);
    }
  }

  /** The loading message, then `quiet`, then `ready`. */
  lemma ReadyAfterQuiet(pre: seq<Event>, quiet: seq<Event>)
    requires forall i :: 0 <= i < |quiet| ==> Quiet(quiet[i])
    ensures EndsInReady(pre + [MessageSet(LoadingMessage)] + quiet + [StatusSet(Ready)])
  {
    var log := pre + [MessageSet(LoadingMessage)] + quiet + [StatusSet(Ready)];
    assert log[..|log| - 1] == pre + [MessageSet(LoadingMessage)] + quiet;
    LoadingThenQuietEvents(pre, quiet);
  }

  /** Calls and resumptions, then `ready`. */
  predicate QuietThenReady(log: seq<Event>) {
    && |log| > 0 && log[|log| - 1] == StatusSet(Ready)
    && forall i :: 0 <= i < |log| - 1 ==> Quiet(log[i])
  }

  /** The loading message, calls and resumptions, then a quiet run to `ready`. */
  lemma ReadyAfterLoading(pre: seq<Event>, quiet: seq<Event>, t: seq<Event>)
    requires forall i :: 0 <= i < |quiet| ==> Quiet(quiet[i])
    requires QuietThenReady(t)
    ensures EndsInReady(pre + [MessageSet(LoadingMessage)] + (quiet + t))
  {
    var q := quiet + t[..|t| - 1];
    assert quiet + t == q + [StatusSet(Ready)];
    ReadyAfterQuiet(pre, q);
    assert pre + [MessageSet(LoadingMessage)] + (quiet + t) == pre + [MessageSet(LoadingMessage)] + q + [StatusSet(Ready)];
  }

  lemma StartChatStepEndsInReady(c: Client, unmount: Option<nat>, ns: Option<Session>, k: nat)
    ensures StatusSet(Ready) in StartChatStep(c, unmount, ns, k) ==> QuietThenReady(StartChatStep(c, unmount, ns, k))
  {
    if DomainActor(ns).Some? {
      var call := Await(c.startChat.Some?, StartChat(DomainActor(ns).value), k + 2);
      var o := c.startChat.GetOr(Returns(()));
      if o.Returns? && Mounted(unmount, k + 2) {
        assert StartChatStep(c, unmount, ns, k) == call + [StatusSet(Ready)];
      } else if o.Throws? {
        assert StartChatStep(c, unmount, ns, k) == call + Catch(unmount, k + 2, o.error);
      } else {
        assert StartChatStep(c, unmount, ns, k) == call;
      }
    }
  }

  lemma LoadActorEndsInReady(c: Client, unmount: Option<nat>, ns: Option<Session>, k: nat)
    ensures StatusSet(Ready) in LoadActor(c, unmount, ns, k) ==> EndsInReady(LoadActor(c, unmount, ns, k))
  {
    var tail := if Mounted(unmount, k + 1) then StartChatStep(c, unmount, ns, k) else [];
    assert LoadActor(c, unmount, ns, k) == [StatusSet(LoadingActor)] + [MessageSet(LoadingMessage)] + ([Resumed(k + 1)] + tail);
    if Mounted(unmount, k + 1) {
      StartChatStepEndsInReady(c, unmount, ns, k);
      if StatusSet(Ready) in tail {
        ReadyAfterLoading([StatusSet(LoadingActor)], [Resumed(k + 1)], tail);
      }
    }
  }

  lemma AfterSessionEndsInReady(c: Client, unmount: Option<nat>, ns: Option<Session>)
    ensures StatusSet(Ready) in AfterSession(c, unmount, ns) ==> EndsInReady(AfterSession(c, unmount, ns))
  {
    if ChatActor(ns).Some? {
      var o := c.openChannelStream.GetOr(Returns(None));
      match o
      case Throws(e) =>
      case Returns(ch) =>
        LoadActorEndsInReady(c, unmount, ns, 3);
        EndsInReadyAfter([ChannelSet(ch)], LoadActor(c, unmount, ns, 3));
      EndsInReadyAfter(Await(c.openChannelStream.Some?, OpenChannelStream(ChatActor(ns).value), 3), ChannelStep(o, c, unmount, ns));
    } else {
      LoadActorEndsInReady(c, unmount, ns, 2);
    }
  }

  lemma SessionStepEndsInReady(c: Client, unmount: Option<nat>)
    ensures var step := SessionStep(c.createSession.GetOr(Returns(None)), c, unmount);
      StatusSet(Ready) in step ==> EndsInReady(step)
  {
    match c.createSession.GetOr(Returns(None))
    case Throws(e) =>
    case Returns(ns) =>
      AfterSessionEndsInReady(c, unmount, ns);
      EndsInReadyAfter([SessionSet(ns)], AfterSession(c, unmount, ns));
  }

  lemma AfterFirstDelayEndsInReady(c: Client, unmount: Option<nat>)
    ensures StatusSet(Ready) in AfterFirstDelay(c, unmount) ==> EndsInReady(AfterFirstDelay(c, unmount))
  {
    if Mounted(unmount, 1) {
      var o := c.createSession.GetOr(Returns(None));
      SessionStepEndsInReady(c, unmount);
      EndsInReadyAfter(Await(c.createSession.Some?, CreateSession, 2), SessionStep(o, c, unmount));
      EndsInReadyAfter([StatusSet(OpeningChannel), MessageSet(OpeningMessage)], CreateStep(c, unmount));
    }
  }

  lemma SetupEndsInReady(client: Option<Client>, unmount: Option<nat>)
    ensures StatusSet(Ready) in SetupSession(client, unmount) ==> EndsInReady(SetupSession(client, unmount))
  {
    if client.Some? {
      AfterFirstDelayEndsInReady(client.value, unmount);
      EndsInReadyAfter([StatusSet(Connecting), MessageSet(ConnectingMessage), Resumed(1)], AfterFirstDelay(client.value, unmount));
    }
  }

  lemma {:induction false} RunLoadingThenQuiet(s: HookState, log: seq<Event>)
    requires LoadingThenQuiet(log)
    ensures Run(s, log).setupMessage == LoadingMessage
    decreases |log|
  {
    if log[|log| - 1] != MessageSet(LoadingMessage) {
      RunLoadingThenQuiet(s, log[..|log| - 1]);
    }
  }

  lemma RunEndsInReady(s: HookState, log: seq<Event>)
    requires EndsInReady(log)
    ensures Run(s, log).setupStatus == Ready && Run(s, log).setupMessage == LoadingMessage
  {
    RunLoadingThenQuiet(s, log[..|log| - 1]);
  }

  /**
   * Reaching `ready` does not update the message, which stays at the
   * loading step's `Starting chat automation...`; `isReady` holds exactly
   * when some run step set `ready`.
   */
  lemma ReadyKeepsLoadingMessage(client: Option<Client>, unmount: Option<nat>)
    ensures IsReady(Final(client, unmount)) <==> StatusSet(Ready) in SetupSession(client, unmount)
    ensures IsReady(Final(client, unmount)) ==> Final(client, unmount).setupMessage == LoadingMessage
  {
    var log := SetupSession(client, unmount);
    SetupEndsInReady(client, unmount);
    FinalStatusEndsTrail(client, unmount);
    if IsReady(Final(client, unmount)) {
      StatusesComeFromEvents(log, Ready);
    }
    if StatusSet(Ready) in log {
      RunEndsInReady(InitialHookState, log);
    }
  }

  /** `opening_channel` is announced before `createSession` is called. */
  lemma OpeningAnnouncedBeforeCreate(c: Client, unmount: Option<nat>)
    requires c.createSession.Some? && Mounted(unmount, 1)
    ensures var log := SetupSession(Some(c), unmount);
      |log| >= 6 && log[3] == StatusSet(OpeningChannel) && log[5] == Called(CreateSession)
  {
  }

  /** The session `createSession` resolved with; none when it threw or is missing. */
  function Created(c: Client): Option<Session> {
    match c.createSession.GetOr(Returns(None))
    case Returns(ns) => ns
    case Throws(_) => None
  }

  /** Every call in `log` uses the fields of `ns`, and `createSession` is not among them. */
  ghost predicate CallsUse(log: seq<Event>, ns: Option<Session>) {
    && (forall a :: Called(StartChat(a)) in log ==> DomainActor(ns) == Some(a))
    && (forall id :: Called(OpenChannelStream(id)) in log ==> ChatActor(ns) == Some(id))
    && Called(CreateSession) !in log
  }

  lemma CallsUseConcat(a: seq<Event>, b: seq<Event>, ns: Option<Session>)
    requires CallsUse(a, ns) && CallsUse(b, ns)
    ensures CallsUse(a + b, ns)
  {
  }

  lemma CatchCalls(unmount: Option<nat>, k: nat, e: Thrown, ns: Option<Session>)
    ensures CallsUse(Catch(unmount, k, e), ns)
  {
  }

  lemma LoadActorCalls(c: Client, unmount: Option<nat>, ns: Option<Session>, k: nat)
    ensures CallsUse(LoadActor(c, unmount, ns, k), ns)
  {
    if Mounted(unmount, k + 1) && DomainActor(ns).Some? {
      var o := c.startChat.GetOr(Returns(()));
      match o
      case Throws(e) => CatchCalls(unmount, k + 2, e, ns);
      case Returns(_) =>
      CallsUseConcat(Await(c.startChat.Some?, StartChat(DomainActor(ns).value), k + 2), ReadyStep(o, unmount, k + 2), ns);
    }
  }

  lemma AfterSessionCalls(c: Client, unmount: Option<nat>, ns: Option<Session>)
    ensures CallsUse(AfterSession(c, unmount, ns), ns)
  {
    if ChatActor(ns).Some? {
      var o := c.openChannelStream.GetOr(Returns(None));
      match o
      case Throws(e) => CatchCalls(unmount, 3, e, ns);
      case Returns(ch) =>
        LoadActorCalls(c, unmount, ns, 3);
        CallsUseConcat([ChannelSet(ch)], LoadActor(c, unmount, ns, 3), ns);
      CallsUseConcat(Await(c.openChannelStream.Some?, OpenChannelStream(ChatActor(ns).value), 3), ChannelStep(o, c, unmount, ns), ns);
    } else {
      LoadActorCalls(c, unmount, ns, 2);
    }
  }

  lemma SessionStepCalls(c: Client, unmount: Option<nat>)
    ensures CallsUse(SessionStep(c.createSession.GetOr(Returns(None)), c, unmount), Created(c))
  {
    match c.createSession.GetOr(Returns(None))
    case Throws(e) => CatchCalls(unmount, 2, e, None);
    case Returns(ns) =>
      AfterSessionCalls(c, unmount, ns);
      CallsUseConcat([SessionSet(ns)], AfterSession(c, unmount, ns), ns);
  }

  /** The calls after the first delay: `createSession` when the client has it, then the session's. */
  lemma CreateStepCalls(c: Client, unmount: Option<nat>)
    ensures forall id :: Called(OpenChannelStream(id)) in CreateStep(c, unmount) ==> ChatActor(Created(c)) == Some(id)
    ensures forall a :: Called(StartChat(a)) in CreateStep(c, unmount) ==> DomainActor(Created(c)) == Some(a)
    ensures Called(CreateSession) in CreateStep(c, unmount) <==> c.createSession.Some?
  {
    SessionStepCalls(c, unmount);
  }

  lemma AfterFirstDelayCalls(c: Client, unmount: Option<nat>)
    ensures forall id :: Called(OpenChannelStream(id)) in AfterFirstDelay(c, unmount) ==> ChatActor(Created(c)) == Some(id)
    ensures forall a :: Called(StartChat(a)) in AfterFirstDelay(c, unmount) ==> DomainActor(Created(c)) == Some(a)
    ensures Called(CreateSession) in AfterFirstDelay(c, unmount) <==> c.createSession.Some? && Mounted(unmount, 1)
  {
    if Mounted(unmount, 1) {
      CreateStepCalls(c, unmount);
    }
  }

  /**
   * `openChannelStream` is called only with the session's chat actor id and
   * `startChat` only with its domain actor, both present and non-empty;
   * `createSession` is called exactly when the client has it and the first
   * delay ends while mounted.
   */
  lemma CallsNeedTheSessionFields(client: Option<Client>, unmount: Option<nat>)
    ensures forall id :: Called(OpenChannelStream(id)) in SetupSession(client, unmount) ==>
      client.Some? && ChatActor(Created(client.value)) == Some(id)
    ensures forall a :: Called(StartChat(a)) in SetupSession(client, unmount) ==>
      client.Some? && DomainActor(Created(client.value)) == Some(a)
    ensures Called(CreateSession) in SetupSession(client, unmount) <==>
      client.Some? && client.value.createSession.Some? && Mounted(unmount, 1)
  {
    if client.Some? {
      AfterFirstDelayCalls(client.value, unmount);
    }
  }

  lemma RunCons(st: HookState, e: Event, rest: seq<Event>)
    ensures Run(st, [e] + rest) == Run(Apply(st, e), rest)
  {
    RunConcat(st, [e], rest);
    assert [e][..0] == [];
  }

  lemma RunPairCons(st: HookState, a: Event, b: Event, rest: seq<Event>)
    ensures Run(st, [a, b] + rest) == Run(Apply(Apply(st, a), b), rest)
  {
    assert [a, b] + rest == [a] + ([b] + rest);
    RunCons(st, a, [b] + rest);
    RunCons(Apply(st, a), b, rest);
  }

  lemma StatusesCons(e: Event, rest: seq<Event>)
    ensures Statuses([e] + rest) == StatusOf(e) + Statuses(rest)
  {
    StatusesConcat([e], rest);
    StatusesOfPair(e, e);
  }

  lemma StatusesPairCons(a: Event, b: Event, rest: seq<Event>)
    ensures Statuses([a, b] + rest) == StatusOf(a) + StatusOf(b) + Statuses(rest)
  {
    StatusesConcat([a, b], rest);
    StatusesOfPair(a, b);
  }

  /** Calls and resumptions leave the state alone and set no status. */
  lemma {:induction false} QuietRun(st: HookState, quiet: seq<Event>)
    requires forall i :: 0 <= i < |quiet| ==> Quiet(quiet[i])
    ensures Run(st, quiet) == st
    ensures Statuses(quiet) == []
    decreases |quiet|
  {
    if |quiet| > 0 {
      QuietRun(st, quiet[..|quiet| - 1]);
    }
  }

  /** The loading step's events when it finishes: the announcement, the two awaits, then the outcome. */
  lemma LoadActorShape(c: Client, ns: Option<Session>, k: nat)
    requires DomainActor(ns).Some?
    ensures var awaits := [Resumed(k + 1)] + Await(c.startChat.Some?, StartChat(DomainActor(ns).value), k + 2);
      LoadActor(c, None, ns, k) == [StatusSet(LoadingActor), MessageSet(LoadingMessage)] + awaits + ReadyStep(c.startChat.GetOr(Returns(())), None, k + 2)
  {
  }

  /** The run of an announcement, calls and resumptions, then an outcome. */
  lemma RunAnnounced(st: HookState, x: SetupStatus, m: string, quiet: seq<Event>, outcome: seq<Event>)
    requires forall i :: 0 <= i < |quiet| ==> Quiet(quiet[i])
    ensures Run(st, [StatusSet(x), MessageSet(m)] + quiet + outcome) == Run(st.(setupStatus := x, setupMessage := m), outcome)
    ensures Statuses([StatusSet(x), MessageSet(m)] + quiet + outcome) == [x] + Statuses(outcome)
  {
    var announced := st.(setupStatus := x, setupMessage := m);
    RunConcat(st, [StatusSet(x), MessageSet(m)] + quiet, outcome);
    RunConcat(st, [StatusSet(x), MessageSet(m)], quiet);
    RunPairCons(st, StatusSet(x), MessageSet(m), []);
    assert [StatusSet(x), MessageSet(m)] + [] == [StatusSet(x), MessageSet(m)];
    QuietRun(announced, quiet);
    StatusesConcat([StatusSet(x), MessageSet(m)] + quiet, outcome);
    StatusesConcat([StatusSet(x), MessageSet(m)], quiet);
    StatusesOfPair(StatusSet(x), MessageSet(m));
    assert [x] + [] == [x];
  }

  /** A single status, or a status and a message, as a whole run. */
  lemma RunOutcome(st: HookState, e: Event, tail: seq<Event>)
    requires |tail| <= 1 && (|tail| == 1 ==> tail[0].MessageSet?)
    requires e.StatusSet?
    ensures Run(st, [e] + tail) == if |tail| == 0 then st.(setupStatus := e.status) else st.(setupStatus := e.status, setupMessage := tail[0].message)
    ensures Statuses([e] + tail) == [e.status]
  {
    if |tail| == 0 {
      assert [e] + tail == [e];
      StatusesOfPair(e, e);
    } else {
      assert [e] + tail == [e, tail[0]];
      RunPairCons(st, e, tail[0], []);
      assert [e, tail[0]] + [] == [e, tail[0]];
      StatusesOfPair(e, tail[0]);
    }
  }

  /**
   * Without unmounting, the loading step for a session with a domain actor
   * ends at `ready` (also when the client has no `startChat`).
   */
  lemma LoadActorReady(st: HookState, c: Client, ns: Option<Session>, k: nat)
    requires DomainActor(ns).Some? && c.startChat.GetOr(Returns(())).Returns?
    ensures Run(st, LoadActor(c, None, ns, k)) == st.(setupStatus := Ready, setupMessage := LoadingMessage)
    ensures Statuses(LoadActor(c, None, ns, k)) == [LoadingActor, Ready]
  {
    var awaits := [Resumed(k + 1)] + Await(c.startChat.Some?, StartChat(DomainActor(ns).value), k + 2);
    LoadActorShape(c, ns, k);
    assert ReadyStep(c.startChat.GetOr(Returns(())), None, k + 2) == [StatusSet(Ready)] + [];
    RunAnnounced(st, LoadingActor, LoadingMessage, awaits, [StatusSet(Ready)] + []);
    RunOutcome(st.(setupStatus := LoadingActor, setupMessage := LoadingMessage), StatusSet(Ready), []);
  }

  /** Without unmounting, a `startChat` that throws ends the loading step with its error. */
  lemma LoadActorThrows(st: HookState, c: Client, ns: Option<Session>, k: nat, e: Thrown)
    requires DomainActor(ns).Some? && c.startChat == Some(Throws(e))
    ensures Run(st, LoadActor(c, None, ns, k)) == st.(setupStatus := Error, setupMessage := "Error: " + ErrorText(e))
    ensures Statuses(LoadActor(c, None, ns, k)) == [LoadingActor, Error]
  {
    var awaits := [Resumed(k + 1)] + Await(true, StartChat(DomainActor(ns).value), k + 2);
    var report := [MessageSet("Error: " + ErrorText(e))];
    LoadActorShape(c, ns, k);
    assert ReadyStep(Throws(e), None, k + 2) == [StatusSet(Error)] + report;
    RunAnnounced(st, LoadingActor, LoadingMessage, awaits, [StatusSet(Error)] + report);
    RunOutcome(st.(setupStatus := LoadingActor, setupMessage := LoadingMessage), StatusSet(Error), report);
  }

  /** The first two announcements of a setup run that gets past the first delay. */
  lemma OpeningLog(c: Client, unmount: Option<nat>)
    requires Mounted(unmount, 1)
    ensures SetupSession(Some(c), unmount)
      == [StatusSet(Connecting), MessageSet(ConnectingMessage)]
         + ([Resumed(1)] + ([StatusSet(OpeningChannel), MessageSet(OpeningMessage)] + CreateStep(c, unmount)))
  {
  }

  lemma OpeningState(c: Client, unmount: Option<nat>)
    requires Mounted(unmount, 1)
    ensures Run(InitialHookState, SetupSession(Some(c), unmount))
      == Run(HookState(OpeningChannel, OpeningMessage, None, None), CreateStep(c, unmount))
  {
    var opening := [StatusSet(OpeningChannel), MessageSet(OpeningMessage)] + CreateStep(c, unmount);
    OpeningLog(c, unmount);
    RunPairCons(InitialHookState, StatusSet(Connecting), MessageSet(ConnectingMessage), [Resumed(1)] + opening);
    assert Apply(Apply(InitialHookState, StatusSet(Connecting)), MessageSet(ConnectingMessage)) == InitialHookState;
    RunCons(InitialHookState, Resumed(1), opening);
    RunPairCons(InitialHookState, StatusSet(OpeningChannel), MessageSet(OpeningMessage), CreateStep(c, unmount));
    assert Apply(Apply(InitialHookState, StatusSet(OpeningChannel)), MessageSet(OpeningMessage))
      == HookState(OpeningChannel, OpeningMessage, None, None);
  }

  /** Two announcements around a quiet event add their two statuses in front of the trail. */
  lemma StatusesTwoAnnouncements(x: SetupStatus, m: string, q: Event, y: SetupStatus, n: string, rest: seq<Event>)
    requires Quiet(q)
    ensures Statuses([StatusSet(x), MessageSet(m)] + ([q] + ([StatusSet(y), MessageSet(n)] + rest))) == [x, y] + Statuses(rest)
  {
    var inner := [StatusSet(y), MessageSet(n)] + rest;
    StatusesPairCons(StatusSet(x), MessageSet(m), [q] + inner);
    StatusesCons(q, inner);
    assert StatusOf(q) == [];
    assert [] + Statuses(inner) == Statuses(inner);
    StatusesPairCons(StatusSet(y), MessageSet(n), rest);
    assert StatusOf(StatusSet(x)) + StatusOf(MessageSet(m)) == [x];
    assert StatusOf(StatusSet(y)) + StatusOf(MessageSet(n)) == [y];
    assert [x] + ([y] + Statuses(rest)) == [x, y] + Statuses(rest);
  }

  lemma OpeningStatuses(c: Client, unmount: Option<nat>)
    requires Mounted(unmount, 1)
    ensures Statuses(SetupSession(Some(c), unmount)) == [Connecting, OpeningChannel] + Statuses(CreateStep(c, unmount))
  {
    OpeningLog(c, unmount);
    StatusesTwoAnnouncements(Connecting, ConnectingMessage, Resumed(1), OpeningChannel, OpeningMessage, CreateStep(c, unmount));
  }

  /** The state and statuses once `opening_channel` is announced, from the start of setup. */
  lemma OpeningRun(c: Client, unmount: Option<nat>)
    requires Mounted(unmount, 1)
    ensures Run(InitialHookState, SetupSession(Some(c), unmount))
      == Run(HookState(OpeningChannel, OpeningMessage, None, None), CreateStep(c, unmount))
    ensures Statuses(SetupSession(Some(c), unmount)) == [Connecting, OpeningChannel] + Statuses(CreateStep(c, unmount))
  {
    OpeningState(c, unmount);
    OpeningStatuses(c, unmount);
  }

  /** Calls and resumptions, then one event that sets no status. */
  lemma RunQuietThen(st: HookState, quiet: seq<Event>, e: Event, rest: seq<Event>)
    requires forall i :: 0 <= i < |quiet| ==> Quiet(quiet[i])
    requires !e.StatusSet?
    ensures Run(st, quiet + ([e] + rest)) == Run(Apply(st, e), rest)
    ensures Statuses(quiet + ([e] + rest)) == Statuses(rest)
  {
    RunConcat(st, quiet, [e] + rest);
    QuietRun(st, quiet);
    RunCons(st, e, rest);
    StatusesConcat(quiet, [e] + rest);
    StatusesCons(e, rest);
    assert [] + ([] + Statuses(rest)) == Statuses(rest);
  }

  /** A `createSession` that resolves stores the session, then the rest of setup runs. */
  lemma SessionRun(st: HookState, c: Client, ns: Option<Session>)
    requires c.createSession == Some(Returns(ns))
    ensures Run(st, CreateStep(c, None)) == Run(st.(session := ns), AfterSession(c, None, ns))
    ensures Statuses(CreateStep(c, None)) == Statuses(AfterSession(c, None, ns))
  {
    RunQuietThen(st, Await(true, CreateSession, 2), SessionSet(ns), AfterSession(c, None, ns));
  }

  /** An `openChannelStream` that resolves stores the channel, then the loading step runs. */
  lemma ChannelRun(st: HookState, c: Client, ns: Option<Session>, ch: Option<Channel>)
    requires ChatActor(ns).Some? && c.openChannelStream == Some(Returns(ch))
    ensures Run(st, AfterSession(c, None, ns)) == Run(st.(channel := ch), LoadActor(c, None, ns, 3))
    ensures Statuses(AfterSession(c, None, ns)) == Statuses(LoadActor(c, None, ns, 3))
  {
    RunQuietThen(st, Await(true, OpenChannelStream(ChatActor(ns).value), 3), ChannelSet(ch), LoadActor(c, None, ns, 3));
  }

  /** A `createSession` that throws, once the hook is still mounted when it settles, reports its error. */
  lemma SessionThrowsRun(st: HookState, c: Client, unmount: Option<nat>, e: Thrown)
    requires c.createSession == Some(Throws(e)) && Mounted(unmount, 2)
    ensures Run(st, CreateStep(c, unmount)) == st.(setupStatus := Error, setupMessage := "Error: " + ErrorText(e))
    ensures Statuses(CreateStep(c, unmount)) == [Error]
  {
    var call := [Called(CreateSession), Resumed(2)];
    var report := [MessageSet("Error: " + ErrorText(e))];
    assert CreateStep(c, unmount) == call + ([StatusSet(Error)] + report);
    RunConcat(st, call, [StatusSet(Error)] + report);
    QuietRun(st, call);
    RunOutcome(st, StatusSet(Error), report);
    StatusesConcat(call, [StatusSet(Error)] + report);
    assert [] + [Error] == [Error];
  }

  /** A `createSession` that throws while mounted ends setup with its error text. */
  lemma CreateSessionFailure(c: Client, e: Thrown, unmount: Option<nat>)
    requires c.createSession == Some(Throws(e)) && Mounted(unmount, 2)
    ensures Final(Some(c), unmount) == HookState(Error, "Error: " + ErrorText(e), None, None)
    ensures Statuses(SetupSession(Some(c), unmount)) == [Connecting, OpeningChannel, Error]
  {
    OpeningRun(c, unmount);
    SessionThrowsRun(HookState(OpeningChannel, OpeningMessage, None, None), c, unmount, e);
  }

  /** A failing `startChat` reports its error after `loading_actor`. */
  lemma StartChatFailure(c: Client, s: Session, e: Thrown)
    requires c.createSession == Some(Returns(Some(s))) && ChatActor(Some(s)).None? && DomainActor(Some(s)).Some?
    requires c.startChat == Some(Throws(e))
    ensures Final(Some(c), None) == HookState(Error, "Error: " + ErrorText(e), Some(s), None)
    ensures Statuses(SetupSession(Some(c), None)) == [Connecting, OpeningChannel, LoadingActor, Error]
  {
    var opening := HookState(OpeningChannel, OpeningMessage, None, None);
    OpeningRun(c, None);
    SessionRun(opening, c, Some(s));
    assert AfterSession(c, None, Some(s)) == LoadActor(c, None, Some(s), 2);
    LoadActorThrows(opening.(session := Some(s)), c, Some(s), 2, e);
  }

  /** The events of a successful loading step. */
  lemma SuccessLoad(c: Client, s: Session)
    requires DomainActor(Some(s)).Some? && c.startChat == Some(Returns(()))
    ensures LoadActor(c, None, Some(s), 3) ==
      [StatusSet(LoadingActor), MessageSet(LoadingMessage), Resumed(4),
       Called(StartChat(s.domainActor.value)), Resumed(5), StatusSet(Ready)]
  {
    assert StartChatStep(c, None, Some(s), 3) == [Called(StartChat(s.domainActor.value)), Resumed(5), StatusSet(Ready)];
  }

  /** The events of a successful channel step. */
  lemma SuccessAfterSession(c: Client, s: Session, ch: Option<Channel>)
    requires ChatActor(Some(s)).Some? && DomainActor(Some(s)).Some?
    requires c.openChannelStream == Some(Returns(ch)) && c.startChat == Some(Returns(()))
    ensures AfterSession(c, None, Some(s)) ==
      [Called(OpenChannelStream(s.chatActorId.value)), Resumed(3), ChannelSet(ch),
       StatusSet(LoadingActor), MessageSet(LoadingMessage), Resumed(4),
       Called(StartChat(s.domainActor.value)), Resumed(5), StatusSet(Ready)]
  {
    SuccessLoad(c, s);
    assert AfterSession(c, None, Some(s))
      == [Called(OpenChannelStream(s.chatActorId.value)), Resumed(3), ChannelSet(ch)] + LoadActor(c, None, Some(s), 3);
  }

  /** The events from `createSession` on, on the success path. */
  lemma SuccessCreateStep(c: Client, s: Session, ch: Option<Channel>)
    requires c.createSession == Some(Returns(Some(s))) && ChatActor(Some(s)).Some? && DomainActor(Some(s)).Some?
    requires c.openChannelStream == Some(Returns(ch)) && c.startChat == Some(Returns(()))
    ensures CreateStep(c, None) ==
      [Called(CreateSession), Resumed(2), SessionSet(Some(s)),
       Called(OpenChannelStream(s.chatActorId.value)), Resumed(3), ChannelSet(ch),
       StatusSet(LoadingActor), MessageSet(LoadingMessage), Resumed(4),
       Called(StartChat(s.domainActor.value)), Resumed(5), StatusSet(Ready)]
  {
    SuccessAfterSession(c, s, ch);
    CreateStepReturns(c, Some(s));
    FlattenThreeNine([Called(CreateSession), Resumed(2), SessionSet(Some(s))], AfterSession(c, None, Some(s)));
  }

  /** A `createSession` that resolves, with the hook mounted: the call, its settling, the session stored, the rest. */
  lemma CreateStepReturns(c: Client, ns: Option<Session>)
    requires c.createSession == Some(Returns(ns))
    ensures CreateStep(c, None) == [Called(CreateSession), Resumed(2), SessionSet(ns)] + AfterSession(c, None, ns)
  {
    assert Await(true, CreateSession, 2) == [Called(CreateSession), Resumed(2)];
    assert SessionStep(Returns(ns), c, None) == [SessionSet(ns)] + AfterSession(c, None, ns);
    RegroupPair(Called(CreateSession), Resumed(2), SessionSet(ns), AfterSession(c, None, ns));
  }

  lemma RegroupPair(a: Event, b: Event, x: Event, rest: seq<Event>)
    ensures [a, b] + ([x] + rest) == [a, b, x] + rest
  {
  }

  /** Three events followed by nine, written out. */
  lemma FlattenThreeNine(p: seq<Event>, q: seq<Event>)
    requires |p| == 3 && |q| == 9
    ensures p + q == [p[0], p[1], p[2], q[0], q[1], q[2], q[3], q[4], q[5], q[6], q[7], q[8]]
  {
  }

  /** Five events followed by twelve, written out. */
  lemma FlattenFiveTwelve(p: seq<Event>, q: seq<Event>)
    requires |p| == 5 && |q| == 12
    ensures p + q == [p[0], p[1], p[2], p[3], p[4], q[0], q[1], q[2], q[3], q[4], q[5], q[6], q[7], q[8], q[9], q[10], q[11]]
  {
  }

  lemma Regroup(a: Event, b: Event, r: Event, c: Event, d: Event, rest: seq<Event>)
    ensures [a, b] + ([r] + ([c, d] + rest)) == [a, b, r, c, d] + rest
  {
  }

  lemma SuccessLog(c: Client, s: Session, ch: Option<Channel>)
    requires c.createSession == Some(Returns(Some(s))) && ChatActor(Some(s)).Some? && DomainActor(Some(s)).Some?
    requires c.openChannelStream == Some(Returns(ch)) && c.startChat == Some(Returns(()))
    ensures SetupSession(Some(c), None) ==
      [StatusSet(Connecting), MessageSet(ConnectingMessage), Resumed(1), StatusSet(OpeningChannel), MessageSet(OpeningMessage),
       Called(CreateSession), Resumed(2), SessionSet(Some(s)),
       Called(OpenChannelStream(s.chatActorId.value)), Resumed(3), ChannelSet(ch),
       StatusSet(LoadingActor), MessageSet(LoadingMessage), Resumed(4),
       Called(StartChat(s.domainActor.value)), Resumed(5), StatusSet(Ready)]
  {
    var head := [StatusSet(Connecting), MessageSet(ConnectingMessage), Resumed(1), StatusSet(OpeningChannel), MessageSet(OpeningMessage)];
    SuccessCreateStep(c, s, ch);
    OpeningLog(c, None);
    Regroup(StatusSet(Connecting), MessageSet(ConnectingMessage), Resumed(1), StatusSet(OpeningChannel), MessageSet(OpeningMessage), CreateStep(c, None));
    FlattenFiveTwelve(head, CreateStep(c, None));
  }

  /** The state a successful setup leaves: the session and channel stored, ready. */
  lemma SuccessState(c: Client, s: Session, ch: Option<Channel>)
    requires c.createSession == Some(Returns(Some(s))) && ChatActor(Some(s)).Some? && DomainActor(Some(s)).Some?
    requires c.openChannelStream == Some(Returns(ch)) && c.startChat == Some(Returns(()))
    ensures Final(Some(c), None) == HookState(Ready, LoadingMessage, Some(s), ch)
  {
    var opening := HookState(OpeningChannel, OpeningMessage, None, None);
    OpeningRun(c, None);
    SessionRun(opening, c, Some(s));
    ChannelRun(opening.(session := Some(s)), c, Some(s), ch);
    LoadActorReady(opening.(session := Some(s), channel := ch), c, Some(s), 3);
  }

  /**
   * The success path: every step in order, the session and channel stored,
   * and the message left at `Starting chat automation...` when ready, which
   * differs from the message the status table shows for ready.
   */
  lemma SuccessPath(c: Client, s: Session, ch: Option<Channel>)
    requires c.createSession == Some(Returns(Some(s))) && ChatActor(Some(s)).Some? && DomainActor(Some(s)).Some?
    requires c.openChannelStream == Some(Returns(ch)) && c.startChat == Some(Returns(()))
    ensures SetupSession(Some(c), None) ==
      [StatusSet(Connecting), MessageSet(ConnectingMessage), Resumed(1), StatusSet(OpeningChannel), MessageSet(OpeningMessage),
       Called(CreateSession), Resumed(2), SessionSet(Some(s)),
       Called(OpenChannelStream(s.chatActorId.value)), Resumed(3), ChannelSet(ch),
       StatusSet(LoadingActor), MessageSet(LoadingMessage), Resumed(4),
       Called(StartChat(s.domainActor.value)), Resumed(5), StatusSet(Ready)]
    ensures Final(Some(c), None) == HookState(Ready, LoadingMessage, Some(s), ch)
    ensures IsReady(Final(Some(c), None))
    ensures Final(Some(c), None).setupMessage != TheaterHelpers.SetupStatusInfo(Ready).message
  {
    SuccessLog(c, s, ch);
    SuccessState(c, s, ch);
  }

  /** A session without a chat actor id skips the channel and keeps it null. */
  lemma NoChatActorNoChannel(c: Client, s: Session)
    requires c.createSession == Some(Returns(Some(s))) && ChatActor(Some(s)).None?
    ensures forall id :: Called(OpenChannelStream(id)) !in SetupSession(Some(c), None)
    ensures Final(Some(c), None).channel.None?
  {
    var opening := HookState(OpeningChannel, OpeningMessage, None, None);
    CallsNeedTheSessionFields(Some(c), None);
    OpeningRun(c, None);
    SessionRun(opening, c, Some(s));
    assert AfterSession(c, None, Some(s)) == LoadActor(c, None, Some(s), 2);
    LoadActorSetsNoChannel(c, None, Some(s), 2);
    ChannelUntouched(opening.(session := Some(s)), LoadActor(c, None, Some(s), 2));
  }

  lemma LoadActorSetsNoChannel(c: Client, unmount: Option<nat>, ns: Option<Session>, k: nat)
    ensures forall ch :: ChannelSet(ch) !in LoadActor(c, unmount, ns, k)
  {
  }

  lemma {:induction false} ChannelUntouched(st: HookState, log: seq<Event>)
    requires forall ch :: ChannelSet(ch) !in log
    ensures Run(st, log).channel == st.channel
    decreases |log|
  {
    if |log| > 0 {
      assert forall ch :: ChannelSet(ch) in log[..|log| - 1] ==> ChannelSet(ch) in log;
      ChannelUntouched(st, log[..|log| - 1]);
    }
  }

  lemma PrefixConcat(a: seq<Event>, x: seq<Event>, y: seq<Event>)
    requires x <= y
    ensures a + x <= a + y
  {
    assert (a + y)[..|a + x|] == a + x;
  }

  lemma CatchTruncates(n: nat, k: nat, e: Thrown)
    ensures Catch(Some(n), k, e) <= Catch(None, k, e)
  {
  }

  lemma LoadActorTruncates(c: Client, n: nat, ns: Option<Session>, k: nat)
    ensures LoadActor(c, Some(n), ns, k) <= LoadActor(c, None, ns, k)
  {
    var head: seq<Event> := [StatusSet(LoadingActor), MessageSet(LoadingMessage), Resumed(k + 1)];
    var cut := if Mounted(Some(n), k + 1) then StartChatStep(c, Some(n), ns, k) else [];
    var full := StartChatStep(c, None, ns, k);
    if Mounted(Some(n), k + 1) && DomainActor(ns).Some? {
      var o := c.startChat.GetOr(Returns(()));
      match o
      case Throws(e) => CatchTruncates(n, k + 2, e);
      case Returns(_) =>
      PrefixConcat(Await(c.startChat.Some?, StartChat(DomainActor(ns).value), k + 2), ReadyStep(o, Some(n), k + 2), ReadyStep(o, None, k + 2));
    }
    PrefixConcat(head, cut, full);
  }

  lemma AfterSessionTruncates(c: Client, n: nat, ns: Option<Session>)
    ensures AfterSession(c, Some(n), ns) <= AfterSession(c, None, ns)
  {
    if ChatActor(ns).Some? {
      var o := c.openChannelStream.GetOr(Returns(None));
      match o
      case Throws(e) => CatchTruncates(n, 3, e);
      case Returns(ch) =>
        if Mounted(Some(n), 3) {
          LoadActorTruncates(c, n, ns, 3);
          PrefixConcat([ChannelSet(ch)], LoadActor(c, Some(n), ns, 3), LoadActor(c, None, ns, 3));
        }
      PrefixConcat(Await(c.openChannelStream.Some?, OpenChannelStream(ChatActor(ns).value), 3),
                   ChannelStep(o, c, Some(n), ns), ChannelStep(o, c, None, ns));
    } else {
      LoadActorTruncates(c, n, ns, 2);
    }
  }

  lemma SessionStepTruncates(c: Client, n: nat)
    ensures var o := c.createSession.GetOr(Returns(None));
      SessionStep(o, c, Some(n)) <= SessionStep(o, c, None)
  {
    match c.createSession.GetOr(Returns(None))
    case Throws(e) => CatchTruncates(n, 2, e);
    case Returns(ns) =>
      if Mounted(Some(n), 2) {
        AfterSessionTruncates(c, n, ns);
        PrefixConcat([SessionSet(ns)], AfterSession(c, Some(n), ns), AfterSession(c, None, ns));
      }
  }

  /**
   * Unmounting only cuts the run short: every event of an unmounted run is
   * the corresponding event of the run that stays mounted, and unmounting
   * during the first delay leaves only the synchronous first step and the
   * delay settling.
   */
  lemma UnmountOnlyTruncates(client: Option<Client>, n: nat)
    ensures SetupSession(client, Some(n)) <= SetupSession(client, None)
    ensures client.Some? && n == 0 ==> SetupSession(client, Some(n)) == [StatusSet(Connecting), MessageSet(ConnectingMessage), Resumed(1)]
  {
    if client.Some? {
      var c := client.value;
      var head: seq<Event> := [StatusSet(Connecting), MessageSet(ConnectingMessage), Resumed(1)];
      if Mounted(Some(n), 1) {
        var opening := [StatusSet(OpeningChannel), MessageSet(OpeningMessage)] + Await(c.createSession.Some?, CreateSession, 2);
        var o := c.createSession.GetOr(Returns(None));
        SessionStepTruncates(c, n);
        PrefixConcat(opening, SessionStep(o, c, Some(n)), SessionStep(o, c, None));
      }
      PrefixConcat(head, AfterFirstDelay(c, Some(n)), AfterFirstDelay(c, None));
    }
  }

  /** No resumption in `log` is past the n-th await. */
  ghost predicate ResumesBy(log: seq<Event>, n: nat) {
    forall k: nat :: Resumed(k) in log ==> k <= n
  }

  /**
   * `log` is the run `full` as a hook unmounted during the (n + 1)-th await
   * produces it: no later await settles, nothing follows the (n + 1)-th
   * settling, and a run that never reaches that await is not cut at all.
   */
  ghost predicate CutAfter(log: seq<Event>, full: seq<Event>, n: nat) {
    && ResumesBy(log, n + 1)
    && (Resumed(n + 1) in log ==> log[|log| - 1] == Resumed(n + 1))
    && (Resumed(n + 1) !in log ==> log == full)
  }

  lemma CutAfterConcat(a: seq<Event>, b: seq<Event>, full: seq<Event>, n: nat)
    requires ResumesBy(a, n) && CutAfter(b, full, n)
    ensures CutAfter(a + b, a + full, n)
  {
    if Resumed(n + 1) in a + b {
      assert Resumed(n + 1) in b;
      assert (a + b)[|a + b| - 1] == b[|b| - 1];
    }
  }

  /** The k-th await settles after `pre`; the hook goes on with `step` only while mounted. */
  lemma CutAtResume(pre: seq<Event>, k: nat, step: seq<Event>, full: seq<Event>, n: nat)
    requires ResumesBy(pre, n) && k <= n + 1
    requires k == n + 1 ==> step == []
    requires k <= n ==> CutAfter(step, full, n)
    ensures CutAfter(pre + [Resumed(k)] + step, pre + [Resumed(k)] + full, n)
  {
    if k <= n {
      CutAfterConcat(pre + [Resumed(k)], step, full, n);
    } else {
      assert pre + [Resumed(k)] + step == pre + [Resumed(k)];
    }
  }

  lemma ReadyStepCut(o: Outcome<()>, n: nat, k: nat)
    requires k <= n + 1
    ensures k == n + 1 ==> ReadyStep(o, Some(n), k) == []
    ensures k <= n ==> CutAfter(ReadyStep(o, Some(n), k), ReadyStep(o, None, k), n)
  {
  }

  lemma StartChatStepCut(c: Client, n: nat, ns: Option<Session>, k: nat)
    requires k + 1 <= n
    ensures CutAfter(StartChatStep(c, Some(n), ns, k), StartChatStep(c, None, ns, k), n)
  {
    if DomainActor(ns).Some? {
      var o := c.startChat.GetOr(Returns(()));
      ReadyStepCut(o, n, k + 2);
      CutAtResume(CallIf(c.startChat.Some?, StartChat(DomainActor(ns).value)), k + 2,
                  ReadyStep(o, Some(n), k + 2), ReadyStep(o, None, k + 2), n);
    }
  }

  lemma LoadActorCut(c: Client, n: nat, ns: Option<Session>, k: nat)
    requires k <= n
    ensures CutAfter(LoadActor(c, Some(n), ns, k), LoadActor(c, None, ns, k), n)
  {
    var pre: seq<Event> := [StatusSet(LoadingActor), MessageSet(LoadingMessage)];
    var step := if Mounted(Some(n), k + 1) then StartChatStep(c, Some(n), ns, k) else [];
    if k + 1 <= n {
      StartChatStepCut(c, n, ns, k);
    }
    CutAtResume(pre, k + 1, step, StartChatStep(c, None, ns, k), n);
    assert pre + [Resumed(k + 1)] == [StatusSet(LoadingActor), MessageSet(LoadingMessage), Resumed(k + 1)];
  }

  lemma ChannelStepCut(o: Outcome<Option<Channel>>, c: Client, n: nat, ns: Option<Session>)
    requires 3 <= n
    ensures CutAfter(ChannelStep(o, c, Some(n), ns), ChannelStep(o, c, None, ns), n)
  {
    match o
    case Throws(e) =>
    case Returns(ch) =>
      LoadActorCut(c, n, ns, 3);
      CutAfterConcat([ChannelSet(ch)], LoadActor(c, Some(n), ns, 3), LoadActor(c, None, ns, 3), n);
  }

  lemma AfterSessionCut(c: Client, n: nat, ns: Option<Session>)
    requires 2 <= n
    ensures CutAfter(AfterSession(c, Some(n), ns), AfterSession(c, None, ns), n)
  {
    if ChatActor(ns).Some? {
      var o := c.openChannelStream.GetOr(Returns(None));
      if 3 <= n {
        ChannelStepCut(o, c, n, ns);
      }
      CutAtResume(CallIf(c.openChannelStream.Some?, OpenChannelStream(ChatActor(ns).value)), 3,
                  ChannelStep(o, c, Some(n), ns), ChannelStep(o, c, None, ns), n);
    } else {
      LoadActorCut(c, n, ns, 2);
    }
  }

  lemma SessionStepCut(o: Outcome<Option<Session>>, c: Client, n: nat)
    requires 2 <= n
    ensures CutAfter(SessionStep(o, c, Some(n)), SessionStep(o, c, None), n)
  {
    match o
    case Throws(e) =>
    case Returns(ns) =>
      AfterSessionCut(c, n, ns);
      CutAfterConcat([SessionSet(ns)], AfterSession(c, Some(n), ns), AfterSession(c, None, ns), n);
  }

  lemma AfterFirstDelayCut(c: Client, n: nat)
    requires 1 <= n
    ensures CutAfter(AfterFirstDelay(c, Some(n)), AfterFirstDelay(c, None), n)
  {
    var o := c.createSession.GetOr(Returns(None));
    var pre := [StatusSet(OpeningChannel), MessageSet(OpeningMessage)] + CallIf(c.createSession.Some?, CreateSession);
    if 2 <= n {
      SessionStepCut(o, c, n);
    }
    CutAtResume(pre, 2, SessionStep(o, c, Some(n)), SessionStep(o, c, None), n);
  }

  /**
   * Unmounting stops the run at the next await: a hook unmounted while its
   * (n + 1)-th await is pending goes on past no later await, does nothing
   * after that await settles, and if the run never reaches that await it
   * produces the whole mounted run.
   */
  lemma UnmountStopsSetup(client: Option<Client>, n: nat)
    ensures var log := SetupSession(client, Some(n));
      && (forall k: nat :: Resumed(k) in log ==> k <= n + 1)
      && (Resumed(n + 1) in log ==> log[|log| - 1] == Resumed(n + 1))
      && (Resumed(n + 1) !in log ==> log == SetupSession(client, None))
  {
    if client.Some? {
      var c := client.value;
      var pre: seq<Event> := [StatusSet(Connecting), MessageSet(ConnectingMessage)];
      if 1 <= n {
        AfterFirstDelayCut(c, n);
      }
      CutAtResume(pre, 1, if Mounted(Some(n), 1) then AfterFirstDelay(c, Some(n)) else [], AfterFirstDelay(c, None), n);
      assert pre + [Resumed(1)] == [StatusSet(Connecting), MessageSet(ConnectingMessage), Resumed(1)];
    }
  }

  /**
   * Unmounting while `createSession` is pending: setup announces
   * `opening_channel`, the call settles, and no session, channel or later
   * status is ever set.
   */
  lemma UnmountDuringCreate(c: Client)
    ensures SetupSession(Some(c), Some(1)) ==
      [StatusSet(Connecting), MessageSet(ConnectingMessage), Resumed(1), StatusSet(OpeningChannel), MessageSet(OpeningMessage)]
      + Await(c.createSession.Some?, CreateSession, 2)
  {
    assert SessionStep(c.createSession.GetOr(Returns(None)), c, Some(1)) == [];
  }

  const NotReady := ErrorObject("Session not ready")

  /** `sendMessage`: needs the session's domain actor and the client's method. */
  function SendMessage(session: Option<Session>, c: Client, message: string): (r: Outcome<string>)
    ensures DomainActor(session).None? || c.sendMessage.None? ==> r == Throws(NotReady)
    ensures DomainActor(session).Some? && c.sendMessage.Some? ==> r == c.sendMessage.value(DomainActor(session).value, message)
  {
    if DomainActor(session).None? || c.sendMessage.None? then Throws(NotReady)
    else c.sendMessage.value(DomainActor(session).value, message)
  }

  /** Before setup has stored a session, sending always fails. */
  lemma SendBeforeSetupFails(c: Client, message: string)
    ensures SendMessage(InitialHookState.session, c, message) == Throws(NotReady)
  {
  }

  /** A successful setup makes sending go straight to the client. */
  lemma SendAfterSuccess(c: Client, s: Session, ch: Option<Channel>, message: string)
    requires c.createSession == Some(Returns(Some(s))) && ChatActor(Some(s)).Some? && DomainActor(Some(s)).Some?
    requires c.openChannelStream == Some(Returns(ch)) && c.startChat == Some(Returns(())) && c.sendMessage.Some?
    ensures SendMessage(Final(Some(c), None).session, c, message) == c.sendMessage.value(s.domainActor.value, message)
  {
    SuccessPath(c, s, ch);
  }

  datatype CleanupCall = Close(channel: Channel) | StopActor(actor: string)

  /**
   * `cleanup`: close the channel if there is one, then stop the domain actor
   * if there is one and the client can. A throw from `close` skips the stop;
   * every error is swallowed, so cleanup itself always succeeds.
   */
  function Cleanup(s: HookState, c: Client, closeThrows: bool): (calls: seq<CleanupCall>)
    ensures s.channel.Some? ==> |calls| > 0 && calls[0] == Close(s.channel.value)
    ensures s.channel.None? ==> forall ch :: Close(ch) !in calls
    ensures (exists a :: StopActor(a) in calls) <==>
      DomainActor(s.session).Some? && c.stopActor.Some? && !(s.channel.Some? && closeThrows)
    ensures forall a :: StopActor(a) in calls ==> calls[|calls| - 1] == StopActor(a) && DomainActor(s.session) == Some(a)
    ensures |calls| <= 2
  {
    var close := if s.channel.Some? then [Close(s.channel.value)] else [];
    if s.channel.Some? && closeThrows then close
    else if DomainActor(s.session).Some? && c.stopActor.Some? then
      assert StopActor(DomainActor(s.session).value) in close + [StopActor(DomainActor(s.session).value)];
      close + [StopActor(DomainActor(s.session).value)]
    else close
  }

  /**
   * Cleanup leaves the state as it was, so calling it again closes the same
   * channel and stops the same actor a second time.
   */
  lemma CleanupTwiceRepeats(s: HookState, c: Client, closeThrows: bool)
    requires s.channel.Some?
    ensures var twice := Cleanup(s, c, closeThrows) + Cleanup(s, c, closeThrows);
      |twice| >= 2 && twice[0] == Close(s.channel.value) && twice[|Cleanup(s, c, closeThrows)|] == Close(s.channel.value)
    ensures DomainActor(s.session).Some? && c.stopActor.Some? && !closeThrows ==>
      var stop := StopActor(DomainActor(s.session).value);
      Cleanup(s, c, closeThrows) + Cleanup(s, c, closeThrows) == [Close(s.channel.value), stop, Close(s.channel.value), stop]
  {
  }
}
