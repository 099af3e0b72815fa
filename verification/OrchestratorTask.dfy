/** The task that owns the cryptographic core: it feeds the core events and carries out the actions the
    core answers with. The core, the network and the clock may answer anything. */
module OrchestratorTask {
  import opened Wrappers
  import opened Bytes
  import opened Storage
  import opened ReplayGuard
  import opened StreamCursor
  import Knst
  import Text
  import Tracking = CursorTracker

  datatype Event =
    | ActiveChatChanged(contact: string, isActive: bool)
    | OutgoingMessage(contact: string, messageId: string, plaintext: bytes, contentType: byte)
    | MessageReceived(messageId: string, from: string, data: bytes, msgNum: nat, isControl: bool, contentType: byte)
    | AckReceived(messageId: string)
    | KeyBundleFetched(user: string, bundle: string)
    | SessionInitCompleted(contact: string)
    | SessionLoaded(key: string, loaded: Option<bytes>)
    | AckDbResult(messageId: string, isProcessed: bool)
    | TimerFired(timerId: string)
    | AppLaunched
    | NetworkReconnected

  datatype Action =
    | InitSession(contact: string, bundle: string)
    | MessageDecrypted(contact: string, messageId: string, plaintext: bytes)
    | SessionHealNeeded(contact: string, role: string)
    | SaveSessionToSecureStore(key: string, data: bytes)
    | LoadSessionFromSecureStore(key: string)
    | PersistMessage(json: string)
    | PersistAck(messageId: string, timestamp: int)
    | PruneAckStore(cutoff: int)
    | MarkMessageDelivered(messageId: string)
    | CheckAckInDb(messageId: string)
    | SendHeartbeat(contact: string)
    | ScheduleTimer(timerId: string)
    | CancelTimer(timerId: string)
    | SessionTerminated(contact: string, archive: bytes)
    | Other   // actions that only send, notify or do nothing

  /** What reaches the task: events from its channel, and commands. */
  datatype Input =
    | FromChannel(event: Event)
    | ForgetContact(contact: string)
    | StreamMessage(event: Event, m: ReplayGuard.StreamMessage)

  datatype Source = Channel | Stream(m: ReplayGuard.StreamMessage) | FollowUp | Internal

  /** The record of a run. */
  datatype Mark =
    | Handled(event: Event, source: Source, active: bool, yielded: seq<Action>)   // the core was given an event
    | Did(action: Action)                                                 // an action was begun
    | Left(events: seq<Event>)                                            // what it left for the core
    | Inited(contact: string, at: u64)                                    // InitSession succeeded
    | HealReset(contact: string)                                          // a heal told the peer to reset
    | HealInit(contact: string)                                           // a heal set the session up again
    | Terminated(contact: string)
    | Forgotten(contact: string)
    | Dropped(m: ReplayGuard.StreamMessage)                               // a replay was dropped
    | Noted(id: string, cursor: Option<string>)                           // a message's cursor was noted
    | Refused(contact: string, active: bool)                              // an outgoing message went no further
    // what was asked of the core and the network, and the answer
    | Counted(contact: string, n: nat)
    | Peeked(contact: string, wire: Option<bytes>)
    | HealTaken(contact: string, wire: Option<bytes>)
    | Fetched(contact: string, bundle: Option<string>)

  // ---- what a record means ----

  /** Since when a contact's session is established, as the record tells it. */
  function EstablishedAt(trace: seq<Mark>, c: string): Option<u64> {
    if trace == [] then None
    else
      var last := trace[|trace| - 1];
      if last.Inited? && last.contact == c then Some(last.at)
      else if (last.Terminated? || last.Forgotten?) && last.contact == c then None
      else EstablishedAt(trace[..|trace| - 1], c)
  }

  ghost predicate Ends(m: Mark, c: string) {
    (m.Terminated? || m.Forgotten? || m.Inited?) && m.contact == c
  }

  /** That is: the last InitSession that succeeded, if nothing has ended the session since. */
  lemma {:induction false} EstablishedMeans(trace: seq<Mark>, c: string, at: u64)
    ensures EstablishedAt(trace, c) == Some(at) <==>
            exists i | 0 <= i < |trace| :: trace[i] == Inited(c, at) && forall j | i < j < |trace| :: !Ends(trace[j], c)
  {
    if trace != [] {
      var n := |trace| - 1;
      var before, last := trace[..n], trace[n];
      EstablishedMeans(before, c, at);
      if last == Inited(c, at) {
        assert trace[n] == Inited(c, at);
      } else if Ends(last, c) {
        assert Ends(trace[n], c);
      } else {
        assert forall i | 0 <= i < n :: before[i] == trace[i];
        if EstablishedAt(trace, c) == Some(at) {
          var i :| 0 <= i < n && before[i] == Inited(c, at) && forall j | i < j < n :: !Ends(before[j], c);
          assert trace[i] == Inited(c, at) && forall j | i < j < |trace| :: !Ends(trace[j], c);
        }
      }
    }
  }

  /** A set-up message (message number 0), a session reset (content type 21) or a reset with set-up (24),
      older than a session that is still established. */
  ghost predicate Outdated(trace: seq<Mark>, m: ReplayGuard.StreamMessage) {
    && (m.msgNum == 0 || m.contentType == 21 || m.contentType == 24)
    && CursorMillis(m.cursor).Some? && EstablishedAt(trace, m.contact).Some?
    && CursorMillis(m.cursor).value < EstablishedAt(trace, m.contact).value
  }

  /** A mark is lawful after a record: exactly the outdated messages are dropped; an outgoing message from
      the channel reaches the core only with an active session, framed or led by NUL, and is refused only
      without one. */
  ghost predicate LawfulMark(trace: seq<Mark>, m: Mark) {
    && (m.Dropped? ==> Outdated(trace, m.m))
    && (m.Handled? && m.source.Stream? ==> !Outdated(trace, m.source.m))
    && (m.Handled? && m.source.Channel? && m.event.OutgoingMessage? ==> m.active && Knst.Presentable(m.event.plaintext))
    && (m.Refused? ==> !m.active)
  }

  ghost predicate Lawful(trace: seq<Mark>) {
    forall k | 0 <= k < |trace| :: LawfulMark(trace[..k], trace[k])
  }

  function Get(m: map<string, u64>, c: string): Option<u64> {
    if c in m then Some(m[c]) else None
  }

  /** The task's table agrees with a lawful record. */
  ghost predicate Consistent(trace: seq<Mark>, established: map<string, u64>) {
    && (forall c :: Get(established, c) == EstablishedAt(trace, c))
    && Lawful(trace)
  }

  function Effect(established: map<string, u64>, m: Mark): map<string, u64> {
    if m.Inited? then established[m.contact := m.at]
    else if m.Terminated? || m.Forgotten? then established - {m.contact}
    else established
  }

  lemma Recorded(trace: seq<Mark>, established: map<string, u64>, m: Mark)
    requires Consistent(trace, established) && LawfulMark(trace, m)
    ensures Consistent(trace + [m], Effect(established, m))
  {
    hide LawfulMark;
    var now := trace + [m];
    assert now[..|trace|] == trace;
    forall c
      ensures Get(Effect(established, m), c) == EstablishedAt(now, c)
    {
      assert Get(established, c) == EstablishedAt(trace, c);
    }
    forall k | 0 <= k < |now|
      ensures LawfulMark(now[..k], now[k])
    {
      assert k < |trace| ==> now[..k] == trace[..k];
    }
  }

  /** How often the core was called. */
  function CoreCalls(trace: seq<Mark>): nat {
    if trace == [] then 0
    else CoreCalls(trace[..|trace| - 1]) + if trace[|trace| - 1].Handled? then 1 else 0
  }

  /** Every action the core has yielded, in order. */
  function Yielded(trace: seq<Mark>): seq<Action> {
    if trace == [] then []
    else Yielded(trace[..|trace| - 1]) + if trace[|trace| - 1].Handled? then trace[|trace| - 1].yielded else []
  }

  /** Every action that was carried out, in order. */
  function Done(trace: seq<Mark>): seq<Action> {
    if trace == [] then []
    else Done(trace[..|trace| - 1]) + if trace[|trace| - 1].Did? then [trace[|trace| - 1].action] else []
  }

  /** Every event the actions have left for the core, in order. */
  function LeftBehind(trace: seq<Mark>): seq<Event> {
    if trace == [] then []
    else LeftBehind(trace[..|trace| - 1]) + if trace[|trace| - 1].Left? then trace[|trace| - 1].events else []
  }

  /** Every event the core was given as a follow-up, in order. */
  function Resumed(trace: seq<Mark>): seq<Event> {
    if trace == [] then []
    else Resumed(trace[..|trace| - 1]) + Resumes(trace[|trace| - 1])
  }

  function Resumes(m: Mark): seq<Event> {
    if m.Handled? && m.source.FollowUp? then [m.event] else []
  }

  lemma OneMark(trace: seq<Mark>, m: Mark)
    ensures CoreCalls(trace + [m]) == CoreCalls(trace) + if m.Handled? then 1 else 0
    ensures Yielded(trace + [m]) == Yielded(trace) + if m.Handled? then m.yielded else []
    ensures Done(trace + [m]) == Done(trace) + if m.Did? then [m.action] else []
    ensures LeftBehind(trace + [m]) == LeftBehind(trace) + if m.Left? then m.events else []
    ensures Resumed(trace + [m]) == Resumed(trace) + Resumes(m)
  {
    assert (trace + [m])[..|trace|] == trace;
  }

  /** `now` continues `before` by carrying out `actions`, which left `left`, without a core call. */
  ghost predicate Carried(before: seq<Mark>, now: seq<Mark>, actions: seq<Action>, left: seq<Event>) {
    && before <= now && CoreCalls(now) == CoreCalls(before) && Yielded(now) == Yielded(before)
    && Resumed(now) == Resumed(before)
    && Done(now) == Done(before) + actions && LeftBehind(now) == LeftBehind(before) + left
  }

  lemma OneCarried(trace: seq<Mark>, m: Mark)
    requires !m.Handled?
    ensures Carried(trace, trace + [m], if m.Did? then [m.action] else [], if m.Left? then m.events else [])
  {
    OneMark(trace, m);
  }

  lemma CarriedOn(a: seq<Mark>, b: seq<Mark>, c: seq<Mark>, does: seq<Action>, leaves: seq<Event>, more: seq<Action>,
      rest: seq<Event>)
    requires Carried(a, b, does, leaves) && Carried(b, c, more, rest)
    ensures Carried(a, c, does + more, leaves + rest)
  {
    hide CoreCalls, Yielded, Resumed, Done, LeftBehind;
  }

  /** `now` continues `before` without a core call or an action. */
  ghost predicate Quiet(before: seq<Mark>, now: seq<Mark>) {
    Carried(before, now, [], [])
  }

  lemma QuietDrains(before: seq<Mark>, now: seq<Mark>)
    requires Quiet(before, now) && Done(before) == Yielded(before)
    ensures Done(now) == Yielded(now)
  {
  }

  /** Carrying out everything a call of the core yielded leaves nothing outstanding. */
  lemma CarriedDrains(handed: seq<Mark>, now: seq<Mark>, actions: seq<Action>, left: seq<Event>)
    requires Carried(handed, now, actions, left) && Done(handed) + actions == Yielded(handed)
    ensures handed <= now && Done(now) == Yielded(now) && CoreCalls(now) == CoreCalls(handed)
  {
  }

  lemma NothingCarried(trace: seq<Mark>)
    ensures Quiet(trace, trace)
  {
  }

  /** The turn that began with the event after `before` carried out that event's own actions until `cut`.
      What they left, and nothing else, was handed to the core by the end of the turn, in order; what the
      follow-ups left in turn was not. */
  ghost predicate FollowUpsDelivered(before: seq<Mark>, cut: nat, now: seq<Mark>) {
    && |before| < cut <= |now| && now[|before|].Handled?
    && Done(now[..cut]) == Done(before) + now[|before|].yielded
    && LeftBehind(before) <= LeftBehind(now[..cut])
    && Resumed(now[..cut]) == Resumed(before)
    && Resumed(now) == Resumed(before) + LeftBehind(now[..cut])[|LeftBehind(before)|..]
  }

  /** A turn: the core is given the event, and then exactly the events its own actions left, which are at
      most two for each action; and once InitSession has succeeded for a contact, nothing later in the turn
      heals that contact. */
  ghost predicate TurnTaken(before: seq<Mark>, e: Event, source: Source, now: seq<Mark>) {
    && before < now && now[|before|].Handled? && now[|before|].event == e && now[|before|].source == source
    && CoreCalls(now) <= CoreCalls(before) + 1 + 2 * |now[|before|].yielded|
    && CoreCalls(now) - CoreCalls(before) == 1 + |Resumed(now)| - |Resumed(before)|
    && (exists cut :: FollowUpsDelivered(before, cut, now))
    && Done(now) == Yielded(now)
    && forall i, j | |before| <= i < j < |now| ::
         now[i].Inited? && IsHeal(now[j]) ==> now[i].contact != now[j].contact
  }

  lemma TurnExtends(before: seq<Mark>, e: Event, source: Source, now: seq<Mark>)
    requires TurnTaken(before, e, source, now)
    ensures before < now
  {
  }

  /** An attempt to establish a session with a contact that has none: its bundle is fetched, and if there is
      one the core is given it, and has a turn. */
  ghost predicate Attempted(before: seq<Mark>, contact: string, now: seq<Mark>) {
    && before < now && now[|before|].Fetched? && now[|before|].contact == contact
    && if now[|before|].bundle.None? then |now| == |before| + 1
       else TurnTaken(now[..|before| + 1], KeyBundleFetched(contact, now[|before|].bundle.value), Internal, now)
  }

  /** A session ping was handed to the core, with the session active, and its actions were carried out. */
  ghost predicate Pinged(schema: Knst.Schema, before: seq<Mark>, contact: string, now: seq<Mark>) {
    && before < now && now[|before|].Handled? && now[|before|].source == Internal && now[|before|].active
    && now[|before|].event.OutgoingMessage?
    && (var id := now[|before|].event.messageId;
        now[|before|].event == OutgoingMessage(contact, id, Knst.EncodeSessionPing(schema, id), 0))
    && CoreCalls(now) == CoreCalls(before) + 1 && Done(now) == Yielded(now)
  }

  /** Opening a chat: the contact's waiting messages are counted; without an active session one is attempted
      (the record from the count to `mid`), and a new one is followed by a ping, unless messages wait. */
  ghost predicate ChatOpened(schema: Knst.Schema, before: seq<Mark>, contact: string, wasActive: bool, mid: nat,
                             now: seq<Mark>, isActive: bool)
  {
    && |before| < mid <= |now| && before < now && now[|before|].Counted? && now[|before|].contact == contact
    && if wasActive then |now| == |before| + 1
       else
         && Attempted(now[..|before| + 1], contact, now[..mid])
         && if mid == |now| then now[|before|].n > 0 || !isActive
            else now[|before|].n == 0 && Pinged(schema, now[..mid], contact, now)
  }

  predicate OpensChat(e: Event) {
    e.ActiveChatChanged? && e.isActive
  }

  /** An outgoing message as it is presented to the core; every other event as it is. */
  function Presented(schema: Knst.Schema, e: Event): Event {
    if e.OutgoingMessage? then e.(plaintext := Knst.Wrap(schema, e.plaintext, e.messageId)) else e
  }

  /** What happens, up to `ready`, before an event from the channel has its turn. */
  ghost predicate Prepared(schema: Knst.Schema, before: seq<Mark>, e: Event, ready: seq<Mark>) {
    if OpensChat(e) then exists was, mid, now :: ChatOpened(schema, before, e.contact, was, mid, ready, now)
    else if e.OutgoingMessage? then ready == before || Attempted(before, e.contact, ready)
    else ready == before
  }

  /** How an input is answered, as the record tells: a message from the stream is dropped and nothing else
      if it is outdated, otherwise its cursor is noted and it has a turn; a forgotten contact is reported to
      the core and ends forgotten; an event from the channel is prepared and has a turn, except that an
      outgoing message is refused if no session could be established. */
  ghost predicate Answered(schema: Knst.Schema, before: seq<Mark>, input: Input, now: seq<Mark>) {
    match input
    case StreamMessage(e, m) =>
      if Outdated(before, m) then now == before + [Dropped(m)]
      else TurnTaken(before + [Noted(m.id, m.cursor)], e, Stream(m), now)
    case ForgetContact(contact) =>
      && before < now && now[|before|].Handled? && now[|before|].source == Internal
      && now[|before|].event == ActiveChatChanged(contact, false)
      && now[|now| - 1] == Forgotten(contact)
      && CoreCalls(now) == CoreCalls(before) + 1 && Done(now) == Yielded(now)
    case FromChannel(e) =>
      || (exists ready | |before| <= ready < |now| ::
            Prepared(schema, before, e, now[..ready]) && TurnTaken(now[..ready], Presented(schema, e), Channel, now))
      || (e.OutgoingMessage? && now != [] && now[|now| - 1].Refused? && now[|now| - 1].contact == e.contact
          && Attempted(before, e.contact, now[..|now| - 1]))
  }

  /** The record splits at `cuts`, and the part between each two answers an input. */
  ghost predicate AllAnswered(schema: Knst.Schema, trace: seq<Mark>, inputs: seq<Input>, cuts: seq<nat>) {
    && |cuts| <= |inputs| + 1
    && (forall k | 0 <= k < |cuts| :: cuts[k] <= |trace|)
    && (forall j, k | 0 <= j < k < |cuts| :: cuts[j] < cuts[k])
    && forall k | 0 <= k < |cuts| - 1 :: Answered(schema, trace[..cuts[k]], inputs[k], trace[..cuts[k + 1]])
  }

  lemma OneMoreAnswered(schema: Knst.Schema, before: seq<Mark>, now: seq<Mark>, inputs: seq<Input>, cuts: seq<nat>)
    requires AllAnswered(schema, before, inputs, cuts) && 0 < |cuts| <= |inputs| && cuts[|cuts| - 1] == |before|
    requires before < now && Answered(schema, before, inputs[|cuts| - 1], now)
    ensures AllAnswered(schema, now, inputs, cuts + [|now|])
  {
    hide Answered;
    var more := cuts + [|now|];
    forall k | 0 <= k < |more| - 1
      ensures Answered(schema, now[..more[k]], inputs[k], now[..more[k + 1]])
    {
      if k < |cuts| - 1 {
        assert now[..cuts[k]] == before[..cuts[k]] && now[..cuts[k + 1]] == before[..cuts[k + 1]];
      } else {
        assert now[..|before|] == before && now[..|now|] == now;
      }
    }
  }

  ghost predicate IsHeal(m: Mark) {
    m.HealReset? || m.HealInit?
  }

  /** The turn that began at `from`: every contact whose InitSession succeeded in it is in `inited`, and
      none of them was healed afterwards. */
  ghost predicate TurnOk(trace: seq<Mark>, from: nat, inited: set<string>) {
    && from <= |trace|
    && (forall i | from <= i < |trace| :: trace[i].Inited? ==> trace[i].contact in inited)
    && (forall i, j | from <= i < j < |trace| :: trace[i].Inited? && IsHeal(trace[j]) ==>
         trace[i].contact != trace[j].contact)
  }

  lemma TurnWidens(trace: seq<Mark>, from: nat, inited: set<string>, done: set<string>)
    requires TurnOk(trace, from, inited) && inited <= done
    ensures TurnOk(trace, from, done)
  {
  }

  const HEARTBEAT: bytes := [0, 72, 69, 65, 82, 84, 66, 69, 65, 84, 0]

  /** The heartbeat's plaintext is "HEARTBEAT" between two NULs, so it is presented as it is. */
  lemma HeartbeatIs()
    ensures |HEARTBEAT| == 11 && HEARTBEAT[0] == HEARTBEAT[10] == 0
    ensures forall k | 0 <= k < 9 :: HEARTBEAT[k + 1] == "HEARTBEAT"[k] as int
    ensures Knst.Presentable(HEARTBEAT)
  {
  }

  predicate IsHeartbeat(e: Event, contact: string) {
    e.OutgoingMessage? && e.contact == contact && e.plaintext == HEARTBEAT && e.contentType == 0
        && Knst.Presentable(e.plaintext)
  }

  /** The one database statement of an action that consists of one. */
  function Statement(t: Tables, action: Action): Option<Tables> {
    match action
    case SaveSessionToSecureStore(key, data) => Some(SecureSaveOrDelete(t, key, data))
    case PersistMessage(json) => Some(PersistRecord(t, "msg", json))
    case PersistAck(messageId, timestamp) => Some(StoreAck(t, messageId, timestamp))
    case PruneAckStore(cutoff) => Some(PruneAcks(t, cutoff))
    case MarkMessageDelivered(messageId) => Some(MarkDelivered(t, messageId))
    case _ => None
  }

  predicate ConcernsSession(action: Action) {
    action.InitSession? || action.SessionHealNeeded? || action.SessionTerminated?
  }

  function TimersAfter(timers: set<string>, action: Action): set<string> {
    if action.ScheduleTimer? then timers + {action.timerId}
    else if action.CancelTimer? then timers - {action.timerId}
    else timers
  }

  /** Only a heartbeat action queues an event for the task itself, and just the heartbeat. */
  ghost predicate HeartbeatQueued(action: Action, before: seq<Event>, now: seq<Event>) {
    if action.SendHeartbeat? then
      |now| == |before| + 1 && before <= now && IsHeartbeat(now[|before|], action.contact)
    else now == before
  }

  /** The event with which a lookup is answered; a lookup that fails counts as "not there". */
  function Answer(db: Database, statement: nat, action: Action): Option<Event>
    reads db
  {
    var readable := !db.faults(statement);
    match action
    case LoadSessionFromSecureStore(key) =>
      Some(SessionLoaded(key, if readable && key in db.t.secure then Some(db.t.secure[key]) else None))
    case CheckAckInDb(messageId) => Some(AckDbResult(messageId, readable && messageId in db.t.acks))
    case _ => None
  }

  /** Taking a message in: the row is stored once, its cursor saved at most if it is the one noted. */
  ghost predicate TookIn(t: Tables, u: Tables, id: string, contact: string, text: string,
                         noted: Option<string>, ok: bool)
  {
    exists now: int, c ::
      c in {None, noted} && u == Storage.Apply(t, Persist(id, Row(contact, text, Direction.Received, now, ""), c, ok))
  }

  ghost predicate TookInNoted(t: Tables, u: Tables, id: string, contact: string, text: string,
                              noted: map<string, string>, ok: bool)
  {
    TookIn(t, u, id, contact, text, Tracking.Lookup(noted, id), ok)
  }

  lemma TookInMeans(t: Tables, u: Tables, id: string, contact: string, text: string, noted: Option<string>, ok: bool)
    requires TookIn(t, u, id, contact, text, noted, ok)
    ensures !ok ==> u == t
    ensures ok ==>
              && id in u.messages
              && (id in t.messages ==> u.messages == t.messages)
              && (id !in t.messages ==>
                    u.messages == t.messages[id :=
                      Row(contact, text, Direction.Received, u.messages[id].timestampMs, "")])
    ensures LoadCursor(u) in {LoadCursor(t), noted}
    ensures u == t.(messages := u.messages, secure := u.secure)
  {
    hide LoadCursor;
    var now, c :| c in {None, noted}
        && u == Storage.Apply(t, Persist(id, Row(contact, text, Direction.Received, now, ""), c, ok));
    if c.Some? && ok {
      SaveAdvances(StoreInbound(t, id, Row(contact, text, Direction.Received, now, "")), c.value);
    }
    LoadsSecure(t, u);
  }

  lemma LoadsSecure(t: Tables, u: Tables)
    ensures t.secure == u.secure ==> LoadCursor(t) == LoadCursor(u)
    ensures forall m :: LoadCursor(t.(messages := m)) == LoadCursor(t)
  {
  }

  /** First messages that are worth a bubble. */
  predicate Surfaceable(text: string) {
    && text != "" && text[0] != '\0'
    && Text.Find(text, "__session_ping_").None? && Text.Find(text, "__heartbeat__").None?
  }

  /** That is: not empty, not led by NUL, and neither marker anywhere in them. */
  lemma SurfaceableIs(text: string)
    ensures Surfaceable(text) <==>
      && text != "" && text[0] as int != 0
      && forall k: nat :: !Text.OccursAt(text, "__session_ping_", k) && !Text.OccursAt(text, "__heartbeat__", k)
  {
  }

  /** What an attempt to set a session up leaves in the database: the first message of a responder session,
      if it is user content, under the id it was queued with (`popped`) or else a fresh one. */
  ghost predicate Surfaced(schema: Knst.Schema, t: Tables, u: Tables, noted: map<string, string>, s: SetUp,
                           popped: Option<string>, ok: bool)
  {
    var text := Knst.DecodeText(schema, s.first);
    if s.ok && s.wire.Some? && Surfaceable(text) then
      exists id :: (popped.Some? ==> id == popped.value) && TookInNoted(t, u, id, s.contact, text, noted, ok)
    else u == t
  }

  lemma NothingSurfaced(schema: Knst.Schema, t: Tables, noted: map<string, string>, s: SetUp, popped: Option<string>,
      ok: bool)
    requires s.wire.None?
    ensures Surfaced(schema, t, t, noted, s, popped, ok)
  {
  }

  lemma SurfacedAs(schema: Knst.Schema, t: Tables, u: Tables, id: string, noted: map<string, string>, s: SetUp,
                   popped: Option<string>, ok: bool)
    requires popped.Some? ==> id == popped.value
    requires s.ok && s.wire.Some? && Surfaceable(Knst.DecodeText(schema, s.first))
    requires TookIn(t, u, id, s.contact, Knst.DecodeText(schema, s.first), Tracking.Lookup(noted, id), ok)
    ensures Surfaced(schema, t, u, noted, s, popped, ok)
  {
    hide TookIn, Surfaceable, Knst.DecodeText;
    assert TookInNoted(t, u, id, s.contact, Knst.DecodeText(schema, s.first), noted, ok);
  }

  /** The record of an InitSession: how many messages wait is asked, the first is looked at if any does,
      the attempt is made with exactly what was found, and noted if it succeeded. */
  ghost predicate InitSteps(before: seq<Mark>, contact: string, bundle: string, s: SetUp, now: seq<Mark>) {
    var n := |before|;
    && before < now && now[n].Counted? && now[n].contact == contact
    && (now[n].n > 0 ==> |now| > n + 1 && now[n + 1].Peeked? && now[n + 1].contact == contact)
    && s.contact == contact && s.bundle == bundle
    && s.wire == (if now[n].n > 0 then now[n + 1].wire else None)
    && var asked := if now[n].n > 0 then n + 2 else n + 1;
    |now| == asked + (if s.ok then 1 else 0)
    && (s.ok ==> now[asked].Inited? && now[asked].contact == contact)
  }

  /** The record of a heal. An initiator resets the peer and fetches its bundle, a responder takes the
      queued payload and fetches the bundle; with all of that there is one attempt, otherwise none; a
      responder that fails resets the peer. */
  ghost predicate HealSteps(before: seq<Mark>, contact: string, role: string, attempts: seq<SetUp>, now: seq<Mark>) {
    && |attempts| <= 1 && (attempts != [] ==> attempts[0].contact == contact)
    && if role == "Initiator" then HealsAsInitiator(before, contact, attempts, now)
       else HealsAsResponder(before, contact, attempts, now)
  }

  ghost predicate HealsAsInitiator(before: seq<Mark>, contact: string, attempts: seq<SetUp>, now: seq<Mark>) {
    exists bundle: Option<string> ::
      && now == before + [HealReset(contact), Fetched(contact, bundle)]
           + (if bundle.Some? then [HealInit(contact)] else [])
      && (bundle.Some? <==> attempts != [])
      && (bundle.Some? ==> attempts[0].bundle == bundle.value && attempts[0].wire.None?)
  }

  ghost predicate HealsAsResponder(before: seq<Mark>, contact: string, attempts: seq<SetUp>, now: seq<Mark>) {
    exists wire: Option<bytes> ::
      if wire == None then now == before + [HealTaken(contact, wire)] && attempts == []
      else exists bundle: Option<string> ::
        && (bundle.Some? <==> attempts != [])
        && (bundle.Some? ==> attempts[0].bundle == bundle.value && attempts[0].wire == wire)
        && now == before + [HealTaken(contact, wire), Fetched(contact, bundle)]
                  + if bundle.None? then [] else if attempts[0].ok then [HealInit(contact)]
                    else [HealInit(contact), HealReset(contact)]
  }

  /** What a heal leaves for the core: after a success the session is announced, and an initiator's ping
      goes ahead of any text. */
  ghost predicate HealLeft(schema: Knst.Schema, contact: string, role: string, attempts: seq<SetUp>, left: seq<Event>) {
    if attempts == [] || !attempts[0].ok then left == []
    else if role == "Initiator" then
      && |left| == 2 && left[0] == SessionInitCompleted(contact)
      && left[1].OutgoingMessage?
      && left[1] == OutgoingMessage(contact, left[1].messageId, Knst.EncodeSessionPing(schema, left[1].messageId), 0)
    else left == [SessionInitCompleted(contact)]
  }

  /** The record of an action between its beginning and its end, the attempts to set a session up, and
      what it leaves for the core. */
  ghost predicate ActionSteps(action: Action, inited: set<string>, before: seq<Mark>, attempts: seq<SetUp>,
                              now: seq<Mark>)
  {
    match action
    case InitSession(contact, bundle) => |attempts| == 1 && InitSteps(before, contact, bundle, attempts[0], now)
    case SessionHealNeeded(contact, role) =>
      if contact in inited then now == before && attempts == [] else HealSteps(before, contact, role, attempts, now)
    case SessionTerminated(contact, _) => now == before + [Terminated(contact)] && attempts == []
    case _ => now == before && attempts == []
  }

  /** The contact of an InitSession that succeeded. */
  function InitedBy(action: Action, attempts: seq<SetUp>): set<string> {
    if action.InitSession? && attempts != [] && attempts[0].ok then {action.contact} else {}
  }

  /** What an action on a session leaves for the core. */
  ghost predicate SessionLeft(schema: Knst.Schema, action: Action, attempts: seq<SetUp>, left: seq<Event>) {
    match action
    case InitSession(contact, _) =>
      left == if attempts != [] && attempts[0].ok then [SessionInitCompleted(contact)] else []
    case SessionHealNeeded(contact, role) => HealLeft(schema, contact, role, attempts, left)
    case _ => left == []
  }

  /** The effect of an action on the database, when its first statement has number `k`. */
  ghost predicate DbEffect(schema: Knst.Schema, action: Action, t: Tables, u: Tables, noted: map<string, string>,
                           attempts: seq<SetUp>, popped: Option<string>, faults: nat -> bool, k: nat)
  {
    match action
    case MessageDecrypted(contact, id, plaintext) =>
      TookIn(t, u, id, contact, Knst.DecodeText(schema, plaintext), Tracking.Lookup(noted, id), !faults(k))
    case InitSession(_, _) =>
      if attempts == [] then u == t else Surfaced(schema, t, u, noted, attempts[0], popped, !faults(k))
    case SessionHealNeeded(_, _) =>
      if attempts == [] then u == t else Surfaced(schema, t, u, noted, attempts[0], popped, !faults(k))
    case SessionTerminated(contact, archive) => u == Archived(t, contact, archive, faults(k), faults(k + 1))
    case _ => u == if Statement(t, action).Some? && !faults(k) then Statement(t, action).value else t
  }

  /** A terminated session is archived, and then deleted if that went through. */
  function Archived(t: Tables, contact: string, archive: bytes, first: bool, second: bool): Tables {
    if first then t
    else
      var archived := SecureSave(t, "archive_" + contact, archive);
      if second then archived else SecureDelete(archived, "session_" + contact)
  }

  const STATE_KEY := "construct.orchestrator_state"

  function Lookup(secure: map<string, bytes>, key: string): bytes {
    if key in secure then secure[key] else []
  }

  /** After the last statements of a forget: the contact's session and archive keys are gone, and the
      core's state is the exported one (an empty state deletes the key), each if its statement went
      through. */
  ghost predicate KeysDropped(db: Database, contact: string, state: Option<bytes>)
    reads db
  {
    var k := db.issued;
    && k >= 2
    && (!db.faults(k - 2) ==> "session_" + contact !in db.t.secure)
    && (!db.faults(k - 1) ==> "archive_" + contact !in db.t.secure)
    && (state.Some? ==>
          && k >= 3
          && (!db.faults(k - 3) ==> Lookup(db.t.secure, "construct.orchestrator_state") == state.value))
  }

  // ---- the core ----

  /** An attempt to set a session up from a key bundle, as responder if from a wire payload too; whether it
      succeeded, and the first plaintext a responder finds. */
  datatype SetUp = SetUp(contact: string, bundle: string, wire: Option<bytes>, ok: bool, first: bytes)

  /** An oracle with a visible set of active sessions, and a record of the attempts to set one up. */
  class Core {
    var sessions: set<string>
    ghost var setUps: seq<SetUp>
    ghost var exported: Option<bytes>
    ghost var popped: Option<string>     // the last message taken off the queue
    ghost var given: Event               // the last event handed over

    constructor () {
      sessions, setUps, exported, popped, given := {}, [], None, None, AppLaunched;
    }

    method HandleEvent(e: Event) returns (actions: seq<Action>)
      modifies this
      ensures setUps == old(setUps) && given == e
    {
      actions, sessions := *, *;
      given := e;
    }

    method InitInitiator(contact: string, bundle: string) returns (ok: bool)
      modifies this
      ensures setUps == old(setUps) + [SetUp(contact, bundle, None, ok, [])]
    {
      ok, sessions := *, *;
      setUps := setUps + [SetUp(contact, bundle, None, ok, [])];
    }

    /** The first plaintext, if the session could be set up from the queued wire payload. */
    method InitResponder(contact: string, bundle: string, wire: bytes) returns (first: Option<bytes>)
      modifies this
      ensures setUps == old(setUps)
              + [SetUp(contact, bundle, Some(wire), first.Some?, if first.Some? then first.value else [])]
    {
      first, sessions := *, *;
      setUps := setUps + [SetUp(contact, bundle, Some(wire), first.Some?, if first.Some? then first.value else [])];
    }

    method PendingCount(contact: string) returns (n: nat) {
      n := *;
    }

    method PeekPending(contact: string) returns (wire: Option<bytes>) {
      wire := *;
    }

    method PopPending(contact: string) returns (id: Option<string>)
      modifies this
      ensures sessions == old(sessions) && setUps == old(setUps) && popped == id
    {
      id := *;
      popped := id;
    }

    method TakeHealPayload(contact: string) returns (wire: Option<bytes>)
      modifies this
      ensures sessions == old(sessions) && setUps == old(setUps)
    {
      wire := *;
    }

    method Forget(contact: string) returns (state: Option<bytes>)
      modifies this
      ensures setUps == old(setUps) && exported == state
    {
      state, sessions := *, *;
      exported := state;
    }
  }

  // ---- the task ----

  class Task {
    const schema: Knst.Schema
    const core: Core
    const db: Database
    const tracker: Tracking.Tracker
    var timers: set<string>
    var established: map<string, u64>
    var selfQueue: seq<Event>
    ghost var trace: seq<Mark>

    constructor (schema: Knst.Schema, core: Core, db: Database, tracker: Tracking.Tracker)
      ensures Valid() && trace == [] && established == map[]
      ensures this.core == core && this.db == db && this.tracker == tracker && this.schema == schema
    {
      this.schema, this.core, this.db, this.tracker := schema, core, db, tracker;
      timers, established, selfQueue, trace := {}, map[], [], [];
    }

    ghost predicate Valid()
      reads this`trace, this`established
    {
      Consistent(trace, established)
    }

    /** No action of the core is outstanding. */
    ghost predicate Drained()
      reads this`trace
    {
      Done(trace) == Yielded(trace)
    }

    /** Hand an event to the core. */
    method CallCore(e: Event, source: Source) returns (actions: seq<Action>)
      requires Valid()
      requires source.Channel? && e.OutgoingMessage? ==> e.contact in core.sessions && Knst.Presentable(e.plaintext)
      requires source.Stream? ==> !Outdated(trace, source.m)
      modifies this`trace, core
      ensures Valid()
      ensures |trace| == |old(trace)| + 1 && old(trace) <= trace
      ensures trace[|old(trace)|] == Handled(e, source, e.OutgoingMessage? && e.contact in old(core.sessions), actions)
      ensures CoreCalls(trace) == CoreCalls(old(trace)) + 1
      ensures Yielded(trace) == Yielded(old(trace)) + actions && Done(trace) == Done(old(trace))
      ensures LeftBehind(trace) == LeftBehind(old(trace))
      ensures Resumed(trace) == Resumed(old(trace)) + if source.FollowUp? then [e] else []
      ensures core.setUps == old(core.setUps) && core.given == e
      ensures forall from, inited | TurnOk(old(trace), from, inited) :: TurnOk(trace, from, inited)
    {
      hide Consistent, Outdated, CoreCalls, Yielded, Done, LeftBehind, Resumed, Knst.Presentable;
      ghost var active := e.OutgoingMessage? && e.contact in core.sessions;
      actions := core.HandleEvent(e);
      ghost var m := Handled(e, source, active, actions);
      Recorded(trace, established, m);
      OneMark(trace, m);
      trace := trace + [m];
    }

    /** Record an answer from outside, a cursor that was noted, or a refusal. */
    method NoteAnswer(ghost m: Mark, ghost from: nat, ghost inited: set<string>)
      requires Valid() && TurnOk(trace, from, inited)
      requires m.Counted? || m.Peeked? || m.HealTaken? || m.Fetched? || m.Noted? || (m.Refused? && !m.active)
      modifies this`trace
      ensures Valid() && trace == old(trace) + [m] && TurnOk(trace, from, inited) && Quiet(old(trace), trace)
    {
      hide Consistent, EstablishedAt;
      Recorded(trace, established, m);
      OneCarried(trace, m);
      trace := trace + [m];
    }

    method CountPending(contact: string, ghost from: nat, ghost inited: set<string>) returns (n: nat)
      requires Valid() && TurnOk(trace, from, inited)
      modifies this`trace
      ensures Valid() && trace == old(trace) + [Counted(contact, n)] && TurnOk(trace, from, inited)
              && Quiet(old(trace), trace)
    {
      n := core.PendingCount(contact);
      NoteAnswer(Counted(contact, n), from, inited);
    }

    method PeekPending(contact: string, ghost from: nat, ghost inited: set<string>) returns (wire: Option<bytes>)
      requires Valid() && TurnOk(trace, from, inited)
      modifies this`trace
      ensures Valid() && trace == old(trace) + [Peeked(contact, wire)] && TurnOk(trace, from, inited)
              && Quiet(old(trace), trace)
    {
      wire := core.PeekPending(contact);
      NoteAnswer(Peeked(contact, wire), from, inited);
    }

    method TakeHealPayload(contact: string, ghost from: nat, ghost inited: set<string>) returns (wire: Option<bytes>)
      requires Valid() && TurnOk(trace, from, inited)
      modifies this`trace, core
      ensures Valid() && trace == old(trace) + [HealTaken(contact, wire)] && TurnOk(trace, from, inited)
              && Quiet(old(trace), trace)
      ensures core.sessions == old(core.sessions) && core.setUps == old(core.setUps)
    {
      wire := core.TakeHealPayload(contact);
      NoteAnswer(HealTaken(contact, wire), from, inited);
    }

    /** Ask the server for a contact's key bundle. */
    method FetchBundle(contact: string, ghost from: nat, ghost inited: set<string>) returns (bundle: Option<string>)
      requires Valid() && TurnOk(trace, from, inited)
      modifies this`trace
      ensures Valid() && trace == old(trace) + [Fetched(contact, bundle)] && TurnOk(trace, from, inited)
              && Quiet(old(trace), trace)
    {
      bundle := *;
      NoteAnswer(Fetched(contact, bundle), from, inited);
    }

    /** Note a message's cursor with the tracker. */
    method NoteCursor(m: ReplayGuard.StreamMessage)
      requires Valid()
      modifies this`trace, tracker
      ensures Valid() && trace == old(trace) + [Noted(m.id, m.cursor)] && Quiet(old(trace), trace)
      ensures tracker.committed == old(tracker.committed)
      ensures tracker.pending == if Tracking.NonEmpty(m.cursor).Some? then old(tracker.pending)[m.id := m.cursor.value]
                                 else old(tracker.pending)
    {
      tracker.Note(m.id, m.cursor);
      assert TurnOk(trace, |trace|, {});
      NoteAnswer(Noted(m.id, m.cursor), |trace|, {});
    }

    /** Record what a heal does. */
    method NoteHeal(ghost m: Mark, ghost from: nat, ghost inited: set<string>)
      requires Valid() && IsHeal(m)
      requires TurnOk(trace, from, inited) && m.contact !in inited
      modifies this`trace
      ensures Valid() && trace == old(trace) + [m] && TurnOk(trace, from, inited) && Quiet(old(trace), trace)
    {
      hide Consistent, EstablishedAt;
      Recorded(trace, established, m);
      OneCarried(trace, m);
      trace := trace + [m];
    }

    /** A session set up by InitSession is established from now on. */
    method NoteInited(contact: string, ghost from: nat, ghost inited: set<string>)
      requires Valid() && TurnOk(trace, from, inited) && contact in inited
      modifies this`trace, this`established
      ensures Valid() && TurnOk(trace, from, inited)
      ensures |trace| == |old(trace)| + 1 && old(trace) <= trace && trace[|old(trace)|].Inited?
              && trace[|old(trace)|].contact == contact
      ensures Quiet(old(trace), trace)
    {
      hide Consistent, EstablishedAt;
      var now: u64 := *;
      Recorded(trace, established, Inited(contact, now));
      OneCarried(trace, Inited(contact, now));
      established := established[contact := now];
      trace := trace + [Inited(contact, now)];
    }

    /** A session that was terminated or forgotten is not established any more. */
    method NoteEnded(ghost m: Mark, contact: string, ghost from: nat, ghost inited: set<string>)
      requires Valid() && TurnOk(trace, from, inited)
      requires (m.Terminated? || m.Forgotten?) && m.contact == contact
      modifies this`trace, this`established
      ensures Valid() && TurnOk(trace, from, inited) && trace == old(trace) + [m]
      ensures established == old(established) - {contact} && Quiet(old(trace), trace)
    {
      hide Consistent, EstablishedAt;
      Recorded(trace, established, m);
      OneCarried(trace, m);
      established := established - {contact};
      trace := trace + [m];
    }

    /** Store a decrypted message once; a replay changes no row, and a failed statement nothing at all. */
    method Receive(contact: string, messageId: string, text: string)
      modifies db, tracker
      ensures TookIn(old(db.t), db.t, messageId, contact, text, Tracking.Lookup(old(tracker.pending), messageId),
              !db.faults(old(db.issued)))
      ensures db.faults(old(db.issued)) ==>
              tracker.pending == old(tracker.pending) && tracker.committed == old(tracker.committed)
      ensures !db.faults(old(db.issued)) ==>
                && messageId in db.t.messages
                && (messageId in old(db.t).messages ==> db.t.messages == old(db.t).messages)
                && (messageId !in old(db.t).messages ==>
                      && db.t.messages == old(db.t).messages[messageId := db.t.messages[messageId]]
                      && db.t.messages[messageId]
                           == Row(contact, text, Received, db.t.messages[messageId].timestampMs, ""))
      ensures LoadCursor(db.t) in {LoadCursor(old(db.t)), Tracking.Lookup(old(tracker.pending), messageId)}
    {
      hide LoadCursor, Storage.Apply;
      var now: int := *;
      var row := Row(contact, text, Received, now, "");
      var ok := Tracking.PersistInbound(db, tracker, messageId, row);
      TookInMeans(old(db.t), db.t, messageId, contact, text, Tracking.Lookup(old(tracker.pending), messageId), ok);
    }

    /** The message a responder session was set up from: it is taken off the core's queue, and stored if it
        is user content. */
    method SurfaceFirst(contact: string, plaintext: bytes, ghost attempt: SetUp) returns (messageId: string)
      requires attempt.ok && attempt.wire.Some? && attempt.contact == contact && attempt.first == plaintext
      modifies core, db, tracker
      ensures core.sessions == old(core.sessions) && core.setUps == old(core.setUps)
      ensures Surfaced(schema, old(db.t), db.t, old(tracker.pending), attempt, core.popped,
              !db.faults(old(db.issued)))
      ensures !Surfaceable(Knst.DecodeText(schema, plaintext)) ==>
                db.t == old(db.t) && tracker.pending == old(tracker.pending)
                    && tracker.committed == old(tracker.committed)
      ensures Surfaceable(Knst.DecodeText(schema, plaintext)) && !db.faults(old(db.issued)) ==>
                && messageId in db.t.messages
                && (messageId in old(db.t).messages ==> db.t.messages == old(db.t).messages)
                && (messageId !in old(db.t).messages ==>
                      && db.t.messages[messageId].text == Knst.DecodeText(schema, plaintext)
                      && db.t.messages[messageId].peer == contact)
    {
      hide Knst.DecodeText, Surfaceable, TookIn, LoadCursor;
      var popped := core.PopPending(contact);
      var freshId: string := *;
      messageId := if popped.Some? then popped.value else freshId;
      var text := Knst.DecodeText(schema, plaintext);
      if Surfaceable(text) {
        Receive(contact, messageId, text);
        SurfacedAs(schema, old(db.t), db.t, messageId, old(tracker.pending), attempt, core.popped,
            !db.faults(old(db.issued)));
      }
    }

    /** `Action::InitSession`: responder when the peer's first message is queued, else initiator. */
    method InitSession(contact: string, bundle: string, followUps: seq<Event>, inited: set<string>, ghost from: nat)
      returns (later: seq<Event>, done: set<string>)
      requires Valid() && TurnOk(trace, from, inited)
      modifies this`trace, this`established, core, db, tracker
      ensures Valid() && TurnOk(trace, from, done) && Quiet(old(trace), trace)
      ensures |core.setUps| == |old(core.setUps)| + 1 && old(core.setUps) <= core.setUps
      ensures var attempt := core.setUps[|old(core.setUps)|];
              && InitSteps(old(trace), contact, bundle, attempt, trace)
              && Surfaced(schema, old(db.t), db.t, old(tracker.pending), attempt, core.popped,
                   !db.faults(old(db.issued)))
              && (!attempt.ok ==>
                    && db.t == old(db.t) && tracker.pending == old(tracker.pending)
                    && tracker.committed == old(tracker.committed) && established == old(established))
              && later == followUps + (if attempt.ok then [SessionInitCompleted(contact)] else [])
              && done == inited + (if attempt.ok then {contact} else {})
    {
      hide Consistent, TurnOk, TookIn, Surfaceable, LoadCursor, Knst.DecodeText, CoreCalls, Yielded, Done, LeftBehind,
          Resumed;
      later, done := followUps, inited;
      var pending := CountPending(contact, from, inited);
      var wire: Option<bytes> := None;
      if pending > 0 {
        wire := PeekPending(contact, from, inited);
      }
      if wire.Some? {
        var first := core.InitResponder(contact, bundle, wire.value);
        if first.None? {
          return;
        }
        var _ := SurfaceFirst(contact, first.value, core.setUps[|core.setUps| - 1]);
      } else {
        var ok := core.InitInitiator(contact, bundle);
        if !ok {
          return;
        }
      }
      done := done + {contact};
      TurnWidens(trace, from, inited, done);
      NoteInited(contact, from, done);
      later := later + [SessionInitCompleted(contact)];
    }

    /** `Action::SessionHealNeeded`: nothing at all for a contact whose InitSession succeeded this turn. */
    method Heal(contact: string, role: string, followUps: seq<Event>, inited: set<string>, ghost from: nat)
      returns (later: seq<Event>)
      requires Valid() && TurnOk(trace, from, inited)
      modifies this`trace, core, db, tracker
      ensures Valid() && TurnOk(trace, from, inited) && Quiet(old(trace), trace)
      ensures contact in inited ==>
                && trace == old(trace) && core.sessions == old(core.sessions) && core.setUps == old(core.setUps)
      ensures followUps <= later && |later| <= |followUps| + 2
      ensures old(core.setUps) <= core.setUps
      ensures contact !in inited ==>
                HealSteps(old(trace), contact, role, core.setUps[|old(core.setUps)|..], trace)
      ensures var attempts := core.setUps[|old(core.setUps)|..];
              && HealLeft(schema, contact, role, attempts, later[|followUps|..])
              && (if attempts == [] then db.t == old(db.t)
                  else Surfaced(schema, old(db.t), db.t, old(tracker.pending), attempts[0], core.popped,
                      !db.faults(old(db.issued))))
              && (attempts == [] || !attempts[0].ok ==>
                    tracker.pending == old(tracker.pending) && tracker.committed == old(tracker.committed))
    {
      hide Valid, TurnOk, Surfaced, CoreCalls, Yielded, Done, LeftBehind, Resumed;
      NothingCarried(trace);
      var left: seq<Event> := [];
      if contact !in inited {
        if role == "Initiator" {
          left := HealAsInitiator(contact, from, inited);
          if core.setUps != old(core.setUps) {
            NothingSurfaced(schema, db.t, tracker.pending, core.setUps[|old(core.setUps)|], core.popped,
              !db.faults(db.issued));
          }
        } else {
          left := HealAsResponder(contact, from, inited);
        }
      }
      later := followUps + left;
      assert later[|followUps|..] == left;
    }

    /** The peer is told to reset; with its bundle a new session is set up over the old one. */
    method HealAsInitiator(contact: string, ghost from: nat, ghost inited: set<string>) returns (left: seq<Event>)
      requires Valid() && TurnOk(trace, from, inited) && contact !in inited
      modifies this`trace, core
      ensures Valid() && TurnOk(trace, from, inited) && Quiet(old(trace), trace)
      ensures old(core.setUps) <= core.setUps && |left| <= 2
      ensures var attempts := core.setUps[|old(core.setUps)|..];
              && HealSteps(old(trace), contact, "Initiator", attempts, trace)
              && HealLeft(schema, contact, "Initiator", attempts, left)
              && (attempts != [] ==> attempts[0].wire.None?)
    {
      hide Valid, TurnOk, CoreCalls, Yielded, Done, LeftBehind, Resumed;
      left := [];
      NoteHeal(HealReset(contact), from, inited);
      var bundle := FetchBundle(contact, from, inited);
      assert trace == old(trace) + [HealReset(contact), Fetched(contact, bundle)];
      if bundle.None? {
        assert HealsAsInitiator(old(trace), contact, [], trace);
        return;
      }
      NoteHeal(HealInit(contact), from, inited);
      assert trace == old(trace) + [HealReset(contact), Fetched(contact, bundle)] + [HealInit(contact)];
      var ok := core.InitInitiator(contact, bundle.value);
      assert HealsAsInitiator(old(trace), contact, core.setUps[|old(core.setUps)|..], trace);
      if !ok {
        return;
      }
      var pingId: string := *;
      left := left + [SessionInitCompleted(contact)];
      left := left + [OutgoingMessage(contact, pingId, Knst.EncodeSessionPing(schema, pingId), 0)];
    }

    /** With the peer's queued payload and its bundle a session is set up; if that fails the peer is told to
        reset. */
    method HealAsResponder(contact: string, ghost from: nat, ghost inited: set<string>) returns (left: seq<Event>)
      requires Valid() && TurnOk(trace, from, inited) && contact !in inited
      modifies this`trace, core, db, tracker
      ensures Valid() && TurnOk(trace, from, inited) && Quiet(old(trace), trace)
      ensures old(core.setUps) <= core.setUps && |left| <= 2
      ensures var attempts := core.setUps[|old(core.setUps)|..];
              && HealSteps(old(trace), contact, "Responder", attempts, trace)
              && HealLeft(schema, contact, "Responder", attempts, left)
              && (if attempts == [] then db.t == old(db.t)
                  else Surfaced(schema, old(db.t), db.t, old(tracker.pending), attempts[0], core.popped,
                      !db.faults(old(db.issued))))
              && (attempts == [] || !attempts[0].ok ==>
                    tracker.pending == old(tracker.pending) && tracker.committed == old(tracker.committed))
    {
      hide Valid, TurnOk, TookIn, Surfaceable, Knst.DecodeText, CoreCalls, Yielded, Done, LeftBehind, Resumed;
      left := [];
      var wire := TakeHealPayload(contact, from, inited);
      if wire.None? {
        assert HealsAsResponder(old(trace), contact, [], trace);
        return;
      }
      var bundle := FetchBundle(contact, from, inited);
      assert trace == old(trace) + [HealTaken(contact, wire), Fetched(contact, bundle)];
      if bundle.None? {
        assert HealsAsResponder(old(trace), contact, [], trace);
        return;
      }
      NoteHeal(HealInit(contact), from, inited);
      assert trace == old(trace) + [HealTaken(contact, wire), Fetched(contact, bundle)] + [HealInit(contact)];
      var first := core.InitResponder(contact, bundle.value, wire.value);
      if first.None? {
        NoteHeal(HealReset(contact), from, inited);
        assert trace == old(trace) + [HealTaken(contact, wire), Fetched(contact, bundle)]
                        + [HealInit(contact), HealReset(contact)];
        assert HealsAsResponder(old(trace), contact, core.setUps[|old(core.setUps)|..], trace);
        return;
      }
      assert HealsAsResponder(old(trace), contact, core.setUps[|old(core.setUps)|..], trace);
      var _ := SurfaceFirst(contact, first.value, core.setUps[|core.setUps| - 1]);
      left := left + [SessionInitCompleted(contact)];
    }

    /** The actions that are one statement; its failure is only logged. */
    method Store(action: Action)
      requires Statement(db.t, action).Some?
      modifies db
      ensures db.t == if db.faults(old(db.issued)) then old(db.t) else Statement(old(db.t), action).value
    {
      match action {
        case SaveSessionToSecureStore(key, data) => var _ := db.SaveOrDelete(key, data);
        case PersistMessage(json) => var _ := db.InsertRecord("msg", json);
        case PersistAck(messageId, timestamp) => var _ := db.InsertAck(messageId, timestamp);
        case PruneAckStore(cutoff) => var _ := db.DeleteAcksBefore(cutoff);
        case MarkMessageDelivered(messageId) => var _ := db.MarkMessageDelivered(messageId);
      }
    }

    /** A terminated session is archived, and then deleted if that went through. */
    method Archive(contact: string, archive: bytes)
      modifies db
      ensures db.t == Archived(old(db.t), contact, archive, db.faults(old(db.issued)), db.faults(old(db.issued) + 1))
    {
      var saved := db.Save("archive_" + contact, archive);
      if saved.Ok? {
        var _ := db.Delete("session_" + contact);
      }
    }

    /** The actions that concern neither a session nor the core. */
    method Perform(action: Action, followUps: seq<Event>) returns (later: seq<Event>)
      requires !ConcernsSession(action)
      modifies this`timers, this`selfQueue, db, tracker
      ensures DbEffect(schema, action, old(db.t), db.t, old(tracker.pending), [], core.popped, db.faults,
              old(db.issued))
      ensures later == followUps + if Answer(db, old(db.issued), action).Some?
              then [Answer(db, old(db.issued), action).value] else []
      ensures timers == TimersAfter(old(timers), action)
      ensures HeartbeatQueued(action, old(selfQueue), selfQueue)
    {
      hide LoadCursor, TookIn, Knst.DecodeText, SecureSave, SecureDelete, PruneAcks, MarkDelivered;
      later := followUps;
      match action {
        case MessageDecrypted(contact, messageId, plaintext) =>
            Receive(contact, messageId, Knst.DecodeText(schema, plaintext));
        case SaveSessionToSecureStore(_, _) => Store(action);
        case LoadSessionFromSecureStore(key) =>
          var loaded := db.Load(key);
          later := later + [SessionLoaded(key, if loaded.Ok? then loaded.value else None)];
        case PersistMessage(_) => Store(action);
        case PersistAck(_, _) => Store(action);
        case PruneAckStore(_) => Store(action);
        case MarkMessageDelivered(_) => Store(action);
        case CheckAckInDb(messageId) =>
          var has := db.HasAck(messageId);
          later := later + [AckDbResult(messageId, has.Ok? && has.value)];
        case SendHeartbeat(contact) =>
          var id: string := *;
          selfQueue := selfQueue + [OutgoingMessage(contact, id, HEARTBEAT, 0)];
        case ScheduleTimer(timerId) => timers := timers + {timerId};
        case CancelTimer(timerId) => timers := timers - {timerId};
        case Other =>
      }
    }

    /** The actions that set up, heal or end a session. */
    method PerformSession(action: Action, followUps: seq<Event>, inited: set<string>, ghost from: nat)
      returns (later: seq<Event>, done: set<string>)
      requires Valid() && TurnOk(trace, from, inited) && ConcernsSession(action)
      modifies this`trace, this`established, core, db, tracker
      ensures Valid() && TurnOk(trace, from, done) && Quiet(old(trace), trace)
      ensures followUps <= later && |later| <= |followUps| + 2
      ensures old(core.setUps) <= core.setUps
      ensures var attempts := core.setUps[|old(core.setUps)|..];
              && ActionSteps(action, inited, old(trace), attempts, trace)
              && SessionLeft(schema, action, attempts, later[|followUps|..])
              && done == inited + InitedBy(action, attempts)
              && DbEffect(schema, action, old(db.t), db.t, old(tracker.pending), attempts, core.popped, db.faults,
                   old(db.issued))
      ensures action.SessionTerminated? ==> action.contact !in established
    {
      hide Consistent, EstablishedAt, TurnOk, HealLeft, InitSteps, HealSteps, Carried;
      hide CoreCalls, Yielded, Done, LeftBehind, Resumed, LoadCursor, Surfaced, TookIn, Archived, Knst.DecodeText;
      later, done := followUps, inited;
      match action {
        case InitSession(contact, bundle) => later, done := InitSession(contact, bundle, followUps, inited, from);
        case SessionHealNeeded(contact, role) => later := Heal(contact, role, followUps, inited, from);
        case SessionTerminated(contact, archive) =>
          Archive(contact, archive);
          NoteEnded(Terminated(contact), contact, from, inited);
      }
    }

    /** Carry out one action. */
    method Dispatch(action: Action, followUps: seq<Event>, inited: set<string>, ghost from: nat)
      returns (later: seq<Event>, done: set<string>)
      requires Valid() && TurnOk(trace, from, inited)
      modifies this, core, db, tracker
      ensures Valid() && TurnOk(trace, from, done)
      ensures |trace| >= |old(trace)| + 2 && old(trace) < trace && trace[|old(trace)|] == Did(action)
      ensures followUps <= later && |later| <= |followUps| + 2 && trace[|trace| - 1] == Left(later[|followUps|..])
      ensures Carried(old(trace), trace, [action], later[|followUps|..])
      ensures old(core.setUps) <= core.setUps
      ensures var attempts := core.setUps[|old(core.setUps)|..];
              && ActionSteps(action, inited, old(trace) + [Did(action)], attempts, trace[..|trace| - 1])
              && done == inited + InitedBy(action, attempts)
              && DbEffect(schema, action, old(db.t), db.t, old(tracker.pending), attempts, core.popped, db.faults,
                   old(db.issued))
              && if Answer(db, old(db.issued), action).Some?
                 then later[|followUps|..] == [Answer(db, old(db.issued), action).value]
                 else SessionLeft(schema, action, attempts, later[|followUps|..])
      ensures action.SessionTerminated? ==> action.contact !in established
      ensures timers == TimersAfter(old(timers), action)
      ensures HeartbeatQueued(action, old(selfQueue), selfQueue)
    {
      hide Valid, TurnOk, Carried, DbEffect, InitSteps, HealSteps, HealLeft;
      hide CoreCalls, Yielded, Done, LeftBehind, Resumed;
      NoteDid(action, from, inited);
      ghost var begun := trace;
      if ConcernsSession(action) {
        later, done := PerformSession(action, followUps, inited, from);
      } else {
        NothingCarried(begun);
        later := Perform(action, followUps);
        done := inited;
        assert core.setUps[|old(core.setUps)|..] == [];
      }
      ghost var performed := trace;
      NoteLeft(action, old(trace), begun, later[|followUps|..], from, done);
      assert trace[..|trace| - 1] == performed;
    }

    method NoteDid(action: Action, ghost from: nat, ghost inited: set<string>)
      requires Valid() && TurnOk(trace, from, inited)
      modifies this`trace
      ensures Valid() && TurnOk(trace, from, inited) && trace == old(trace) + [Did(action)]
      ensures Carried(old(trace), trace, [action], [])
    {
      hide Consistent, EstablishedAt;
      Recorded(trace, established, Did(action));
      OneCarried(trace, Did(action));
      trace := trace + [Did(action)];
    }

    method NoteLeft(ghost action: Action, ghost before: seq<Mark>, ghost begun: seq<Mark>, ghost events: seq<Event>,
                    ghost from: nat, ghost inited: set<string>)
      requires Valid() && TurnOk(trace, from, inited)
      requires begun == before + [Did(action)] && Carried(before, begun, [action], []) && Quiet(begun, trace)
      modifies this`trace
      ensures Valid() && TurnOk(trace, from, inited) && trace == old(trace) + [Left(events)]
      ensures Carried(before, trace, [action], events) && begun < trace
    {
      hide Consistent, EstablishedAt, CoreCalls, Yielded, Resumed, Done, LeftBehind;
      ghost var now := trace + [Left(events)];
      Recorded(trace, established, Left(events));
      OneCarried(trace, Left(events));
      CarriedOn(begun, trace, now, [], [], [], events);
      CarriedOn(before, begun, now, [action], [], [], events);
      assert [action] + [] == [action] && [] + events == events;
      trace := now;
    }

    /** Carry out a list of actions in order. */
    method DispatchAll(actions: seq<Action>, inited: set<string>, ghost from: nat)
        returns (later: seq<Event>, done: set<string>)
      requires Valid() && TurnOk(trace, from, inited)
      modifies this, core, db, tracker
      ensures Valid() && TurnOk(trace, from, done)
      ensures Carried(old(trace), trace, actions, later)
      ensures |later| <= 2 * |actions|
    {
      hide Valid, TurnOk, CoreCalls, Yielded, Done, LeftBehind, Resumed, DbEffect, HeartbeatQueued;
      later, done := [], inited;
      for i := 0 to |actions|
        invariant Valid() && TurnOk(trace, from, done)
        invariant Carried(old(trace), trace, actions[..i], later)
        invariant |later| <= 2 * i
      {
        ghost var was, before := later, trace;
        later, done := Dispatch(actions[i], later, done, from);
        CarriedOn(old(trace), before, trace, actions[..i], was, [actions[i]], later[|was|..]);
        assert actions[..i + 1] == actions[..i] + [actions[i]];
        assert later == was + later[|was|..];
      }
      assert actions[..|actions|] == actions;
    }

    /** One turn: the event goes to the core, its actions are carried out, then the follow-ups they left,
        one level deep. If the event yields n actions the core is called at most 1 + 2n times; every
        action the core yields is carried out, once and in order; every event its actions left is handed
        to the core, in order; and once InitSession has succeeded for a contact, nothing later in the turn
        heals that contact. */
    method Turn(e: Event, source: Source)
      requires Valid() && Drained() && !source.FollowUp?
      requires source.Channel? && e.OutgoingMessage? ==> e.contact in core.sessions && Knst.Presentable(e.plaintext)
      requires source.Stream? ==> !Outdated(trace, source.m)
      modifies this, core, db, tracker
      ensures Valid() && old(trace) < trace && Drained()
      ensures TurnTaken(old(trace), e, source, trace)
    {
      hide Valid, Knst.Presentable, CoreCalls, Yielded, Done, LeftBehind, Resumed;
      ghost var from := |trace|;
      assert TurnOk(trace, from, {});
      var actions := CallCore(e, source);
      ghost var first := trace;
      var later, done := DispatchAll(actions, {}, from);
      ghost var own := trace;
      for i := 0 to |later|
        invariant Valid() && TurnOk(trace, from, done) && first <= trace
        invariant CoreCalls(trace) == CoreCalls(first) + i && Drained()
        invariant own <= trace && Resumed(trace) == Resumed(own) + later[..i]
      {
        var more := CallCore(later[i], FollowUp);
        var _, widened := DispatchAll(more, done, from);
        done := widened;
        assert later[..i + 1] == later[..i] + [later[i]];
      }
      assert trace[..|own|] == own && later[..|later|] == later;
      assert FollowUpsDelivered(old(trace), |own|, trace);
    }

    /** `establish_session`: whether a session was set up; on success there is an active one. */
    method EstablishSession(contact: string) returns (r: Result<bool, ()>)
      requires Valid() && Drained()
      modifies this, core, db, tracker
      ensures Valid() && Drained() && old(trace) <= trace
      ensures r.Ok? <==> contact in core.sessions
      ensures r == Ok(false) <==> old(contact in core.sessions)
      ensures if old(contact in core.sessions) then trace == old(trace) && core.sessions == old(core.sessions)
              else Attempted(old(trace), contact, trace)
    {
      hide Valid, TurnTaken, CoreCalls, Yielded, Done, LeftBehind, Resumed;
      if contact in core.sessions {
        return Ok(false);
      }
      assert TurnOk(trace, |trace|, {});
      var bundle := FetchBundle(contact, |trace|, {});
      if bundle.None? {
        return Err(());
      }
      assert trace[..|old(trace)| + 1] == trace;
      ghost var fetched := trace;
      Turn(KeyBundleFetched(contact, bundle.value), Internal);
      assert fetched < trace by {
        TurnExtends(fetched, KeyBundleFetched(contact, bundle.value), Internal, trace);
      }
      assert trace[..|old(trace)| + 1] == fetched;
      r := if contact in core.sessions then Ok(true) else Err(());
    }

    /** `prepare_outgoing`: an outgoing message passes only with an active session, wrapped; every other
        event passes as it is. */
    method PrepareOutgoing(e: Event) returns (r: Option<Event>)
      requires Valid() && Drained()
      modifies this, core, db, tracker
      ensures Valid() && Drained() && old(trace) <= trace
      ensures r.Some? ==> r.value == Presented(schema, e) && Prepared(schema, old(trace), e, trace)
      ensures r.Some? && e.OutgoingMessage? ==> e.contact in core.sessions && Knst.Presentable(r.value.plaintext)
      ensures r.None? ==>
                && old(trace) < trace && e.OutgoingMessage? && old(e.contact !in core.sessions)
                && trace != [] && trace[|trace| - 1] == Refused(e.contact, false)
                && Attempted(old(trace), e.contact, trace[..|trace| - 1])
      ensures OpensChat(e) ==>
                exists mid :: ChatOpened(schema, old(trace), e.contact, old(e.contact in core.sessions), mid, trace,
                                         e.contact in core.sessions)
      ensures e.OutgoingMessage? && r.Some? ==>
                if old(e.contact in core.sessions) then trace == old(trace) else Attempted(old(trace), e.contact, trace)
    {
      hide Valid, Attempted, ChatOpened, CoreCalls, Yielded, Done, LeftBehind, Resumed, Knst.Presentable, Knst.Wrap;
      if OpensChat(e) {
        OpenChat(e.contact);
        r := Some(e);
      } else if e.OutgoingMessage? {
        var set_up := EstablishSession(e.contact);
        if set_up.Err? {
          ghost var tried := trace;
          assert TurnOk(trace, |trace|, {});
          NoteAnswer(Refused(e.contact, e.contact in core.sessions), |trace|, {});
          assert trace[..|trace| - 1] == tried;
          return None;
        }
        Knst.WrapPresents(schema, e.plaintext, e.messageId);
        r := Some(e.(plaintext := Knst.Wrap(schema, e.plaintext, e.messageId)));
      } else {
        r := Some(e);
      }
    }

    /** A chat was opened: a session is set up if there is none, and a new one is followed by a ping unless
        the peer's first message is already waiting. */
    method OpenChat(contact: string)
      requires Valid() && Drained()
      modifies this, core, db, tracker
      ensures Valid() && Drained() && old(trace) < trace
      ensures exists mid :: ChatOpened(schema, old(trace), contact, old(contact in core.sessions), mid, trace,
                                       contact in core.sessions)
    {
      hide Valid, Attempted, Carried, CoreCalls, Yielded, Done, LeftBehind, Resumed;
      assert TurnOk(trace, |trace|, {});
      var inbound := CountPending(contact, |trace|, {});
      QuietDrains(old(trace), trace);
      ghost var counted := trace;
      var set_up := EstablishSession(contact);
      ghost var mid := |trace|;
      assert trace[..mid] == trace && trace[..|old(trace)| + 1] == counted;
      if set_up.Ok? && set_up.value && inbound == 0 {
        ghost var ready := trace;
        var pingId: string := *;
        var actions := CallCore(OutgoingMessage(contact, pingId, Knst.EncodeSessionPing(schema, pingId), 0), Internal);
        assert TurnOk(trace, |trace|, {});
        ghost var handed := trace;
        var left, _ := DispatchAll(actions, {}, |trace|);
        CarriedDrains(handed, trace, actions, left);
        assert trace[..mid] == ready && trace[..|old(trace)| + 1] == counted;
        assert mid < |trace| && Pinged(schema, ready, contact, trace);
      } else {
        assert trace[..mid] == trace;
        assert set_up.Ok? && !set_up.value ==> set_up == Ok(false);
        assert !old(contact in core.sessions) ==> inbound > 0 || contact !in core.sessions;
      }
      assert !old(contact in core.sessions) ==> Attempted(trace[..|old(trace)| + 1], contact, trace[..mid]);
      assert trace[|old(trace)|] == Counted(contact, inbound);
      assert ChatOpened(schema, old(trace), contact, old(contact in core.sessions), mid, trace,
          contact in core.sessions);
    }

    /** A message from the stream. A stale replay moves at most the watermark, and nothing else: the core
        is not called, no row, no pending cursor and no session changes. */
    method HandleStream(e: Event, m: ReplayGuard.StreamMessage)
      requires Valid() && Drained()
      modifies this, core, db, tracker
      ensures Valid() && Drained() && old(trace) < trace
      ensures if Outdated(old(trace), m) then trace == old(trace) + [Dropped(m)]
              else TurnTaken(old(trace) + [Noted(m.id, m.cursor)], e, Stream(m), trace)
      ensures Outdated(old(trace), m) <==> ShouldDrop(m, old(established))
      ensures Outdated(old(trace), m) ==>
                && established == old(established)
                && selfQueue == old(selfQueue) && timers == old(timers) && core.sessions == old(core.sessions)
                && tracker.pending == old(tracker.pending)
                && if old(tracker.Accepts(db, Tracking.NonEmpty(m.cursor)))
                   then db.t == SaveCursor(old(db.t), m.cursor.value) && tracker.committed == m.cursor
                   else db.t == old(db.t) && tracker.committed == old(tracker.committed)
    {
      hide EstablishedAt, Lawful, CoreCalls, Yielded, Done, LeftBehind, Resumed, TurnTaken;
      assert Get(established, m.contact) == EstablishedAt(trace, m.contact);
      GuardIs(m, established);
      if ShouldDrop(m, established) {
        tracker.CommitDirect(db, m.cursor);
        Recorded(trace, established, Dropped(m));
        OneCarried(trace, Dropped(m));
        trace := trace + [Dropped(m)];
      } else {
        NoteCursor(m);
        QuietDrains(old(trace), trace);
        assert Get(established, m.contact) == EstablishedAt(trace, m.contact);
        Turn(e, Stream(m));
      }
    }

    /** The core's state is saved again if it could be exported, and the contact's keys are deleted; each
        statement is tried whether or not the ones before it went through. */
    method DropKeys(contact: string, state: Option<bytes>)
      modifies db
      ensures KeysDropped(db, contact, state)
    {
      if state.Some? {
        var _ := db.SaveOrDelete(STATE_KEY, state.value);
      }
      assert STATE_KEY[0] !in {("session_" + contact)[0], ("archive_" + contact)[0]};
      var _ := db.Delete("session_" + contact);
      var _ := db.Delete("archive_" + contact);
    }

    /** The user removed a contact: the core is told, its session is not established any more, and its
        keys are gone unless their statements failed. */
    method Forget(contact: string)
      requires Valid() && Drained()
      modifies this, core, db, tracker
      ensures Valid() && Drained() && old(trace) < trace && contact !in established
      ensures Answered(schema, old(trace), ForgetContact(contact), trace)
      ensures KeysDropped(db, contact, core.exported)
    {
      hide Valid, KeysDropped, CoreCalls, Yielded, Done, LeftBehind, Resumed;
      var actions := CallCore(ActiveChatChanged(contact, false), Internal);
      assert TurnOk(trace, |trace|, {});
      var _, _ := DispatchAll(actions, {}, |trace|);
      var state := core.Forget(contact);
      assert TurnOk(trace, |trace|, {});
      NoteEnded(Forgotten(contact), contact, |trace|, {});
      DropKeys(contact, state);
    }

    /** The main loop over everything that reaches the task. The record splits into one part for each input,
        in order, and each part answers its input. */
    method Run(inputs: seq<Input>) returns (ghost cuts: seq<nat>)
      requires Valid() && Drained()
      modifies this, core, db, tracker
      ensures Valid() && Drained() && old(trace) <= trace
      ensures Lawful(trace)
      ensures |cuts| == |inputs| + 1 && cuts[0] == |old(trace)| && cuts[|inputs|] == |trace|
      ensures AllAnswered(schema, trace, inputs, cuts)
    {
      cuts := [|trace|];
      for i := 0 to |inputs|
        invariant Valid() && Drained() && old(trace) <= trace
        invariant |cuts| == i + 1 && cuts[0] == |old(trace)| && cuts[i] == |trace|
        invariant AllAnswered(schema, trace, inputs, cuts)
      {
        hide Valid, Answered, AllAnswered, CoreCalls, Yielded, Done, LeftBehind, Resumed;
        ghost var before := trace;
        HandleInput(inputs[i]);
        OneMoreAnswered(schema, before, trace, inputs, cuts);
        cuts := cuts + [|trace|];
      }
    }

    /** One input. */
    method HandleInput(input: Input)
      requires Valid() && Drained()
      modifies this, core, db, tracker
      ensures Valid() && Drained() && old(trace) < trace
      ensures Answered(schema, old(trace), input, trace)
    {
      hide Valid, Attempted, Prepared, CoreCalls, Yielded, Done, LeftBehind, Resumed;
      match input {
        case FromChannel(e) =>
          var ready := PrepareOutgoing(e);
          ghost var prepared := trace;
          if ready.Some? {
            Turn(ready.value, Channel);
            assert trace[..|prepared|] == prepared;
          }
        case ForgetContact(contact) => Forget(contact);
        case StreamMessage(e, m) => HandleStream(e, m);
      }
    }
  }
}
