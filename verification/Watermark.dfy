/** The watermark protocol: relay, orchestrator, stream worker and user interface share the database and
    the cursor tracker, and interleave at every lock and every database statement. */
module Watermark {
  import opened Wrappers
  import opened Bytes
  import opened StreamCursor
  import opened Storage
  import opened ReplayGuard
  import Tracker = CursorTracker
  import Knst

  /** Why a cursor is being saved: for a stored row, or because a replay was dropped. */
  datatype Origin = ForRow(id: string) | ForStale(m: StreamMessage)

  /** Where the orchestrator is inside `persist_inbound` or `commit_direct`. */
  datatype Pc =
    | Idle
    | Stored(id: string)                        // the row is written, the noted cursor not yet taken
    | Saving(cursor: string, origin: Origin)    // about to write the watermark
    | Remembering(cursor: string)               // written, about to update memory

  /** A `since_cursor` that went out, with the stored watermark at that moment. */
  datatype Since = Since(cursor: Option<string>, durable: Option<string>)

  /** An envelope that could be opened. */
  datatype Opened = Opened(from: string, id: string, contentType: byte)

  datatype State = State(
    tables: Tables,
    committed: Option<string>,
    noted: map<string, string>,
    inbox: seq<StreamMessage>,
    established: map<string, u64>,
    pc: Pc,
    subscribes: seq<Option<string>>,
    reopening: Option<Option<string>>,
    sent: seq<Since>)

  datatype Step =
    // relay: an envelope, with what opening it and unpacking its payload gave
    | Inbound(resolved: Option<Opened>, cursor: Option<string>, unpacked: Option<nat>)
    | Observed(cursor: Option<string>)          // a heartbeat or a server error
    | Ack(id: string, cursor: Option<string>)
    // orchestrator
    | Take
    | StoreRow(id: string, row: Row, ok: bool)
    | TakeNoted
    | Save(ok: bool)
    | Remember
    | Delivered(id: string)
    | SecureWrite(key: string, value: bytes)
    | Establish(contact: string, at: u64)
    | Abolish(contact: string)
    // user interface
    | DeleteContact(user: string)
    | Resubscribe(ok: bool)
    // stream worker
    | ReadCommitted
    | Open
    | SubscribeLive
    | SubscribeQuiet

  function Durable(s: State): Option<string> {
    LoadCursor(s.tables)
  }

  /** The core keeps off the watermark's key. */
  ghost predicate KeepsOff(step: Step) {
    step.SecureWrite? ==> step.key != STREAM_CURSOR_KEY
  }

  /** Moreover no deleted contact's id reaches that key. */
  ghost predicate Admitted(step: Step) {
    KeepsOff(step) && (step.DeleteContact? ==> !Reaches(step.user, STREAM_CURSOR_KEY))
  }

  ghost predicate AllAdmitted(steps: seq<Step>) {
    forall k | 0 <= k < |steps| :: Admitted(steps[k])
  }

  predicate ResetType(contentType: byte) {
    contentType == Knst.CONTENT_SESSION_RESET || contentType == Knst.CONTENT_SESSION_RESET_INIT
  }

  /** What the relay forwards to the orchestrator, if anything. An envelope that cannot be opened is
      dropped. One whose payload cannot be unpacked is forwarded only if it is a reset, under message
      number 0, so that it is subject to the replay guard. */
  function Relay(resolved: Option<Opened>, cursor: Option<string>, unpacked: Option<nat>): (m: Option<StreamMessage>)
    ensures m.Some? <==> resolved.Some? && (unpacked.Some? || resolved.value.contentType in {21, 24})
    ensures m.Some? ==>
              && m.value.contact == resolved.value.from && m.value.id == resolved.value.id
              && m.value.contentType == resolved.value.contentType && m.value.cursor == cursor
    ensures m.Some? && unpacked.Some? ==> m.value.msgNum == unpacked.value
    ensures m.Some? && unpacked.None? ==> m.value.msgNum == 0
  {
    if resolved.None? then None
    else
      var Opened(from, id, contentType) := resolved.value;
      if unpacked.Some? then Some(StreamMessage(from, id, cursor, contentType, unpacked.value))
      else if ResetType(contentType) then Some(StreamMessage(from, id, cursor, contentType, 0))
      else None
  }

  /** The message a step of the relay forwards. */
  function Forwarded(step: Step): Option<StreamMessage> {
    if step.Inbound? then Relay(step.resolved, step.cursor, step.unpacked) else None
  }

  /** One step; a step that is not enabled changes nothing. */
  function Apply(s: State, step: Step): State {
    match step
    case Inbound(_, _, _) =>
      var m := Forwarded(step);
      if m.Some? then s.(inbox := s.inbox + [m.value]) else s
    case Observed(_) => s
    case Ack(id, cursor) => if Tracker.NonEmpty(cursor).Some? then s.(noted := s.noted[id := cursor.value]) else s
    case Take => if s.pc == Idle && s.inbox != [] then TakeMessage(s) else s
    case StoreRow(id, row, ok) =>
      if s.pc == Idle && ok then s.(tables := StoreInbound(s.tables, id, row), pc := Stored(id)) else s
    case TakeNoted =>
      if s.pc.Stored? then
        var c := Tracker.Lookup(s.noted, s.pc.id);
        s.(noted := s.noted - {s.pc.id}, pc := if c.Some? then Saving(c.value, ForRow(s.pc.id)) else Idle)
      else s
    case Save(ok) =>
      if !s.pc.Saving? then s
      else if ok && Moves(Durable(s), s.pc.cursor)
          then s.(tables := SaveCursor(s.tables, s.pc.cursor), pc := Remembering(s.pc.cursor))
      else s.(pc := Idle)
    case Remember => if s.pc.Remembering? then s.(committed := Some(s.pc.cursor), pc := Idle) else s
    case Delivered(id) => if s.pc == Idle then s.(tables := MarkDelivered(s.tables, id)) else s
    case SecureWrite(key, value) => if s.pc == Idle then s.(tables := SecureSaveOrDelete(s.tables, key, value)) else s
    case Establish(contact, at) => if s.pc == Idle then s.(established := s.established[contact := at]) else s
    case Abolish(contact) => if s.pc == Idle then s.(established := s.established - {contact}) else s
    case DeleteContact(user) => s.(tables := Storage.DeleteContact(s.tables, user))
    case Resubscribe(ok) => s.(subscribes := s.subscribes + [if ok then Durable(s) else None])
    case ReadCommitted => s.(reopening := Some(s.committed))
    case Open =>
      if s.reopening.Some? then s.(reopening := None, sent := s.sent + [Since(s.reopening.value, Durable(s))]) else s
    case SubscribeLive =>
      if s.subscribes != []
          then s.(subscribes := s.subscribes[1..], sent := s.sent + [Since(s.subscribes[0], Durable(s))]) else s
    case SubscribeQuiet => if s.subscribes != [] then s.(subscribes := s.subscribes[1..]) else s
  }

  /** The orchestrator takes the next message: a stale replay goes straight to saving its cursor, any
      other has its cursor noted before the core sees it. */
  function TakeMessage(s: State): State
    requires s.inbox != []
  {
    var m, rest := s.inbox[0], s.inbox[1..];
    var c := Tracker.NonEmpty(m.cursor);
    if ShouldDrop(m, s.established) then
      s.(inbox := rest, pc := if c.Some? then Saving(c.value, ForStale(m)) else Idle)
    else
      s.(inbox := rest, noted := if c.Some? then s.noted[m.id := c.value] else s.noted)
  }

  function Exec(s: State, steps: seq<Step>): State {
    if steps == [] then s else Apply(Exec(s, steps[..|steps| - 1]), steps[|steps| - 1])
  }

  /** Start-up: the tracker has loaded the stored watermark, or failed to. */
  ghost predicate Initial(s: State) {
    && s.noted == map[] && s.inbox == [] && s.established == map[] && s.pc == Idle
    && s.subscribes == [] && s.reopening == None && s.sent == []
    && (s.committed == Durable(s) || s.committed == None)
  }

  // ---- what happened in a run ----

  datatype Fact =
    | CursorAttached(id: string, cursor: string)   // the server attached a cursor to a message or receipt passed on
    | RowStored(id: string)                        // the row is in the database, new or not
    | RowWiped(id: string)                         // the user deleted the row's contact
    | ReplayDropped(m: StreamMessage)              // the guard dropped a message
    | SessionSet(contact: string, at: u64)         // a session was established
    | SessionChanged(contact: string)              // a session was established again, terminated or forgotten

  /** Taking `step` in `s` makes the fact happen. */
  ghost predicate Shows(s: State, step: Step, f: Fact) {
    match f
    case CursorAttached(id, c) =>
      || (Forwarded(step).Some? && Forwarded(step).value.id == id && Forwarded(step).value.cursor == Some(c))
      || (step.Ack? && step.id == id && step.cursor == Some(c))
    case RowStored(id) => s.pc == Idle && step.StoreRow? && step.id == id && step.ok
    case RowWiped(id) => step.DeleteContact? && id in MessagesOf(s.tables, step.user)
    case ReplayDropped(m) =>
        s.pc == Idle && step.Take? && s.inbox != [] && s.inbox[0] == m && ShouldDrop(m, s.established)
    case SessionSet(c, at) => s.pc == Idle && step == Establish(c, at)
    case SessionChanged(c) => s.pc == Idle && (step.Establish? || step.Abolish?) && step.contact == c
  }

  /** Step number `k` of the run made the fact happen. */
  ghost predicate At(init: State, steps: seq<Step>, k: nat, f: Fact) {
    k < |steps| && Shows(Exec(init, steps[..k]), steps[k], f)
  }

  lemma AtLater(init: State, steps: seq<Step>, step: Step)
    ensures forall k: nat, f | k < |steps| :: At(init, steps + [step], k, f) <==> At(init, steps, k, f)
    ensures forall f :: At(init, steps + [step], |steps|, f) <==> Shows(Exec(init, steps), step, f)
    ensures Exec(init, steps + [step]) == Apply(Exec(init, steps), step)
  {
    hide Shows, Apply;
    var now := steps + [step];
    assert now[..|steps|] == steps;
    forall k: nat, f | k < |steps|
      ensures At(init, now, k, f) <==> At(init, steps, k, f)
    {
      assert now[..k] == steps[..k];
    }
  }

  ghost predicate Attached(init: State, steps: seq<Step>, id: string, c: string) {
    exists k: nat :: At(init, steps, k, CursorAttached(id, c))
  }

  /** The contact's session was established at `at`, and nothing has changed it since. */
  ghost predicate SessionSince(init: State, steps: seq<Step>, c: string, at: u64) {
    exists k: nat :: At(init, steps, k, SessionSet(c, at)) && forall j: nat | k < j ::
        !At(init, steps, j, SessionChanged(c))
  }

  /** The row was stored by a step of the run, and is still there unless the user has since deleted its
      contact. */
  ghost predicate RowAccounted(init: State, steps: seq<Step>, id: string) {
    exists k: nat :: At(init, steps, k, RowStored(id)) && StillThere(init, steps, k, id)
  }

  ghost predicate StillThere(init: State, steps: seq<Step>, k: nat, id: string) {
    id in Exec(init, steps).tables.messages || exists j: nat | k < j :: At(init, steps, j, RowWiped(id))
  }

  /** A set-up message (message number 0), a session reset (content type 21) or a reset with set-up (24),
      older than the session its contact has. */
  ghost predicate Outdated(init: State, steps: seq<Step>, m: StreamMessage) {
    && (m.msgNum == 0 || m.contentType == 21 || m.contentType == 24) && CursorMillis(m.cursor).Some?
    && exists at: u64 :: SessionSince(init, steps, m.contact, at) && CursorMillis(m.cursor).value < at
  }

  /** The message was dropped by a step of the run, when it was outdated. */
  ghost predicate DropAccounted(init: State, steps: seq<Step>, m: StreamMessage) {
    exists k: nat :: At(init, steps, k, ReplayDropped(m)) && Outdated(init, steps[..k], m)
  }

  // ---- the table of sessions ----

  lemma SessionSinceLater(init: State, steps: seq<Step>, step: Step, c: string, at: u64)
    requires SessionSince(init, steps, c, at) && !Shows(Exec(init, steps), step, SessionChanged(c))
    ensures SessionSince(init, steps + [step], c, at)
  {
    AtLater(init, steps, step);
    var k: nat :| At(init, steps, k, SessionSet(c, at)) && forall j: nat | k < j ::
        !At(init, steps, j, SessionChanged(c));
    assert At(init, steps + [step], k, SessionSet(c, at));
    forall j: nat | k < j
      ensures !At(init, steps + [step], j, SessionChanged(c))
    {
      assert j < |steps| ==> !At(init, steps, j, SessionChanged(c));
    }
  }

  lemma SessionSinceEarlier(init: State, steps: seq<Step>, step: Step, c: string, at: u64)
    requires SessionSince(init, steps + [step], c, at) && !Shows(Exec(init, steps), step, SessionChanged(c))
    ensures SessionSince(init, steps, c, at)
  {
    AtLater(init, steps, step);
    var now := steps + [step];
    var k: nat :| At(init, now, k, SessionSet(c, at)) && forall j: nat | k < j :: !At(init, now, j, SessionChanged(c));
    assert k != |steps|;
    assert At(init, steps, k, SessionSet(c, at));
    forall j: nat | k < j
      ensures !At(init, steps, j, SessionChanged(c))
    {
      assert j < |steps| ==> !At(init, now, j, SessionChanged(c));
    }
  }

  /** What one step does to the table. */
  lemma TableStep(s: State, step: Step, c: string)
    ensures var now := Apply(s, step).established;
            if Shows(s, step, SessionChanged(c)) then
              && (step.Abolish? ==> c !in now)
              && (step.Establish? ==> step.contact == c && c in now && now[c] == step.at)
            else (c in now <==> c in s.established) && (c in now ==> now[c] == s.established[c])
    ensures forall at :: Shows(s, step, SessionSet(c, at)) <==>
            step == Establish(c, at) && Shows(s, step, SessionChanged(c))
  {
    hide ShouldDrop, LoadCursor, Moves, Relay;
  }

  /** The orchestrator's table holds exactly the sessions that were established and not changed since. */
  lemma {:induction false} EstablishedMeans(init: State, steps: seq<Step>, c: string, at: u64)
    requires init.established == map[]
    ensures (c in Exec(init, steps).established && Exec(init, steps).established[c] == at) <==>
            SessionSince(init, steps, c, at)
  {
    if steps != [] {
      var before, step := steps[..|steps| - 1], steps[|steps| - 1];
      hide Apply, Shows;
      var s := Exec(init, before);
      assert steps == before + [step];
      EstablishedMeans(init, before, c, at);
      AtLater(init, before, step);
      TableStep(s, step, c);
      if Shows(s, step, SessionChanged(c)) {
        assert At(init, steps, |before|, SessionChanged(c));
        if step == Establish(c, at) {
          assert At(init, steps, |before|, SessionSet(c, at));
        } else {
          assert forall k: nat | At(init, steps, k, SessionSet(c, at)) :: k < |before|;
        }
      } else {
        if SessionSince(init, before, c, at) {
          SessionSinceLater(init, before, step, c, at);
        }
        if SessionSince(init, steps, c, at) {
          SessionSinceEarlier(init, before, step, c, at);
        }
      }
    }
  }

  /** The guard drops exactly the outdated messages. */
  lemma GuardMeans(init: State, steps: seq<Step>, m: StreamMessage)
    requires init.established == map[]
    ensures ShouldDrop(m, Exec(init, steps).established) <==> Outdated(init, steps, m)
  {
    var established := Exec(init, steps).established;
    GuardIs(m, established);
    if m.contact in established {
      EstablishedMeans(init, steps, m.contact, established[m.contact]);
    }
    var millis := CursorMillis(m.cursor);
    if at: u64 :| SessionSince(init, steps, m.contact, at) && millis.Some? && millis.value < at {
      EstablishedMeans(init, steps, m.contact, at);
    }
  }

  // ---- where a stored watermark comes from ----

  /** A cursor on its way to the database is justified by the run. */
  ghost predicate Justified(init: State, steps: seq<Step>, cursor: string, origin: Origin) {
    match origin
    case ForRow(id) => Attached(init, steps, id, cursor) && RowAccounted(init, steps, id)
    case ForStale(m) => m.cursor == Some(cursor) && Attached(init, steps, m.id, cursor) && DropAccounted(init, steps, m)
  }

  /** Every cursor in the system was attached by the server; every row being finished is accounted for. */
  ghost predicate Traced(init: State, steps: seq<Step>) {
    var s := Exec(init, steps);
    && (forall id | id in s.noted :: Attached(init, steps, id, s.noted[id]))
    && (forall m | m in s.inbox && m.cursor.Some? :: Attached(init, steps, m.id, m.cursor.value))
    && (s.pc.Stored? ==> RowAccounted(init, steps, s.pc.id))
    && (s.pc.Saving? ==> Justified(init, steps, s.pc.cursor, s.pc.origin))
  }

  /** What has happened stays so. */
  lemma AttachedLater(init: State, steps: seq<Step>, step: Step)
    ensures forall id, c | Attached(init, steps, id, c) :: Attached(init, steps + [step], id, c)
    ensures forall id, c | Shows(Exec(init, steps), step, CursorAttached(id, c)) ::
            Attached(init, steps + [step], id, c)
  {
    AtLater(init, steps, step);
    forall id, c | Attached(init, steps, id, c)
      ensures Attached(init, steps + [step], id, c)
    {
      var k: nat :| At(init, steps, k, CursorAttached(id, c));
      assert At(init, steps + [step], k, CursorAttached(id, c));
    }
  }

  /** A row goes away only with its contact. */
  lemma RowStays(s: State, step: Step, id: string)
    requires id in s.tables.messages || Shows(s, step, RowStored(id))
    ensures id in Apply(s, step).tables.messages || Shows(s, step, RowWiped(id))
    ensures Shows(s, step, RowStored(id)) ==> id in Apply(s, step).tables.messages
  {
    hide LoadCursor, Moves, ShouldDrop, Relay, Like;
  }

  lemma RowLater(init: State, steps: seq<Step>, step: Step, id: string)
    requires RowAccounted(init, steps, id) || Shows(Exec(init, steps), step, RowStored(id))
    ensures RowAccounted(init, steps + [step], id)
  {
    hide Apply, Shows;
    AtLater(init, steps, step);
    var s, now := Exec(init, steps), steps + [step];
    if Shows(s, step, RowStored(id)) || id in s.tables.messages {
      RowStays(s, step, id);
    }
    if Shows(s, step, RowStored(id)) {
      assert At(init, now, |steps|, RowStored(id));
      assert StillThere(init, now, |steps|, id);
    } else {
      var k: nat :| At(init, steps, k, RowStored(id)) && StillThere(init, steps, k, id);
      assert At(init, now, k, RowStored(id));
      if id !in s.tables.messages {
        var j: nat :| k < j && At(init, steps, j, RowWiped(id));
        assert At(init, now, j, RowWiped(id));
      } else if id !in Exec(init, now).tables.messages {
        assert At(init, now, |steps|, RowWiped(id));
      }
      assert StillThere(init, now, k, id);
    }
  }

  lemma DropLater(init: State, steps: seq<Step>, step: Step, m: StreamMessage)
    requires init.established == map[]
    requires DropAccounted(init, steps, m) || Shows(Exec(init, steps), step, ReplayDropped(m))
    ensures DropAccounted(init, steps + [step], m)
  {
    AtLater(init, steps, step);
    var now := steps + [step];
    if Shows(Exec(init, steps), step, ReplayDropped(m)) {
      GuardMeans(init, steps, m);
      assert now[..|steps|] == steps;
      assert At(init, now, |steps|, ReplayDropped(m));
    } else {
      var k: nat :| At(init, steps, k, ReplayDropped(m)) && Outdated(init, steps[..k], m);
      assert now[..k] == steps[..k];
      assert At(init, now, k, ReplayDropped(m));
    }
  }

  lemma JustifiedLater(init: State, steps: seq<Step>, step: Step, cursor: string, origin: Origin)
    requires init.established == map[] && Justified(init, steps, cursor, origin)
    ensures Justified(init, steps + [step], cursor, origin)
  {
    hide Attached, RowAccounted, DropAccounted;
    AttachedLater(init, steps, step);
    match origin {
      case ForRow(id) => RowLater(init, steps, step, id);
      case ForStale(m) => DropLater(init, steps, step, m);
    }
  }

  /** A step makes a cursor noted or queued only from the inbox or from the server. */
  lemma NewCursors(s: State, step: Step)
    ensures forall id | id in Apply(s, step).noted ::
              var c := Apply(s, step).noted[id];
              || (id in s.noted && s.noted[id] == c) || Shows(s, step, CursorAttached(id, c))
              || (s.inbox != [] && s.inbox[0].id == id && s.inbox[0].cursor == Some(c))
    ensures forall m | m in Apply(s, step).inbox && m !in s.inbox && m.cursor.Some? ::
              Shows(s, step, CursorAttached(m.id, m.cursor.value))
  {
    hide ShouldDrop, LoadCursor, Moves, Relay, Storage.DeleteContact;
  }

  lemma CursorsStayTraced(init: State, steps: seq<Step>, step: Step)
    requires Traced(init, steps)
    ensures var s := Exec(init, steps + [step]);
            && (forall id | id in s.noted :: Attached(init, steps + [step], id, s.noted[id]))
            && (forall m | m in s.inbox && m.cursor.Some? :: Attached(init, steps + [step], m.id, m.cursor.value))
  {
    hide Attached, RowAccounted, Justified, Apply, Shows;
    AttachedLater(init, steps, step);
    AtLater(init, steps, step);
    NewCursors(Exec(init, steps), step);
  }

  lemma WorkBegins(init: State, steps: seq<Step>, step: Step)
    requires init.established == map[] && Traced(init, steps) && Exec(init, steps).pc == Idle
    ensures var s := Exec(init, steps + [step]);
            && (s.pc.Stored? ==> RowAccounted(init, steps + [step], s.pc.id))
            && (s.pc.Saving? ==> Justified(init, steps + [step], s.pc.cursor, s.pc.origin))
  {
    hide Attached, RowAccounted, DropAccounted, LoadCursor, Moves, Relay, ShouldDrop, Storage.DeleteContact;
    AttachedLater(init, steps, step);
    AtLater(init, steps, step);
    var s := Exec(init, steps);
    if step.StoreRow? && step.ok {
      RowLater(init, steps, step, step.id);
    } else if step.Take? && s.inbox != [] && ShouldDrop(s.inbox[0], s.established) {
      DropLater(init, steps, step, s.inbox[0]);
    }
  }

  lemma WorkStaysTraced(init: State, steps: seq<Step>, step: Step)
    requires init.established == map[] && Traced(init, steps)
    ensures var s := Exec(init, steps + [step]);
            && (s.pc.Stored? ==> RowAccounted(init, steps + [step], s.pc.id))
            && (s.pc.Saving? ==> Justified(init, steps + [step], s.pc.cursor, s.pc.origin))
  {
    hide Attached, RowAccounted, DropAccounted, LoadCursor, Moves, Relay, ShouldDrop, Storage.DeleteContact;
    AttachedLater(init, steps, step);
    AtLater(init, steps, step);
    var s := Exec(init, steps);
    match s.pc {
      case Idle => WorkBegins(init, steps, step);
      case Stored(id) => RowLater(init, steps, step, id);
      case Saving(cursor, origin) => JustifiedLater(init, steps, step, cursor, origin);
      case Remembering(_) =>
    }
  }

  lemma {:induction false} RunStaysTraced(init: State, steps: seq<Step>)
    requires Initial(init)
    ensures Traced(init, steps)
  {
    if steps != [] {
      var before, step := steps[..|steps| - 1], steps[|steps| - 1];
      RunStaysTraced(init, before);
      CursorsStayTraced(init, before, step);
      WorkStaysTraced(init, before, step);
      assert steps == before + [step];
    }
  }

  /** A step that is not a save leaves the stored watermark alone. */
  lemma OnlySaveMoves(s: State, step: Step)
    requires KeepsOff(step) && !step.Save?
    ensures Durable(Apply(s, step)) == Durable(s)
         || (step.DeleteContact? && Reaches(step.user, STREAM_CURSOR_KEY) && Durable(Apply(s, step)).None?)
  {
    hide Like, Reaches;
    if step.DeleteContact? {
      DeleteKeepsCursor(s.tables, step.user);
    }
  }

  /** Provenance. In every run, whenever the stored watermark takes a new value, that value is the cursor
      being saved, and it was attached by the server to a message or receipt passed on by the relay.
      Either the row of that message was stored by an earlier step, and is still there unless the user has
      deleted its contact in between; or an earlier step dropped the message because its contact then had
      a session established after the cursor. The watermark is lost only with a contact whose id reaches
      its key. */
  lemma WatermarkProvenance(init: State, steps: seq<Step>, step: Step)
    requires Initial(init) && (forall k | 0 <= k < |steps| :: KeepsOff(steps[k])) && KeepsOff(step)
    ensures var s := Exec(init, steps);
            var moved := Durable(Apply(s, step));
            && (moved.Some? && moved != Durable(s) ==>
                  step.Save? && s.pc.Saving? && moved == Some(s.pc.cursor)
                      && Justified(init, steps, s.pc.cursor, s.pc.origin))
            && (moved.None? && Durable(s).Some? ==> step.DeleteContact? && Reaches(step.user, STREAM_CURSOR_KEY))
  {
    hide Justified, Attached, Reaches, LoadCursor, Moves, Like;
    var s := Exec(init, steps);
    RunStaysTraced(init, steps);
    if step.Save? && s.pc.Saving? {
      SaveAdvances(s.tables, s.pc.cursor);
    } else if !step.Save? {
      OnlySaveMoves(s, step);
    }
  }

  /** Over a whole run: the stored watermark is the initial one, or was attached to something the relay
      passed on. So a cursor seen only on envelopes that were dropped, on heartbeats and on errors never
      becomes the watermark. */
  lemma {:induction false} DroppedNeverStored(init: State, steps: seq<Step>)
    requires Initial(init) && (forall k | 0 <= k < |steps| :: KeepsOff(steps[k]))
    ensures var c := Durable(Exec(init, steps));
            c.Some? && c != Durable(init) ==> exists id :: Attached(init, steps, id, c.value)
  {
    hide Attached, RowAccounted, DropAccounted, Reaches, Apply, LoadCursor, Initial;
    if steps != [] {
      var before, step := steps[..|steps| - 1], steps[|steps| - 1];
      assert steps == before + [step];
      DroppedNeverStored(init, before);
      WatermarkProvenance(init, before, step);
      AttachedLater(init, before, step);
    }
  }

  /** Envelopes that the relay drops, heartbeats and errors leave no trace at all: a run with them ends
      where the run without them ends. */
  predicate PassedOn(step: Step) {
    (step.Inbound? ==> Relay(step.resolved, step.cursor, step.unpacked).Some?) && !step.Observed?
  }

  function Readable(steps: seq<Step>): seq<Step> {
    if steps == [] then []
    else
      var last := steps[|steps| - 1];
      Readable(steps[..|steps| - 1]) + if PassedOn(last) then [last] else []
  }

  lemma {:induction false} UnreadableLeavesNoTrace(init: State, steps: seq<Step>)
    ensures Exec(init, Readable(steps)) == Exec(init, steps)
    ensures forall step | step in Readable(steps) ::
              step in steps && !step.Observed? && (step.Inbound? ==> Forwarded(step).Some?)
  {
    if steps != [] {
      var before, last := steps[..|steps| - 1], steps[|steps| - 1];
      UnreadableLeavesNoTrace(init, before);
      if PassedOn(last) {
        assert Readable(steps)[..|Readable(steps)| - 1] == Readable(before);
      } else {
        assert Readable(before) + [] == Readable(before);
      }
    }
  }

  /** A reset that cannot be unpacked is forwarded, and when it is taken the guard drops it exactly if it
      is outdated: then its cursor goes straight to being saved, otherwise it is noted for its id. */
  lemma UnreadableReset(init: State, steps: seq<Step>, resolved: Opened, c: string)
    requires init.established == map[] && c != "" && resolved.contentType in {21, 24}
    requires var s := Exec(init, steps); s.pc == Idle && s.inbox == []
    ensures var m := StreamMessage(resolved.from, resolved.id, Some(c), resolved.contentType, 0);
            var s, s' := Exec(init, steps), Exec(init, steps + [Inbound(Some(resolved), Some(c), None), Take]);
            s' == if Outdated(init, steps, m) then s.(pc := Saving(c, ForStale(m))) else s.(noted := s.noted[m.id := c])
  {
    hide Outdated, CursorMillis;
    var m := StreamMessage(resolved.from, resolved.id, Some(c), resolved.contentType, 0);
    var step := Inbound(Some(resolved), Some(c), None);
    GuardMeans(init, steps, m);
    AtLater(init, steps, step);
    AtLater(init, steps + [step], Take);
    assert steps + [step] + [Take] == steps + [step, Take];
    assert [m][1..] == [];
  }

  // ---- what the worker sends ----

  /** The cursors the server sends are well-formed. */
  ghost predicate WellFormedStep(step: Step) {
    && (step.Inbound? ==> Sound(Tracker.NonEmpty(step.cursor)))
    && (step.Ack? ==> Sound(Tracker.NonEmpty(step.cursor)))
  }

  ghost predicate NotAfter(c: Option<string>, stored: Option<string>) {
    Sound(c) && Sound(stored) && Place(c) <= Place(stored)
  }

  /** Everything that could become a `since_cursor` is not after the stored watermark. */
  ghost predicate Behind(s: State) {
    && NotAfter(s.committed, Durable(s))
    && (forall id | id in s.noted :: WellFormed(s.noted[id]))
    && (forall m | m in s.inbox :: Sound(Tracker.NonEmpty(m.cursor)))
    && (s.pc.Saving? ==> WellFormed(s.pc.cursor))
    && (s.pc.Remembering? ==> Durable(s) == Some(s.pc.cursor))
    && (forall c | c in s.subscribes :: NotAfter(c, Durable(s)))
    && (s.reopening.Some? ==> NotAfter(s.reopening.value, Durable(s)))
    && (forall x | x in s.sent :: NotAfter(x.cursor, x.durable))
  }

  /** The stored watermark only grows. */
  lemma WatermarkGrows(s: State, step: Step)
    requires Behind(s) && Admitted(step)
    ensures NotAfter(Durable(s), Durable(Apply(s, step)))
    ensures s.pc.Saving? && Apply(s, step).pc.Remembering? ==> Durable(Apply(s, step)) == Some(s.pc.cursor)
  {
    hide ParseCursor, LoadCursor, SaveCursor;
    if step.Save? && s.pc.Saving? {
      SaveAdvances(s.tables, s.pc.cursor);
      AdvanceTakesTheLater(Durable(s), s.pc.cursor);
    } else if !step.Save? {
      OnlySaveMoves(s, step);
    }
  }

  lemma SaveStaysBehind(s: State, step: Step)
    requires Behind(s) && step.Save?
    ensures Behind(Apply(s, step))
  {
    hide ParseCursor, LoadCursor, SaveCursor, Rank, Moves;
    WatermarkGrows(s, step);
  }

  lemma OtherStaysBehind(s: State, step: Step)
    requires Behind(s) && Admitted(step) && WellFormedStep(step) && !step.Save?
    ensures Behind(Apply(s, step))
  {
    hide ParseCursor, LoadCursor, SaveCursor, Rank, Moves, Storage.DeleteContact, ShouldDrop, Reaches,
        ReplaySensitive, Relay;
    OnlySaveMoves(s, step);
    assert Durable(Apply(s, step)) == Durable(s);
    hide Durable;
  }

  lemma StepStaysBehind(s: State, step: Step)
    requires Behind(s) && Admitted(step) && WellFormedStep(step)
    ensures Behind(Apply(s, step))
  {
    hide Behind, Apply;
    if step.Save? {
      SaveStaysBehind(s, step);
    } else {
      OtherStaysBehind(s, step);
    }
  }

  lemma {:induction false} RunStaysBehind(init: State, steps: seq<Step>)
    requires Initial(init) && Sound(Durable(init))
    requires AllAdmitted(steps) && forall k | 0 <= k < |steps| :: WellFormedStep(steps[k])
    ensures Behind(Exec(init, steps))
  {
    if steps != [] {
      RunStaysBehind(init, steps[..|steps| - 1]);
      StepStaysBehind(Exec(init, steps[..|steps| - 1]), steps[|steps| - 1]);
    }
  }

  /** Resuming is safe. With well-formed cursors, in every interleaving, every `since_cursor` that goes out,
      on reopening or on a live resubscription, is not after the stored watermark at that moment, even
      between the two writes of a persist. */
  lemma SinceIsNeverAhead(init: State, steps: seq<Step>, k: nat)
    requires Initial(init) && Sound(Durable(init))
    requires AllAdmitted(steps) && forall k | 0 <= k < |steps| :: WellFormedStep(steps[k])
    requires k < |Exec(init, steps).sent|
    ensures var x := Exec(init, steps).sent[k]; NotAfter(x.cursor, x.durable)
    ensures var x := Exec(init, steps).sent[k]; x.cursor.Some? ==>
            x.durable.Some? && !After(x.cursor.value, x.durable.value)
  {
    RunStaysBehind(init, steps);
    var x := Exec(init, steps).sent[k];
    if x.cursor.Some? {
      AfterIsRankOrder(x.cursor.value, x.durable.value);
    }
  }

  // ---- the protocol is what the code does ----

  /** The four steps of `persist_inbound`, run without interruption, have the effect the sequential code has. */
  lemma UninterruptedPersist(s: State, id: string, row: Row)
    requires s.pc == Idle
    ensures var s' := Apply(Apply(Apply(Apply(s, StoreRow(id, row, true)), TakeNoted), Save(true)), Remember);
            var c := Tracker.Lookup(s.noted, id);
            var t := StoreInbound(s.tables, id, row);
            s' == s.(tables := Tracker.PersistedTables(t, c),
                     committed := Tracker.PersistedMemory(t, s.committed, c),
                     noted := s.noted - {id})
  {
    hide LoadCursor, Moves;
  }

  // ---- the protocol makes progress ----

  /** The four steps that store a row and then save the cursor noted for it. */
  function Persisted(s: State, id: string, row: Row): State {
    Apply(Apply(Apply(Apply(s, StoreRow(id, row, true)), TakeNoted), Save(true)), Remember)
  }

  /** What the relay forwards is queued last, and what the orchestrator takes is what was queued first. */
  lemma InboxIsFifo(s: State, resolved: Opened, cursor: Option<string>, number: nat, m: StreamMessage,
      rest: seq<StreamMessage>)
    ensures Apply(s, Inbound(Some(resolved), cursor, Some(number))) ==
            s.(inbox := s.inbox + [StreamMessage(resolved.from, resolved.id, cursor, resolved.contentType, number)])
    ensures s.pc == Idle && s.inbox == [m] + rest ==> Apply(s, Take).inbox == rest
  {
  }

  /** A message that is not stale, once taken and stored, moves the watermark to its cursor unless that is
      not after what is stored; memory follows. */
  lemma MessageMovesWatermark(s: State, m: StreamMessage, rest: seq<StreamMessage>, row: Row)
    requires s.pc == Idle && s.inbox == [m] + rest && !ShouldDrop(m, s.established)
    requires m.cursor.Some? && m.cursor.value != ""
    ensures var s' := Persisted(Apply(s, Take), m.id, row);
            && m.id in s'.tables.messages && (m.id !in s.tables.messages ==> s'.tables.messages[m.id] == row)
            && Durable(s') == Advance(Durable(s), m.cursor.value)
            && s'.committed == (if Moves(Durable(s), m.cursor.value) then m.cursor else s.committed)
            && s'.pc == Idle && s'.inbox == rest && s'.noted == s.noted - {m.id} && s'.established == s.established
  {
    hide LoadCursor, Moves, ShouldDrop, SaveCursor;
    var noted := Apply(s, Take);
    UninterruptedPersist(noted, m.id, row);
    SaveAdvances(StoreInbound(s.tables, m.id, row), m.cursor.value);
    SecureDecides(s.tables, m.id, row);
    assert noted.noted - {m.id} == s.noted - {m.id};
  }

  lemma SecureDecides(t: Tables, id: string, row: Row)
    ensures LoadCursor(StoreInbound(t, id, row)) == LoadCursor(t)
  {
  }

  /** So does a receipt for a message that is stored afterwards. */
  lemma ReceiptMovesWatermark(s: State, id: string, c: string, row: Row)
    requires s.pc == Idle && c != ""
    ensures var s' := Persisted(Apply(s, Ack(id, Some(c))), id, row);
            && id in s'.tables.messages && Durable(s') == Advance(Durable(s), c)
            && s'.committed == if Moves(Durable(s), c) then Some(c) else s.committed
  {
    hide LoadCursor, Moves, SaveCursor;
    UninterruptedPersist(Apply(s, Ack(id, Some(c))), id, row);
    SaveAdvances(StoreInbound(s.tables, id, row), c);
    SecureDecides(s.tables, id, row);
  }

  /** A stale replay moves the watermark the same way, and changes nothing else. */
  lemma ReplayMovesWatermark(s: State, m: StreamMessage, rest: seq<StreamMessage>)
    requires s.pc == Idle && s.inbox == [m] + rest && ShouldDrop(m, s.established)
    requires m.cursor.Some? && m.cursor.value != ""
    ensures var s' := Apply(Apply(Apply(s, Take), Save(true)), Remember);
            && s' == s.(inbox := rest,
                        tables := SaveCursor(s.tables, m.cursor.value),
                        committed := if Moves(Durable(s), m.cursor.value) then m.cursor else s.committed)
            && Durable(s') == Advance(Durable(s), m.cursor.value)
  {
    hide LoadCursor, Moves, ShouldDrop;
    SaveAdvances(s.tables, m.cursor.value);
  }

  /** Between two messages the orchestrator's other writes take effect, and inside one they do not happen. */
  lemma OtherWrites(s: State, id: string, key: string, value: bytes, contact: string, at: u64)
    ensures Apply(s, Step.Delivered(id)) == if s.pc == Idle then s.(tables := MarkDelivered(s.tables, id)) else s
    ensures Apply(s, SecureWrite(key, value)) ==
            if s.pc == Idle then s.(tables := SecureSaveOrDelete(s.tables, key, value)) else s
    ensures s.pc == Idle ==> Apply(s, Establish(contact, at)) == s.(established := s.established[contact := at])
    ensures s.pc == Idle ==> Apply(s, Abolish(contact)) == s.(established := s.established - {contact})
  {
  }

  /** A failed statement leaves database and memory alone. */
  lemma FailureChangesNothing(s: State, id: string, row: Row)
    ensures Apply(s, StoreRow(id, row, false)) == s
    ensures Apply(s, Save(false)) == s.(pc := if s.pc.Saving? then Idle else s.pc)
  {
  }

  /** The worker resumes from memory when it reopens the stream, and from what was read from the database
      when it is told of new subscriptions while live; a failed read resumes from nowhere. */
  lemma ResumesFrom(s: State, ok: bool)
    ensures Apply(Apply(s, ReadCommitted), Open) ==
            s.(reopening := None, sent := s.sent + [Since(s.committed, Durable(s))])
    ensures s.subscribes == [] ==>
              Apply(Apply(s, Resubscribe(ok)), SubscribeLive) ==
              s.(sent := s.sent + [Since(if ok then Durable(s) else None, Durable(s))])
    ensures s.subscribes == [] ==> Apply(Apply(s, Resubscribe(ok)), SubscribeQuiet) == s
  {
    hide LoadCursor;
  }
}
