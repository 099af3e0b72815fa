/** The stream watermark shared by the relay, the orchestrator and the stream worker. */
module CursorTracker {
  import opened Wrappers
  import opened StreamCursor
  import opened Storage

  function NonEmpty(c: Option<string>): Option<string> {
    if c.Some? && c.value == "" then None else c
  }

  function Lookup(m: map<string, string>, id: string): Option<string> {
    if id in m then Some(m[id]) else None
  }

  /** What persisting `c` leaves in the database and in memory, when the database accepts it. */
  function PersistedTables(t: Tables, c: Option<string>): Tables {
    if c.Some? then SaveCursor(t, c.value) else t
  }

  function PersistedMemory(t: Tables, m: Option<string>, c: Option<string>): Option<string> {
    if c.Some? && Moves(LoadCursor(t), c.value) then c else m
  }

  class Tracker {
    var committed: Option<string>
    var pending: map<string, string>

    /** `load`: an unreadable watermark counts as none. */
    constructor (db: Database)
      modifies db
      ensures pending == map[] && db.t == old(db.t)
      ensures committed == if db.faults(old(db.issued)) then None else LoadCursor(db.t)
    {
      var stored := db.LoadStreamCursor();
      committed := if stored.Ok? then stored.value else None;
      pending := map[];
    }

    method Note(id: string, cursor: Option<string>)
      modifies this
      ensures committed == old(committed)
      ensures pending == if NonEmpty(cursor).Some? then old(pending)[id := cursor.value] else old(pending)
    {
      if cursor.None? || cursor.value == "" {
        return;
      }
      pending := pending[id := cursor.value];
    }

    /** Whether the database will accept `c` now. */
    ghost predicate Accepts(db: Database, c: Option<string>)
      reads db
    {
      c.Some? && db.Accepts(c.value, db.issued)
    }

    method Commit(db: Database, id: string)
      modifies this, db
      ensures pending == old(pending) - {id}
      ensures old(Accepts(db, Lookup(pending, id))) ==>
                db.t == SaveCursor(old(db.t), old(pending)[id]) && committed == Some(old(pending)[id])
      ensures !old(Accepts(db, Lookup(pending, id))) ==> db.t == old(db.t) && committed == old(committed)
    {
      var cursor := Lookup(pending, id);
      pending := pending - {id};
      Persist(db, cursor);
    }

    method CommitDirect(db: Database, cursor: Option<string>)
      modifies this, db
      ensures pending == old(pending)
      ensures old(Accepts(db, NonEmpty(cursor))) ==> db.t == SaveCursor(old(db.t), cursor.value) && committed == cursor
      ensures !old(Accepts(db, NonEmpty(cursor))) ==> db.t == old(db.t) && committed == old(committed)
    {
      Persist(db, NonEmpty(cursor));
    }

    /** The database first, memory only if the database moved; a database error counts as no move. */
    method Persist(db: Database, cursor: Option<string>)
      modifies this, db
      ensures pending == old(pending)
      ensures old(Accepts(db, cursor)) ==> db.t == SaveCursor(old(db.t), cursor.value) && committed == cursor
      ensures !old(Accepts(db, cursor)) ==> db.t == old(db.t) && committed == old(committed)
    {
      if cursor.None? {
        return;
      }
      var moved := db.SaveStreamCursor(cursor.value);
      if moved.Ok? && moved.value {
        committed := cursor;
      }
    }
  }

  /** `persist_inbound`: the watermark moves only after the row is stored, and only to the cursor noted
      for that message. */
  method PersistInbound(db: Database, tracker: Tracker, id: string, row: Row) returns (stored: bool)
    modifies db, tracker
    ensures stored <==> !db.faults(old(db.issued))
    ensures !stored ==> tracker.pending == old(tracker.pending) && tracker.committed == old(tracker.committed)
    ensures stored ==> tracker.pending == old(tracker.pending) - {id}
    ensures var c, k := Lookup(old(tracker.pending), id), old(db.issued) + 1;
            var accepted := stored && c.Some? && Moves(LoadCursor(old(db.t)), c.value) && !db.faults(k)
                && !db.faults(k + 1);
            && db.t == Storage.Apply(old(db.t), Persist(id, row, if accepted then c else None, stored))
            && tracker.committed == (if accepted then c else old(tracker.committed))
  {
    var r := db.StoreInboundMessage(id, row);
    if r.Ok? {
      tracker.Commit(db, id);
    }
    return r.Ok?;
  }

  // ---- runs of commits ----

  datatype Call = ByMessage(id: string) | Direct(cursor: Option<string>)

  /** The cursor each call asks to save, if any: a noted cursor is used once. */
  function Asked(calls: seq<Call>, pending: map<string, string>): (r: seq<Option<string>>)
    ensures |r| == |calls|
  {
    if calls == [] then []
    else
      match calls[0]
      case ByMessage(id) => [Lookup(pending, id)] + Asked(calls[1..], pending - {id})
      case Direct(c) => [NonEmpty(c)] + Asked(calls[1..], pending)
  }

  /** The cursors asked for by the calls that met no failing statement. */
  function Unfailed(asked: seq<Option<string>>, failed: seq<bool>): seq<string>
    requires |asked| == |failed|
  {
    if asked == [] then []
    else (if asked[0].Some? && !failed[0] then [asked[0].value] else []) + Unfailed(asked[1..], failed[1..])
  }

  lemma {:induction false} UnfailedHas(asked: seq<Option<string>>, failed: seq<bool>)
    requires |asked| == |failed|
    ensures forall c :: c in Unfailed(asked, failed) <==> exists i | 0 <= i < |asked| ::
            asked[i] == Some(c) && !failed[i]
  {
    if asked != [] {
      UnfailedHas(asked[1..], failed[1..]);
      forall c
        ensures c in Unfailed(asked, failed) <==> exists i | 0 <= i < |asked| :: asked[i] == Some(c) && !failed[i]
      {
        if i :| 0 <= i < |asked| && asked[i] == Some(c) && !failed[i] {
          assert i > 0 ==> asked[1..][i - 1] == asked[i] && failed[1..][i - 1] == failed[i];
        }
        if c in Unfailed(asked[1..], failed[1..]) {
          var i :| 0 <= i < |asked| - 1 && asked[1..][i] == Some(c) && !failed[1..][i];
          assert asked[i + 1] == Some(c) && !failed[i + 1];
        }
      }
    }
  }

  /** Any sequence of commits, under any schedule of faults: the watermark ends where saving the cursors
      of the unfailed calls ends, nothing else in the database changes, and memory is the stored watermark
      unless nothing moved. Without faults no call fails. */
  method CommitAll(db: Database, tracker: Tracker, calls: seq<Call>) returns (ghost failed: seq<bool>)
    modifies db, tracker
    ensures |failed| == |calls|
    ensures (forall k: nat :: !db.faults(k)) ==> true !in failed
    ensures LoadCursor(db.t) == AdvanceAll(LoadCursor(old(db.t)), Unfailed(Asked(calls, old(tracker.pending)), failed))
    ensures db.t == old(db.t).(secure := db.t.secure)
    ensures db.t.secure - {STREAM_CURSOR_KEY} == old(db.t).secure - {STREAM_CURSOR_KEY}
    ensures (db.t == old(db.t) && tracker.committed == old(tracker.committed)) || tracker.committed == LoadCursor(db.t)
    decreases calls
  {
    hide LoadCursor, SaveCursor;
    failed := [];
    if calls != [] {
      ghost var asked := Asked(calls, tracker.pending);
      ghost var c, stored := asked[0], LoadCursor(db.t);
      ghost var bad := c.Some? && Moves(stored, c.value) && !db.Accepts(c.value, db.issued);
      if c.Some? {
        SaveAdvances(db.t, c.value);
      }
      match calls[0] {
        case ByMessage(id) => tracker.Commit(db, id);
        case Direct(cursor) => tracker.CommitDirect(db, cursor);
      }
      assert LoadCursor(db.t) == if c.Some? && !bad then Advance(stored, c.value) else stored;
      assert asked[1..] == Asked(calls[1..], tracker.pending);
      var rest := CommitAll(db, tracker, calls[1..]);
      failed := [bad] + rest;
      assert failed[1..] == rest;
      ghost var head, tail := if c.Some? && !bad then [c.value] else [], Unfailed(asked[1..], rest);
      assert Unfailed(asked, failed) == head + tail;
      assert if head == [] then head + tail == tail else (head + tail)[1..] == tail;
    }
  }

  /** So with well-formed cursors the stored watermark ends at the maximum of where it started and what the
      unfailed calls asked for, whatever their order. */
  lemma CommitsReachMaximum(stored: Option<string>, asked: seq<Option<string>>, failed: seq<bool>)
    requires Sound(stored) && |asked| == |failed| && forall i | 0 <= i < |asked| :: Sound(asked[i])
    ensures var end := AdvanceAll(stored, Unfailed(asked, failed));
            && Sound(end) && Place(end) >= Place(stored)
            && (forall i | 0 <= i < |asked| && !failed[i] :: Place(end) >= Place(asked[i]))
            && (end == stored || exists i | 0 <= i < |asked| :: end == asked[i] && !failed[i])
  {
    UnfailedHas(asked, failed);
    var cs := Unfailed(asked, failed);
    AdvanceAllIsMaximum(stored, cs);
    var end := AdvanceAll(stored, cs);
    forall i | 0 <= i < |asked| && !failed[i]
      ensures Place(end) >= Place(asked[i])
    {
      assert asked[i].Some? ==> asked[i].value in cs;
    }
  }

  /** Memory never runs ahead of the database. */
  ghost predicate InStep(m: Option<string>, stored: Option<string>) {
    Sound(m) && Sound(stored) && Place(m) <= Place(stored)
  }

  /** An accepted persist keeps memory behind the database and leaves the two equal whenever it moves;
      a refused one changes neither. */
  lemma PersistKeepsStep(t: Tables, m: Option<string>, c: Option<string>)
    requires Sound(c) && InStep(m, LoadCursor(t))
    ensures InStep(PersistedMemory(t, m, c), LoadCursor(PersistedTables(t, c)))
    ensures Place(LoadCursor(PersistedTables(t, c))) >= Place(LoadCursor(t))
    ensures LoadCursor(PersistedTables(t, c)) != LoadCursor(t) ==>
            PersistedMemory(t, m, c) == LoadCursor(PersistedTables(t, c)) == c
  {
    if c.Some? {
      SaveAdvances(t, c.value);
      AdvanceTakesTheLater(LoadCursor(t), c.value);
    }
  }
}
