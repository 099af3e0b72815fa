/** The client database: one map per table, with the statements the storage layer issues. */
module Storage {
  import opened Wrappers
  import opened Bytes
  import opened Text
  import opened StreamCursor
  import Hex
  import Utf8
  import Uuid

  const STREAM_CURSOR_KEY := "stream_cursor"

  datatype Direction = Sent | Received | Pending
  datatype Row = Row(peer: string, text: string, direction: Direction, timestampMs: int, status: string)
  datatype Contact = Contact(displayName: string, identityKey: string)

  datatype Tables = Tables(
    messages: map<string, Row>,
    contacts: map<string, Contact>,
    acks: map<string, int>,
    secure: map<string, bytes>,
    records: seq<(string, string)>)

  // ---- statements ----

  /** INSERT OR IGNORE. */
  function StoreInbound(t: Tables, id: string, row: Row): Tables {
    if id in t.messages then t else t.(messages := t.messages[id := row])
  }

  function MarkDelivered(t: Tables, id: string): Tables {
    if id in t.messages then t.(messages := t.messages[id := t.messages[id].(status := "delivered")]) else t
  }

  /** SQL LIKE: '%' is any text, '_' any character, ASCII letters match in either case. */
  predicate Like(p: string, s: string)
    decreases |p| + |s|
  {
    if p == "" then s == ""
    else if p[0] == '%' then Like(p[1..], s) || (s != "" && Like(p, s[1..]))
    else s != "" && (p[0] == '_' || LowerChar(p[0]) == LowerChar(s[0])) && Like(p[1..], s[1..])
  }

  function MessagesOf(t: Tables, peer: string): set<string> {
    set id | id in t.messages && t.messages[id].peer == peer
  }

  /** The three DELETE statements of `delete_contact`. */
  function DeleteContact(t: Tables, user: string): Tables {
    t.(contacts := t.contacts - {user},
       messages := t.messages - MessagesOf(t, user),
       secure := map k | k in t.secure && !Like("%" + user + "%", k) :: t.secure[k])
  }

  function SecureSave(t: Tables, key: string, value: bytes): Tables {
    t.(secure := t.secure[key := value])
  }

  function SecureDelete(t: Tables, key: string): Tables {
    t.(secure := t.secure - {key})
  }

  function SecureSaveOrDelete(t: Tables, key: string, value: bytes): Tables {
    if value == [] then SecureDelete(t, key) else SecureSave(t, key, value)
  }

  function StoreAck(t: Tables, id: string, timestampMs: int): Tables {
    if id in t.acks then t else t.(acks := t.acks[id := timestampMs])
  }

  function PruneAcks(t: Tables, cutoffMs: int): Tables {
    t.(acks := map id | id in t.acks && t.acks[id] >= cutoffMs :: t.acks[id])
  }

  function PersistRecord(t: Tables, table: string, json: string): Tables {
    t.(records := t.records + [(table, json)])
  }

  function LoadCursor(t: Tables): (c: Option<string>)
    ensures c.Some? ==> c.value != ""
  {
    if STREAM_CURSOR_KEY !in t.secure then None
    else
      match Utf8.Decode(t.secure[STREAM_CURSOR_KEY])
      case None => None
      case Some(s) => if s == "" then None else Some(s)
  }

  function SaveCursor(t: Tables, c: string): Tables {
    if Moves(LoadCursor(t), c) then SecureSave(t, STREAM_CURSOR_KEY, Utf8.Encode(c)) else t
  }

  // ---- what the statements mean for the watermark ----

  /** Saving is advancing, and it touches nothing but the watermark. */
  lemma SaveAdvances(t: Tables, c: string)
    ensures LoadCursor(SaveCursor(t, c)) == Advance(LoadCursor(t), c)
    ensures SaveCursor(t, c) == t.(secure := SaveCursor(t, c).secure)
    ensures forall k | k != "stream_cursor" :: k in t.secure <==> k in SaveCursor(t, c).secure
    ensures forall k | k != "stream_cursor" && k in t.secure :: SaveCursor(t, c).secure[k] == t.secure[k]
  {
    Utf8.ReadsBack(c);
  }

  // ---- what a delete takes with it ----

  /** The user id reaches `key`: some stretch of the key is LIKE it. */
  predicate Reaches(user: string, key: string) {
    exists a, b | 0 <= a <= b <= |key| :: Like(user, key[a..b])
  }

  lemma {:induction false} LikeHead(p: string, s: string) returns (b: nat)
    requires Like(p + "%", s)
    ensures b <= |s| && Like(p, s[..b])
    decreases |p| + |s|
  {
    if p == "" {
      b := 0;
    } else {
      assert (p + "%")[1..] == p[1..] + "%";
      if p[0] == '%' && Like(p[1..] + "%", s) {
        b := LikeHead(p[1..], s);
      } else {
        b := LikeHead(if p[0] == '%' then p else p[1..], s[1..]);
        b := b + 1;
        assert s[..b][1..] == s[1..][..b - 1];
      }
    }
  }

  lemma {:induction false} LikeTail(p: string, s: string) returns (a: nat)
    requires Like("%" + p, s)
    ensures a <= |s| && Like(p, s[a..])
  {
    assert ("%" + p)[1..] == p;
    if Like(p, s) {
      a := 0;
    } else {
      a := LikeTail(p, s[1..]);
      a := a + 1;
    }
  }

  lemma {:induction false} LikeBefore(p: string, s: string, b: string)
    requires Like(p, s)
    ensures Like(p + "%", s + b)
    decreases |p| + |s|
  {
    if p == "" {
      assert s + b == b && p + "%" == "%";
      LikeAnything(b);
    } else {
      assert (p + "%")[1..] == p[1..] + "%";
      assert s != "" ==> (s + b)[1..] == s[1..] + b;
      if p[0] == '%' && Like(p[1..], s) {
        LikeBefore(p[1..], s, b);
      } else {
        LikeBefore(if p[0] == '%' then p else p[1..], s[1..], b);
      }
    }
  }

  /** The pattern of the third DELETE matches exactly the keys the id reaches. */
  lemma PatternReaches(user: string, key: string)
    ensures Like("%" + user + "%", key) <==> Reaches(user, key)
  {
    assert "%" + (user + "%") == "%" + user + "%";
    if Like("%" + user + "%", key) {
      var a := LikeTail(user + "%", key);
      var b := LikeHead(user, key[a..]);
      assert key[a..][..b] == key[a..a + b];
    }
    if a, b :| 0 <= a <= b <= |key| && Like(user, key[a..b]) {
      LikeBefore(user, key[a..b], key[b..]);
      LikeAfter(user + "%", key[..a], key[a..b] + key[b..]);
      assert key[..a] + (key[a..b] + key[b..]) == key;
    }
  }

  /** `user` and `key` agree from position `k` on: '_' is any character, ASCII case is ignored. */
  predicate AgreesAt(user: string, key: string, k: nat) {
    && k + |user| <= |key|
    && forall i | 0 <= i < |user| :: user[i] == '_' || LowerChar(user[i]) == LowerChar(key[k + i])
  }

  lemma {:induction false} LikePlain(p: string, s: string)
    requires '%' !in p
    ensures Like(p, s) <==> |p| == |s| && AgreesAt(p, s, 0)
  {
    if p != "" && s != "" {
      LikePlain(p[1..], s[1..]);
      assert AgreesAt(p, s, 0) ==> forall i | 0 <= i < |p| - 1 :: p[1..][i] == p[i + 1] && s[1..][i] == s[0 + (i + 1)];
    }
  }

  /** An id without '%' reaches a key exactly where the two agree character by character. */
  lemma PlainReaches(user: string, key: string)
    requires '%' !in user
    ensures Reaches(user, key) <==> exists k: nat :: AgreesAt(user, key, k)
  {
    if a, b :| 0 <= a <= b <= |key| && Like(user, key[a..b]) {
      LikePlain(user, key[a..b]);
      assert AgreesAt(user, key, a);
    }
    if k: nat :| AgreesAt(user, key, k) {
      LikePlain(user, key[k..k + |user|]);
    }
  }

  /** Deleting a contact leaves the watermark alone exactly when the contact's id does not reach the
      watermark's key. */
  lemma DeleteKeepsCursor(t: Tables, user: string)
    ensures LoadCursor(DeleteContact(t, user)) == if Reaches(user, STREAM_CURSOR_KEY) then None else LoadCursor(t)
    ensures Reaches(user, STREAM_CURSOR_KEY) && LoadCursor(t).Some? <==>
            LoadCursor(DeleteContact(t, user)) != LoadCursor(t)
    ensures '%' !in user ==>
            (Reaches(user, STREAM_CURSOR_KEY) <==> exists k: nat :: AgreesAt(user, STREAM_CURSOR_KEY, k))
  {
    PatternReaches(user, STREAM_CURSOR_KEY);
    if '%' !in user {
      PlainReaches(user, STREAM_CURSOR_KEY);
    }
  }

  /** Wildcards are not needed for that: a contact called "stream" takes the watermark along. */
  lemma DeleteMayLoseCursor(t: Tables)
    requires LoadCursor(t).Some?
    ensures LoadCursor(DeleteContact(t, "stream")).None?
  {
    assert AgreesAt("stream", STREAM_CURSOR_KEY, 0);
    DeleteKeepsCursor(t, "stream");
  }

  // ---- hyphenated UUIDs ----

  /** A hyphenated UUID, in either case. */
  predicate IsUuid(u: string) {
    && Uuid.Hyphenated(u)
    && forall i | 0 <= i < 36 && i !in {8, 13, 18, 23} :: Hex.IsHexDigit(u[i])
  }

  /** One UUID reaches a key that carries another, after a prefix of eight characters, exactly if
      they are the same up to case. */
  lemma UuidsReachThemselves(u: string, prefix: string, w: string)
    requires IsUuid(u) && IsUuid(w) && |prefix| == 8
    ensures Reaches(u, prefix + w) <==> AsciiLower(u) == AsciiLower(w)
  {
    var key := prefix + w;
    assert '%' !in u && '_' !in u by {
      forall i | 0 <= i < 36
        ensures u[i] != '%' && u[i] != '_'
      {
        assert i in {8, 13, 18, 23} || Hex.IsHexDigit(u[i]);
      }
    }
    PlainReaches(u, key);
    if k: nat :| AgreesAt(u, key, k) {
      assert u[8] == '-' && LowerChar(u[8]) == LowerChar(key[k + 8]) && key[k + 8] == w[k];
      if k < 8 {
        assert false;
      }
      forall i | 0 <= i < 36
        ensures AsciiLower(u)[i] == AsciiLower(w)[i]
      {
        assert key[8 + i] == w[i];
      }
    }
    if AsciiLower(u) == AsciiLower(w) {
      forall i | 0 <= i < 36
        ensures LowerChar(u[i]) == LowerChar(key[8 + i])
      {
        assert key[8 + i] == w[i] && AsciiLower(u)[i] == AsciiLower(w)[i];
      }
      assert AgreesAt(u, key, 8);
    }
  }

  /** So deleting one contact spares every other contact's session and archive, the core's state and the
      watermark. */
  lemma DeleteSparesOthers(t: Tables, u: string, w: string)
    requires IsUuid(u) && IsUuid(w) && AsciiLower(u) != AsciiLower(w)
    ensures var kept := {"session_" + w, "archive_" + w, "construct.orchestrator_state", STREAM_CURSOR_KEY};
            forall key | key in kept && key in t.secure ::
              key in DeleteContact(t, u).secure && DeleteContact(t, u).secure[key] == t.secure[key]
  {
    forall key | key in {"session_" + w, "archive_" + w, "construct.orchestrator_state", STREAM_CURSOR_KEY}
      ensures !Like("%" + u + "%", key)
    {
      PatternReaches(u, key);
      if key == "session_" + w {
        UuidsReachThemselves(u, "session_", w);
      } else if key == "archive_" + w {
        UuidsReachThemselves(u, "archive_", w);
      } else {
        LongIdsReachNothing(u, key);
      }
    }
  }

  lemma LongIdsReachNothing(u: string, key: string)
    requires IsUuid(u) && |key| < |u|
    ensures !Reaches(u, key)
  {
    assert '%' !in u by {
      assert forall i | 0 <= i < 36 :: i in {8, 13, 18, 23} || Hex.IsHexDigit(u[i]);
    }
    PlainReaches(u, key);
  }

  lemma {:induction false} LikeSelf(u: string, b: string)
    ensures Like(u + "%", u + b)
  {
    if u == "" {
      assert u + b == b && u + "%" == "%";
      LikeAnything(b);
    } else {
      assert (u + "%")[1..] == u[1..] + "%" && (u + b)[1..] == u[1..] + b;
      LikeSelf(u[1..], b);
      assert u[0] == '%' ==> Like(u + "%", (u + b)[1..]);
    }
  }

  lemma {:induction false} LikeAnything(b: string)
    ensures Like("%", b)
  {
    if b != "" {
      LikeAnything(b[1..]);
    }
  }

  lemma {:induction false} LikeAfter(p: string, a: string, s: string)
    requires Like(p, s)
    ensures Like("%" + p, a + s)
  {
    assert ("%" + p)[1..] == p;
    if a == "" {
      assert a + s == s;
    } else {
      assert (a + s)[1..] == a[1..] + s;
      LikeAfter(p, a[1..], s);
    }
  }

  /** After a contact is deleted no message of theirs is left, and no secure key that mentions them
      (whatever wildcards their id contains); every other contact and message stays. */
  lemma DeleteIsComplete(t: Tables, user: string, before: string, after: string)
    ensures before + user + after !in DeleteContact(t, user).secure
    ensures forall id | id in DeleteContact(t, user).messages :: DeleteContact(t, user).messages[id].peer != user
    ensures forall id | id in t.messages && t.messages[id].peer != user ::
              id in DeleteContact(t, user).messages && DeleteContact(t, user).messages[id] == t.messages[id]
    ensures DeleteContact(t, user).contacts.Keys == t.contacts.Keys - {user}
  {
    LikeSelf(user, after);
    LikeAfter(user + "%", before, user + after);
    assert "%" + (user + "%") == "%" + user + "%";
    assert before + (user + after) == before + user + after;
  }

  // ---- replays ----

  /** What can happen to the message table while the client runs. A persist stores the row, and then its
      cursor if it has one that is accepted; when `ok` is false the statement for the row fails and nothing
      happens. */
  datatype Op =
    | Persist(id: string, row: Row, cursor: Option<string>, ok: bool)
    | Delivered(id: string)
    | Deleted(user: string)

  function Apply(t: Tables, op: Op): Tables {
    match op
    case Persist(id, row, cursor, ok) =>
      if !ok then t
      else if cursor.Some? then SaveCursor(StoreInbound(t, id, row), cursor.value)
      else StoreInbound(t, id, row)
    case Delivered(id) => MarkDelivered(t, id)
    case Deleted(user) => DeleteContact(t, user)
  }

  function ApplyAll(t: Tables, ops: seq<Op>): Tables
    decreases ops
  {
    if ops == [] then t else ApplyAll(Apply(t, ops[0]), ops[1..])
  }

  /** `ops` with every persist of an id already in `seen`, or persisted successfully earlier in `ops`, left out. */
  function WithoutReplays(ops: seq<Op>, seen: set<string>): seq<Op> {
    if ops == [] then []
    else if ops[0].Persist? && ops[0].id in seen then WithoutReplays(ops[1..], seen)
    else [ops[0]] + WithoutReplays(ops[1..], if ops[0].Persist? && ops[0].ok then seen + {ops[0].id} else seen)
  }

  lemma SavesKeepRows(t: Tables, c: string)
    ensures SaveCursor(t, c).messages == t.messages
  {
    hide LoadCursor, Moves;
  }

  /** What one operation does to the rows depends on the rows alone. */
  lemma RowsOnly(t: Tables, u: Tables, op: Op)
    requires !op.Deleted? && u.messages == t.messages
    ensures Apply(u, op).messages == Apply(t, op).messages
    ensures t.messages.Keys <= Apply(t, op).messages.Keys
    ensures op.Persist? && op.id in t.messages ==> Apply(t, op).messages == t.messages
    ensures op.Persist? && op.ok ==> op.id in Apply(t, op).messages
  {
    hide SaveCursor, DeleteContact;
    if op.Persist? && op.cursor.Some? {
      SavesKeepRows(StoreInbound(t, op.id, op.row), op.cursor.value);
      SavesKeepRows(StoreInbound(u, op.id, op.row), op.cursor.value);
    }
  }

  /** Replays change no row: with no contact deleted, a run of persists and delivery marks leaves the same
      messages as the run in which each id is persisted once. (A replay may still move the watermark.) */
  lemma {:induction false} ReplaysChangeNothing(t: Tables, u: Tables, ops: seq<Op>, seen: set<string>)
    requires forall op | op in ops :: !op.Deleted?
    requires u.messages == t.messages && forall id | id in seen :: id in t.messages
    ensures ApplyAll(u, WithoutReplays(ops, seen)).messages == ApplyAll(t, ops).messages
    decreases ops
  {
    hide Apply;
    if ops != [] {
      var op := ops[0];
      RowsOnly(t, u, op);
      if op.Persist? && op.id in seen {
        ReplaysChangeNothing(Apply(t, op), u, ops[1..], seen);
      } else {
        var now := if op.Persist? && op.ok then seen + {op.id} else seen;
        ReplaysChangeNothing(Apply(t, op), Apply(u, op), ops[1..], now);
        assert ([op] + WithoutReplays(ops[1..], now))[1..] == WithoutReplays(ops[1..], now);
      }
    }
  }

  /** A row's peer, text, direction and timestamp never change, and it never disappears, until its
      contact is deleted, whatever replays, other messages, deletions and delivery marks interleave. */
  lemma {:induction false} RowsAreStable(t: Tables, ops: seq<Op>, id: string)
    requires id in t.messages
    requires Deleted(t.messages[id].peer) !in ops
    ensures id in ApplyAll(t, ops).messages
    ensures ApplyAll(t, ops).messages[id] == t.messages[id].(status := ApplyAll(t, ops).messages[id].status)
    decreases ops
  {
    if ops != [] {
      assert ops[0] in ops;
      RowsAreStable(Apply(t, ops[0]), ops[1..], id);
    }
  }

  /** Until its contact is deleted, a row is delivered exactly if it was before or has been marked since;
      marking one row changes no other, and nothing else in the database. */
  lemma {:induction false} DeliveredIfMarked(t: Tables, ops: seq<Op>, id: string)
    requires id in t.messages
    requires Deleted(t.messages[id].peer) !in ops
    ensures id in ApplyAll(t, ops).messages
    ensures ApplyAll(t, ops).messages[id].status ==
            if Delivered(id) in ops then "delivered" else t.messages[id].status
    decreases ops
  {
    hide LoadCursor;
    if ops != [] {
      assert ops[0] in ops && ops == [ops[0]] + ops[1..];
      DeliveredIfMarked(Apply(t, ops[0]), ops[1..], id);
    }
  }

  lemma MarkingIsLocal(t: Tables, id: string)
    ensures MarkDelivered(t, id) == t.(messages := MarkDelivered(t, id).messages)
    ensures MarkDelivered(t, id).messages.Keys == t.messages.Keys
    ensures forall other | other in t.messages && other != id ::
            MarkDelivered(t, id).messages[other] == t.messages[other]
  {
  }

  // ---- acknowledgements ----

  datatype AckOp = NoteAck(id: string, timestampMs: int) | Prune(cutoffMs: int)

  function ApplyAck(t: Tables, op: AckOp): Tables {
    match op
    case NoteAck(id, timestampMs) => StoreAck(t, id, timestampMs)
    case Prune(cutoffMs) => PruneAcks(t, cutoffMs)
  }

  function ApplyAcks(t: Tables, ops: seq<AckOp>): Tables
    decreases ops
  {
    if ops == [] then t else ApplyAcks(ApplyAck(t, ops[0]), ops[1..])
  }

  /** An acknowledgement keeps the time it was first stored with, and stays for as long as nothing prunes
      what is older than a later time; once pruned and not stored again it is gone. */
  lemma {:induction false} AcksStay(t: Tables, ops: seq<AckOp>, id: string)
    requires id in t.acks
    ensures (forall op | op in ops && op.Prune? :: op.cutoffMs <= t.acks[id]) ==>
              id in ApplyAcks(t, ops).acks && ApplyAcks(t, ops).acks[id] == t.acks[id]
    ensures (forall op | op in ops && op.NoteAck? :: op.id != id) ==>
              (id in ApplyAcks(t, ops).acks <==> forall op | op in ops && op.Prune? :: op.cutoffMs <= t.acks[id])
    decreases ops
  {
    if ops != [] {
      assert ops == [ops[0]] + ops[1..];
      if id in ApplyAck(t, ops[0]).acks {
        AcksStay(ApplyAck(t, ops[0]), ops[1..], id);
      } else {
        AcksStayAway(ApplyAck(t, ops[0]), ops[1..], id);
      }
    }
  }

  lemma {:induction false} AcksStayAway(t: Tables, ops: seq<AckOp>, id: string)
    requires id !in t.acks
    ensures (forall op | op in ops && op.NoteAck? :: op.id != id) ==> id !in ApplyAcks(t, ops).acks
    decreases ops
  {
    if ops != [] && (forall op | op in ops && op.NoteAck? :: op.id != id) {
      assert ops[0] in ops && forall op | op in ops[1..] :: op in ops;
      AcksStayAway(ApplyAck(t, ops[0]), ops[1..], id);
    }
  }

  /** Storing an acknowledgement stores it, whichever others there are, and touches nothing else. */
  lemma AckIsStored(t: Tables, id: string, timestampMs: int)
    ensures id in StoreAck(t, id, timestampMs).acks
    ensures id !in t.acks ==> StoreAck(t, id, timestampMs).acks[id] == timestampMs
    ensures StoreAck(t, id, timestampMs).acks - {id} == t.acks - {id}
    ensures StoreAck(t, id, timestampMs) == t.(acks := StoreAck(t, id, timestampMs).acks)
    ensures PruneAcks(t, timestampMs) == t.(acks := PruneAcks(t, timestampMs).acks)
  {
  }

  // ---- the storage object ----

  datatype DbError = DbError

  /** The connection. Any statement may fail: the `k`-th one does when `faults(k)`, for an arbitrary
      schedule of faults, and a failed statement changes nothing. */
  class Database {
    var t: Tables
    var issued: nat
    const faults: nat -> bool

    constructor (t: Tables, faults: nat -> bool)
      ensures this.t == t && this.faults == faults && issued == 0
    {
      this.t, this.faults, this.issued := t, faults, 0;
    }

    method Execute(after: Tables) returns (r: Result<(), DbError>)
      modifies this
      ensures issued == old(issued) + 1 && (r.Ok? <==> !faults(old(issued)))
      ensures t == if r.Ok? then after else old(t)
    {
      r := if faults(issued) then Err(DbError) else Ok(());
      if r.Ok? {
        t := after;
      }
      issued := issued + 1;
    }

    method StoreInboundMessage(id: string, row: Row) returns (r: Result<(), DbError>)
      modifies this
      ensures issued == old(issued) + 1 && (r.Ok? <==> !faults(old(issued)))
      ensures t == if r.Ok? then StoreInbound(old(t), id, row) else old(t)
    {
      r := Execute(if id in t.messages then t else t.(messages := t.messages[id := row]));
    }

    method MarkMessageDelivered(id: string) returns (r: Result<(), DbError>)
      modifies this
      ensures issued == old(issued) + 1 && (r.Ok? <==> !faults(old(issued)))
      ensures t == if r.Ok? then MarkDelivered(old(t), id) else old(t)
    {
      r := Execute(if id in t.messages
          then t.(messages := t.messages[id := t.messages[id].(status := "delivered")]) else t);
    }

    method Save(key: string, value: bytes) returns (r: Result<(), DbError>)
      modifies this
      ensures issued == old(issued) + 1 && (r.Ok? <==> !faults(old(issued)))
      ensures t == if r.Ok? then SecureSave(old(t), key, value) else old(t)
    {
      r := Execute(t.(secure := t.secure[key := value]));
    }

    method Delete(key: string) returns (r: Result<(), DbError>)
      modifies this
      ensures issued == old(issued) + 1 && (r.Ok? <==> !faults(old(issued)))
      ensures t == if r.Ok? then SecureDelete(old(t), key) else old(t)
    {
      r := Execute(t.(secure := t.secure - {key}));
    }

    method SaveOrDelete(key: string, value: bytes) returns (r: Result<(), DbError>)
      modifies this
      ensures issued == old(issued) + 1 && (r.Ok? <==> !faults(old(issued)))
      ensures t == if r.Ok? then SecureSaveOrDelete(old(t), key, value) else old(t)
    {
      if value == [] {
        r := Delete(key);
      } else {
        r := Save(key, value);
      }
    }

    method InsertAck(id: string, timestampMs: int) returns (r: Result<(), DbError>)
      modifies this
      ensures issued == old(issued) + 1 && (r.Ok? <==> !faults(old(issued)))
      ensures t == if r.Ok? then StoreAck(old(t), id, timestampMs) else old(t)
    {
      r := Execute(if id in t.acks then t else t.(acks := t.acks[id := timestampMs]));
    }

    method DeleteAcksBefore(cutoffMs: int) returns (r: Result<(), DbError>)
      modifies this
      ensures issued == old(issued) + 1 && (r.Ok? <==> !faults(old(issued)))
      ensures t == if r.Ok? then PruneAcks(old(t), cutoffMs) else old(t)
    {
      r := Execute(t.(acks := map id | id in t.acks && t.acks[id] >= cutoffMs :: t.acks[id]));
    }

    method InsertRecord(table: string, json: string) returns (r: Result<(), DbError>)
      modifies this
      ensures issued == old(issued) + 1 && (r.Ok? <==> !faults(old(issued)))
      ensures t == if r.Ok? then PersistRecord(old(t), table, json) else old(t)
    {
      r := Execute(t.(records := t.records + [(table, json)]));
    }

    /** `delete_contact`: three statements, stopping at the first that fails; the number of messages
        deleted. */
    method DeleteContactRows(user: string) returns (r: Result<nat, DbError>)
      modifies this
      ensures r.Ok? ==> t == DeleteContact(old(t), user) && r.value == |MessagesOf(old(t), user)|
      ensures r.Ok? <==> !faults(old(issued)) && !faults(old(issued) + 1) && !faults(old(issued) + 2)
      ensures r.Err? ==>
                t == if faults(old(issued)) then old(t)
                     else if faults(old(issued) + 1) then old(t).(contacts := old(t).contacts - {user})
                     else DeleteContact(old(t), user).(secure := old(t).secure)
    {
      var _ :- Execute(t.(contacts := t.contacts - {user}));
      var doomed := MessagesOf(t, user);
      assert doomed == MessagesOf(old(t), user);
      var _ :- Execute(t.(messages := t.messages - doomed));
      var _ :- Execute(t.(secure := map k | k in t.secure && !Like("%" + user + "%", k) :: t.secure[k]));
      r := Ok(|doomed|);
    }

    method HasAck(id: string) returns (r: Result<bool, DbError>)
      modifies this
      ensures issued == old(issued) + 1 && t == old(t)
      ensures r == if faults(old(issued)) then Err(DbError) else Ok(id in t.acks)
    {
      var ok := Execute(t);
      r := if ok.Ok? then Ok(id in t.acks) else Err(DbError);
    }

    method Load(key: string) returns (r: Result<Option<bytes>, DbError>)
      modifies this
      ensures issued == old(issued) + 1 && t == old(t)
      ensures r == if faults(old(issued))
              then Err(DbError) else Ok(if key in t.secure then Some(t.secure[key]) else None)
    {
      var ok := Execute(t);
      r := if ok.Ok? then Ok(if key in t.secure then Some(t.secure[key]) else None) else Err(DbError);
    }

    method LoadStreamCursor() returns (r: Result<Option<string>, DbError>)
      modifies this
      ensures issued == old(issued) + 1 && t == old(t)
      ensures r == if faults(old(issued)) then Err(DbError) else Ok(LoadCursor(t))
    {
      var ok := Execute(t);
      r := if ok.Ok? then Ok(LoadCursor(t)) else Err(DbError);
    }

    /** Whether a save of `c` by the statements from number `k` on goes through and moves the watermark. */
    ghost predicate Accepts(c: string, k: nat)
      reads this
    {
      Moves(LoadCursor(t), c) && !faults(k) && !faults(k + 1)
    }

    /** `save_stream_cursor`: reports whether the stored watermark moved. */
    method SaveStreamCursor(c: string) returns (r: Result<bool, DbError>)
      modifies this
      ensures r == Ok(true) <==> old(Accepts(c, issued))
      ensures t == if r == Ok(true) then SaveCursor(old(t), c) else old(t)
      ensures r.Err? ==> faults(old(issued)) || faults(old(issued) + 1)
    {
      if c == "" {
        return Ok(false);
      }
      var stored :- LoadStreamCursor();
      if stored.Some? && !After(c, stored.value) {
        return Ok(false);
      }
      var _ :- Save(STREAM_CURSOR_KEY, Utf8.Encode(c));
      r := Ok(true);
    }
  }
}
