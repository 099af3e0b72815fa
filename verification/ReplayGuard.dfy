/** The guard that drops replayed session set-up messages once a session is established. */
module ReplayGuard {
  import opened Wrappers
  import opened Bytes
  import opened StreamCursor
  import Knst

  /** An inbound message with the cursor the server attached to it. */
  datatype StreamMessage = StreamMessage(contact: string, id: string, cursor: Option<string>, contentType: byte,
      msgNum: nat)

  predicate ReplaySensitive(m: StreamMessage) {
    m.msgNum == 0 || m.contentType == Knst.CONTENT_SESSION_RESET || m.contentType == Knst.CONTENT_SESSION_RESET_INIT
  }

  /** `should_drop_stale_session_replay`: `established` holds when each contact's session was set up. */
  predicate ShouldDrop(m: StreamMessage, established: map<string, u64>) {
    && ReplaySensitive(m)
    && m.contact in established
    && CursorMillis(m.cursor).Some?
    && CursorMillis(m.cursor).value < established[m.contact]
  }

  /** The guard drops a set-up message (message number 0), a session reset (content type 21) or a reset with
      set-up (24) whose cursor is older than the contact's session, and nothing else. */
  lemma GuardIs(m: StreamMessage, established: map<string, u64>)
    ensures ShouldDrop(m, established) <==>
      && (m.msgNum == 0 || m.contentType == 21 || m.contentType == 24)
      && CursorMillis(m.cursor).Some? && m.contact in established
      && CursorMillis(m.cursor).value < established[m.contact]
  {
  }
}
