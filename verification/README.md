# Verified model of construct-tui

construct-tui is a terminal client for the Construct messenger. This project models the parts of it whose
correctness spans many steps or many functions, in Dafny 4.11, and proves what those parts promise. It is
checked with `dafny verify dfyconfig.toml`.

| file | what it models |
|---|---|
| `StreamWorker.dfy` | the reconnecting worker that owns the outgoing queue (`src/streaming.rs`) |
| `StreamCursor.dfy`, `CursorTracker.dfy`, `Storage.dfy` | cursors, the shared watermark, the database tables (`src/storage.rs`, `src/streaming.rs`) |
| `ReplayGuard.dfy`, `Watermark.dfy` | the inbound protocol in which relay, orchestrator, worker and user interface interleave |
| `OrchestratorTask.dfy` | the actor that feeds the cryptographic core and carries out its actions (`src/orchestrator_task.rs`) |
| `Invite.dfy`, `InviteCodec.dfy`, `InviteWire.dfy`, `InviteLink.dfy` | invites: signed string, CIv1 container, the code that reads and writes it, links and minting (`src/invite.rs`) |
| `GrpcFraming.dfy`, `FrameAssembly.dfy` | gRPC message frames and their reassembly from chunks (`src/grpc/framing.rs`, `src/grpc/stream.rs`) |
| `Knst.dfy` | KNST plaintext frames and the wrap-once step (`src/knst.rs`) |
| `HalfBlock.dfy` | the half-block QR print (`src/screens/qr_widget.rs`) |
| `Bytes.dfy`, `Text.dfy`, `Utf8.dfy`, `Hex.dfy`, `Base64.dfy`, `Uuid.dfy`, `Wrappers.dfy` | octets, integers, strings and the text encodings everything above is written in |

## How it is modelled

- **Worker.** `StreamWorker.Worker` is given an arbitrary sequence of commands. Which opens and sends fail, which
  branch of a `select!` is ready and when timers fire is nondeterministic, and the run may be stopped after any
  number of scheduler turns, so the contract of `Run` speaks about every moment of every run. A message stream
  whose channel has closed stays closed, as a dropped receiver does. Ghost ledgers record the fate of every
  envelope by its position among the `Send` commands.
- **Database.** One map per table. `StreamCursor`, `Storage` and `CursorTracker` separate the pure effect of a
  statement from the objects that issue it; the connection carries an arbitrary schedule of faults, so the
  contracts say exactly when a statement took effect.
- **Watermark protocol.** `Watermark` is a transition system over one state value, with `persist_inbound` cut at
  every lock and every statement. It assumes a single writer of the watermark, that the core does not use
  the watermark's own key, and no logout; the claims about `since_cursor` also assume that no deleted contact's
  id reaches that key (a UUID cannot). `UninterruptedPersist` ties its steps back to the sequential code.
- **Core.** The cryptographic core (`construct-core`, not part of this model) is an oracle: it answers any event
  with any list of actions and changes its visible set of active sessions at will. Bundle fetches, random
  identifiers and clocks may return anything.
- **Invites.** Base64, hexadecimal, UUID text and UTF-8 are written out, following RFC 4648 (sections 4, 5 and
  8), RFC 9562 (section 4) and RFC 3629. Base64 decoding is strict, as in the `base64` crate. Ed25519, the older
  JSON form and Unicode lower-casing are parameters; of lower-casing the proofs use only that it is the ASCII
  mapping on ASCII, leaves no ASCII capital, and never makes a `|`.
- **Protobuf.** The codecs of message contents are parameters; where needed, decoding what was encoded gives
  the text back. Content-type numbers that the source does not spell out are parameters too, where needed
  different from the others.

Two places where the code does something a reader may not expect are kept as they are. Length fields of gRPC and
KNST frames are the low 32 bits of the length, so the round trips hold exactly for bodies under 4 GiB
(`GrpcFraming.FrameReadsBack` and `Knst.FrameReadsBack` say what comes back of any body). Deleting a contact also
deletes every secure key that contains the contact's id, matched with SQL `LIKE`, and the watermark is one of those
keys: an id such as "stream" deletes the watermark too, without any wildcard (`Storage.DeleteMayLoseCursor`).
`Storage.DeleteKeepsCursor` gives the exact condition, and `Storage.DeleteSparesOthers` shows that UUIDs are safe.

## Model

| member | source | states |
|---|---|---|
| StreamWorker.Run | src/streaming.rs:146-298 | At every moment of every run: envelopes handed to the successive streams, followed by those still waiting, are a subsequence of the `Send` commands taken; taken = handed + waiting + evicted + lost; one is evicted only when 256 newer ones were taken after it, at most one is lost per stream opened; at most 256 wait, and they are exactly the newest; nothing waited whenever a live stream read a command; every command found was taken and none after one that ends the worker; every successful open subscribes the users named last, and every try to open is followed by one wait unless the run ended before it |
| StreamWorker.Worker.RunWorker | src/streaming.rs:146-298 | The reconnect loop keeps the accounts balanced, the subscription current and the attempt count equal to the waits since the last connection, whatever the environment does; it takes exactly the commands it finds, has a session for every successful open and a wait for every try, and exits only after Close, after Shutdown, or on finding every sender gone |
| StreamWorker.Worker.Session | src/streaming.rs:210-296 | One open with the current subscription; at most one envelope is lost; the reports are connected, disconnected and a first wait of one second, unless the live loop was told to end, and then with an empty queue |
| StreamWorker.Worker.FailedOpen | src/streaming.rs:177-207 | A failed open hands nothing over, and is followed by one wait with the attempt number grown by one |
| StreamWorker.Worker.Flush | src/streaming.rs:210-215 | A prefix of the queue goes out in order, at most the next envelope is lost, the rest stays in order; something stays only if the stream is closed |
| StreamWorker.Worker.Live | src/streaming.rs:221-282 | Entered with an empty queue or a closed stream, the live loop hands over exactly what the stream accepts, loses and evicts nothing, reads each command with nothing waiting, sends a heartbeat at once and whenever one is due, keeps an open stream subscribed to the users named last, goes on until a send fails or the incoming side ends, and exits only when told to |
| StreamWorker.Worker.LiveCommand | src/streaming.rs:234-271 | An envelope is sent, a subscription passed on, any other command ends the worker |
| StreamWorker.Worker.LiveTurn | src/streaming.rs:222-281 | Whatever is found first is dealt with: a heartbeat sent, a command carried out, the end of the commands or of the stream taken as such |
| StreamWorker.Worker.LiveSend | src/streaming.rs:240-247 | A live send happens only with an empty queue; on failure the envelope becomes the whole queue and nothing is handed over |
| StreamWorker.Worker.PushPending | src/streaming.rs:300-306 | The envelope joins at the back; a full queue drops exactly its oldest envelope first |
| StreamWorker.Worker.WaitBackoff | src/streaming.rs:327-357 | A wait is reported with the next attempt number and its base delay; at most one command is taken, an envelope queued (dropping the oldest of a full queue) or the users replaced; the exit is reported exactly for a command to end or a closed channel |
| StreamWorker.Worker.TakeOther | src/streaming.rs:157-165 | Close and Shutdown exit; Subscribe replaces the users; the queue is untouched |
| StreamWorker.BalancedMeans | src/streaming.rs:146-306 | Balanced accounts imply the order and conservation laws |
| StreamWorker.BackoffGrowsToAMinute | src/streaming.rs:359-361 | Base delays start at one second, double, never shrink, and are 60 from the sixth retry on |
| StreamWorker.MessageStream.SendEnvelope | src/grpc/stream.rs:28-42 | A send succeeds exactly when the stream has not closed, and once closed it always fails |
| StreamCursor.AfterIsRankOrder | src/storage.rs:407-417 | On well-formed ids `cursor_after` is the numeric order by millis, then sequence number |
| StreamCursor.CursorParses | src/storage.rs:414-418 | The text of a cursor parses to its milliseconds and its sequence number, for all 64-bit numbers; the guard reads its milliseconds |
| StreamCursor.AfterOnTexts | src/storage.rs:407-412 | On texts, `cursor_after` compares the milliseconds, and only at equal milliseconds the sequence numbers |
| StreamCursor.AfterFallsBack | src/storage.rs:411-411 | When either text is no cursor the order is that of the strings |
| StreamCursor.RankOnTexts | src/storage.rs:407-418 | The rank of a text is its milliseconds and its sequence number read as one number |
| Text.ParsesU64 | src/storage.rs:414-418 | A number parses from its digits, also behind a `+` or zeros, exactly if it fits 64 bits |
| Text.LessAtDifference | src/storage.rs:411-411 | The fallback order of malformed cursors is decided at the first difference, a prefix being less |
| StreamCursor.AdvanceTakesTheLater | src/storage.rs:367-378 | One save takes the later of stored and new, and reports a move exactly when the watermark grew |
| StreamCursor.AdvanceAllIsMaximum | src/storage.rs:367-378 | Any sequence of saves ends at the numeric maximum of the initial value and everything saved |
| StreamCursor.OrderIsIrrelevant | src/storage.rs:367-378 | The order and repetition of saves does not change where the watermark ends |
| Storage.SaveAdvances | src/storage.rs:358-378 | What is loaded after a save is the advanced watermark, and no other key changes |
| Storage.DeleteKeepsCursor | src/storage.rs:305-318 | Deleting a contact keeps the watermark exactly when the contact's id does not reach the watermark's key, for an id without `%` exactly when it agrees with no stretch of that key |
| Storage.PatternReaches | src/storage.rs:313-316 | The LIKE pattern of a delete matches a key exactly when some stretch of the key is LIKE the id |
| Storage.PlainReaches | src/storage.rs:313-316 | For an id without `%` that is: it agrees with the key, up to ASCII case and `_`, from some position on |
| Storage.DeleteMayLoseCursor | src/storage.rs:305-318 | Deleting a contact whose id is "stream" deletes the watermark |
| Storage.UuidsReachThemselves | src/storage.rs:313-316 | A contact's UUID reaches a session or archive key exactly when that key carries the same UUID, up to case |
| Storage.DeleteSparesOthers | src/storage.rs:305-318 | Deleting one UUID contact spares the session and archive of every other, the core's state and the watermark |
| Storage.DeleteIsComplete | src/storage.rs:305-318 | After a delete no message of the contact and no secure key that mentions their id is left, and nobody else's message is touched |
| Storage.ReplaysChangeNothing | src/storage.rs:163-178 | A run of inbound persists, with or without faults and watermark moves, and delivery marks leaves the same message rows as the run in which each id is persisted once |
| Storage.RowsAreStable | src/storage.rs:163-210 | A row's peer, text, direction and timestamp survive any interleaving of replays, delivery marks and other deletions until its own contact is deleted |
| Storage.DeliveredIfMarked | src/storage.rs:204-210 | Until its contact is deleted, a row is delivered exactly if it was before or has been marked since, whatever interleaves |
| Storage.MarkingIsLocal | src/storage.rs:204-210 | Marking one row changes no other row and nothing else |
| Storage.AcksStay | src/storage.rs:258-300 | An acknowledgement keeps its first time and stays exactly until something prunes what is older than a later time, through any run of acknowledgements and prunes |
| Storage.AckIsStored | src/storage.rs:258-264 | Storing an acknowledgement stores it and touches no other |
| Storage.Database.StoreInboundMessage | src/storage.rs:163-178 | Inserts the row unless the id exists; a failed statement changes nothing |
| Storage.Database.MarkMessageDelivered | src/storage.rs:204-210 | Changes only the delivery status of that row, if there is one |
| Storage.Database.DeleteContactRows | src/storage.rs:305-318 | Three statements in order, stopping at the first failure; what is gone after each of them, and the number of messages deleted |
| Storage.Database.SaveOrDelete | src/storage.rs:332-338 | The empty value deletes the key, any other replaces it |
| Storage.Database.SaveStreamCursor | src/storage.rs:367-378 | Reports a move exactly when both statements went through and the cursor is after the stored one; otherwise the database is unchanged |
| CursorTracker.Tracker.constructor | src/streaming.rs:80-86 | Memory starts at the stored watermark, or at none if it cannot be read |
| CursorTracker.Tracker.Note | src/streaming.rs:92-99 | An empty cursor is ignored; any other replaces the one noted for that id |
| CursorTracker.Tracker.Commit | src/streaming.rs:101-108 | The cursor noted for the id is used up, and database and memory move together or not at all |
| CursorTracker.Tracker.CommitDirect | src/streaming.rs:111-113 | As a commit, without touching the noted cursors |
| CursorTracker.Tracker.Persist | src/streaming.rs:115-124 | Memory changes only if the database moved |
| CursorTracker.PersistInbound | src/orchestrator_task.rs:1328-1337 | The watermark moves only after the row is stored, only to the cursor noted for that id, and exactly when the database accepts it; the database ends as one `Persist` operation leaves it |
| CursorTracker.CommitAll | src/streaming.rs:101-124 | Any sequence of commits, under any schedule of faults, ends where saving the cursors of the unfailed calls ends, changes nothing else in the database, and keeps memory equal to the database once it moved |
| CursorTracker.CommitsReachMaximum | src/streaming.rs:101-124 | That is the numeric maximum of the initial watermark and the cursors of the unfailed calls |
| CursorTracker.PersistKeepsStep | src/streaming.rs:115-124 | Persisting a well-formed cursor keeps memory at or behind the database |
| Watermark.WatermarkProvenance | src/orchestrator_task.rs:367-426 | In every interleaving, whenever the stored watermark takes a new value it is a cursor the server attached to a message or receipt that the relay passed on; and either an earlier step stored that message's row, which is still there unless the user deleted its contact in between, or an earlier step dropped the message when its contact had a session established after the cursor |
| Watermark.EstablishedMeans | src/orchestrator_task.rs:569-570 | The table of sessions holds a time exactly when a step established the session then and no later step changed it |
| Watermark.GuardMeans | src/orchestrator_task.rs:1412-1432 | The replay guard drops exactly the set-up and reset messages older than the session their contact has |
| ReplayGuard.GuardIs | src/orchestrator_task.rs:1412-1432 | The guard drops a message with number 0 or content type 21 or 24 whose cursor is older than its contact's session, and nothing else |
| Watermark.DroppedNeverStored | src/app.rs:841-939 | Over any run the watermark is the initial one or was attached to something the relay passed on, so a cursor seen only on dropped envelopes, heartbeats or errors never becomes the watermark |
| Watermark.UnreadableReset | src/app.rs:897-927 | A reset that cannot be unpacked is forwarded as message 0; taken, it is dropped exactly if outdated, and otherwise its cursor is noted for its id |
| Watermark.RunStaysTraced | src/app.rs:835-950 | Every cursor noted, queued or being saved was attached by the server, and every row being finished is accounted for, at every moment |
| Watermark.UnreadableLeavesNoTrace | src/app.rs:841-939 | A run with envelopes the relay's routing drops, heartbeats and errors ends in the same state as the run without them |
| Watermark.Relay | src/app.rs:873-940 | An envelope is forwarded exactly if it opens and either unpacks or is a reset; sender, id, type and cursor are kept, and a reset that does not unpack gets message number 0, which subjects it to the replay guard |
| Watermark.SinceIsNeverAhead | src/streaming.rs:168-170 | With well-formed cursors, every `since_cursor` sent, on reopening or live resubscription, is not after the stored watermark at that moment, also between the two writes of a persist |
| Watermark.WatermarkGrows | src/storage.rs:367-378 | No step of any actor moves the stored watermark backwards |
| Watermark.RunStaysBehind | src/app.rs:1767-1780 | Memory, queued subscriptions and a reopening in progress never hold a cursor after the stored one |
| Watermark.UninterruptedPersist | src/orchestrator_task.rs:1328-1337 | The protocol's four steps, run without interruption, have the effect of the sequential code |
| Watermark.InboxIsFifo | src/app.rs:877-895 | What is forwarded is queued last, and what is taken was queued first |
| Watermark.MessageMovesWatermark | src/orchestrator_task.rs:382-382 | A message that is not stale, once taken and stored, moves the watermark to its cursor unless that is not after what is stored; memory follows |
| Watermark.ReceiptMovesWatermark | src/app.rs:942-951 | So does a receipt, when its message is stored afterwards |
| Watermark.ReplayMovesWatermark | src/orchestrator_task.rs:367-380 | A stale replay moves the watermark the same way and changes nothing else |
| Watermark.FailureChangesNothing | src/orchestrator_task.rs:1328-1337 | A failed statement leaves database and memory alone |
| Watermark.OtherWrites | src/orchestrator_task.rs:828-870 | The orchestrator's other writes take effect between two messages and not inside one |
| Watermark.ResumesFrom | src/streaming.rs:168-170 | Reopening resumes from memory, live resubscription from what was read from the database, a failed read from nowhere |
| OrchestratorTask.Task.Run | src/orchestrator_task.rs:144-268 | Over every run the record splits into one part for each input, in order: a message from the stream is dropped, and nothing else happens, exactly if it is outdated, and otherwise its cursor is noted and it has a turn; a forgotten contact ends forgotten; an event from the channel is prepared and has its turn, except an outgoing message for which no session could be established. Every outgoing message from the channel reaches the core with an active session, framed or led by NUL |
| OrchestratorTask.Task.Turn | src/orchestrator_task.rs:211-266 | The core is given the event and then exactly the events that its own actions left, in order: at most 1 + 2n calls for n actions; no action is lost; once InitSession has succeeded for a contact nothing later in the turn, follow-ups included, heals it |
| OrchestratorTask.Task.HandleStream | src/orchestrator_task.rs:367-427 | A message is dropped exactly if it is outdated: then the watermark moves if its cursor is accepted, and nothing else changes, no core call, row, noted cursor, session or timer; any other message has its cursor noted and a turn |
| OrchestratorTask.Task.Forget | src/orchestrator_task.rs:288-366 | A forgotten contact has no established session; its session and archive keys are gone and the core's exported state is saved, each unless its statement failed |
| OrchestratorTask.Task.InitSession | src/orchestrator_task.rs:450-575 | The waiting messages are counted and the first is looked at; one attempt is made with exactly what was found, all or nothing: if it succeeds the session is recorded, the contact marked, exactly one follow-up left and a responder's first message stored if it is user content; if it fails the database, the tracker, the sessions and the follow-ups are unchanged |
| OrchestratorTask.Task.Heal | src/orchestrator_task.rs:636-815 | Nothing for a contact set up this turn; otherwise an initiator resets the peer and fetches its bundle, a responder takes the queued payload and fetches the bundle, and there is one attempt exactly if all of that was there; success announces the session (an initiator's ping follows) and stores a responder's first message if it is user content; failure leaves no follow-up and the database unchanged, and a failed responder tells the peer to reset |
| OrchestratorTask.Task.Dispatch | src/orchestrator_task.rs:432-1044 | The record of every action, its effect on the database (no change for timers, heartbeats, lookups and the rest), the timers and the event queue, and exactly what it leaves for the core |
| OrchestratorTask.Task.Perform | src/orchestrator_task.rs:828-1022 | The actions that concern no session: one database effect at most, lookups answered from the database, timers and heartbeats kept apart from it |
| OrchestratorTask.TookInMeans | src/orchestrator_task.rs:1328-1337 | Taking a message in stores its row once, never changes an existing row, and moves the watermark at most to the cursor noted for it |
| OrchestratorTask.Task.Archive | src/orchestrator_task.rs:1050-1059 | A terminated session is archived first and deleted only if that went through; a failed archive changes nothing |
| OrchestratorTask.Task.Receive | src/orchestrator_task.rs:604-616 | A decrypted message is stored once, a replay changes no row, and the watermark moves only to the cursor noted for it |
| OrchestratorTask.Task.SurfaceFirst | src/orchestrator_task.rs:480-523 | The first message of a responder session is stored only if it is user content |
| OrchestratorTask.SurfaceableIs | src/orchestrator_task.rs:485-488 | User content is not empty, not led by NUL, and has neither marker anywhere in it |
| OrchestratorTask.HeartbeatIs | src/orchestrator_task.rs:963-963 | The heartbeat is "HEARTBEAT" between two NULs, so it is presented to the core as it is |
| OrchestratorTask.Task.EstablishSession | src/orchestrator_task.rs:1254-1326 | With an active session nothing happens; otherwise the bundle is fetched and, if there is one, the core has a turn with it; success is an active session, newly made exactly when there was none |
| OrchestratorTask.Task.PrepareOutgoing | src/orchestrator_task.rs:1111-1249 | An outgoing message passes only with an active session, wrapped; it is refused only if there was none and the attempt to establish one failed; other events pass unchanged |
| OrchestratorTask.Task.OpenChat | src/orchestrator_task.rs:1126-1199 | Opening a chat without an active session attempts one, and a new one is followed by a ping exactly if no message of the peer was waiting |
| OrchestratorTask.EstablishedMeans | src/orchestrator_task.rs:158-158 | A contact is established since t exactly when an InitSession at t succeeded and no InitSession, termination or forgetting followed |
| OrchestratorTask.Recorded | src/orchestrator_task.rs:569-570 | The task's table agrees with the record after every mark, and lawful records stay lawful |
| Invites.SameStringIffSameSignedPart | src/invite.rs:43-92 | Two invites have the same canonical string exactly when they agree on everything their version's signature covers, whatever their usernames contain |
| Invites.SameVersion | src/invite.rs:46-91 | The canonical string determines the version |
| Invites.CanonicalIs | src/invite.rs:43-92 | The signed string of each version, field by field, and which invites have none |
| InviteCodec.EncodeThenDecode | src/invite.rs:105-253 | For every version octet, an encoded invite is accepted exactly when the time and lifetime checks admit it, and then decodes to its normal form |
| InviteCodec.DecodeThenEncode | src/invite.rs:112-148 | Re-encoding an accepted container gives back its octets exactly when the flag octet is 0 or 1, the server is non-empty and any username is non-empty and trimmed |
| InviteCodec.NoOtherCutDecodes | src/invite.rs:203-234 | No proper prefix and no proper extension of an accepted container is accepted, by any clock |
| InviteCodec.PrefixFree | src/invite.rs:120-148 | Containers are a prefix code |
| InviteCodec.Layout | src/invite.rs:120-139 | At which octets the magic, the flag, the version, the identifiers, the device, the key, the time and the signature stand |
| InviteCodec.LayoutBehind | src/invite.rs:140-148 | And behind them the server, the username if there is one, and the lifetime from version 5 on |
| InviteCodec.RawReadsBack | src/invite.rs:203-233 | Parsing what was printed gives the fields back and leaves what followed |
| InviteCodec.RawPrintsBack | src/invite.rs:203-233 | What parses is exactly the print of well-formed fields |
| InviteCodec.InviteOfRawOf | src/invite.rs:105-149 | The wire keeps the normal form: canonical identifiers, unchanged signature and key, trimmed username |
| InviteWire.DecodeBinary | src/invite.rs:203-253 | The cursor-driven decoder computes the specification's result, error for error |
| InviteWire.EncodeBinary | src/invite.rs:105-149 | The buffer-driven encoder computes the specification's result, error for error |
| InviteWire.Reader.Take | src/invite.rs:399-404 | The index never leaves the buffer, moves by n on success and stays on failure |
| InviteWire.Reader.Header | src/invite.rs:205-219 | The fixed-width fields, in layout order |
| InviteLink.MintedInviteSurvives | src/invite.rs:307-354 | Each text of a minted invite is read back as the very same invite by any receiver at most 300 seconds behind, and the signature found is the one made over the string the receiver recomputes |
| InviteLink.MintedIsNormal | src/invite.rs:307-354 | A minted invite is in normal form, and encodes exactly when clock, server name and username fit |
| InviteLink.MintNames | src/invite.rs:307-354 | Whose invite it is: the user's identifier, the fresh one-time identifier, the device in lower case, the clock, the bare server name, and the username without the white space around it, if anything is left |
| InviteLink.MintSucceeds | src/invite.rs:307-354 | Minting succeeds exactly when the lifetime, the identifiers and the key are acceptable, if signatures verify |
| InviteLink.NormalizeServerIs | src/invite.rs:356-367 | Whatever white space, schemes, port 443 and closing slashes surround a host, the server is that host |
| InviteLink.EveryFormReadsBack | src/invite.rs:155-201 | The https link, the scheme link, the bare payload and the https link followed by `&` and anything all parse to the normal form of the invite, or all are refused |
| InviteLink.PayloadSurvives | src/invite.rs:187-193 | Trimming and parameter extraction hand over exactly the encoded container |
| InviteLink.EveryFormIsOffered | src/invite.rs:165-171 | The text field recognises every one of those texts as an invite |
| InviteLink.PlainTextIsNotOffered | src/invite.rs:165-171 | A short text without `=`, `:` and `/` is not offered |
| InviteLink.LegacyFormsReadBack | src/invite.rs:173-185 | Octets that are no container are read as the older form, or refused, from any of the texts |
| InviteLink.StandardLinkReadsBack | src/invite.rs:195-201 | A link with a padded standard payload is read as the one with the base64url payload |
| GrpcFraming.EncodeFrame | src/grpc/framing.rs:14-20 | A zero flag, the low 32 bits of the length, the body; the buffer decodes to the body cut at that length, with the rest of the body as remainder |
| GrpcFraming.DecodeFrame | src/grpc/framing.rs:23-43 | The consuming decoder computes the specification, error for error |
| GrpcFraming.FrameReadsBack | src/grpc/framing.rs:14-43 | What a frame decodes to, for any body and whatever follows; it is the body and what follows exactly under 4 GiB |
| GrpcFraming.FramePrintsBack | src/grpc/framing.rs:23-43 | What decodes is exactly a frame followed by the remainder |
| GrpcFraming.CutFrame | src/grpc/framing.rs:23-43 | A frame cut short is too short or incomplete according to whether its header is there; one with the compressed flag is refused as such |
| FrameAssembly.Pump | src/grpc/stream.rs:119-175 | Whatever the chunking, the frames delivered and the leftover are the one way to cut the bytes received |
| FrameAssembly.Assembler.OnChunk | src/grpc/stream.rs:140-160 | After each chunk: delivered frames followed by the buffer are all bytes received, and the buffer holds no complete frame |
| FrameAssembly.ParseIsUnique | src/grpc/stream.rs:144-159 | A byte stream can be cut into whole frames and an incomplete rest in only one way |
| FrameAssembly.WholeFrameIs | src/grpc/stream.rs:144-159 | A whole frame is a flag octet of any value, four octets of length, and a body of that length |
| FrameAssembly.CompleteIs | src/grpc/stream.rs:144-159 | A buffer holds a complete frame exactly if some front part of it is a whole frame |
| FrameAssembly.ChunkingIsIrrelevant | src/grpc/stream.rs:140-160 | Two chunkings of the same bytes deliver the same frames and leave the same rest |
| FrameAssembly.SentIsDelivered | src/grpc/stream.rs:140-160 | A stream of encoded messages, however chunked, is delivered as exactly those messages with nothing left over |
| Knst.FrameWhole | src/knst.rs:71-83 | What is built is recognised as a frame with that content type and message id, and declares the payload, cut at the low 32 bits of its length |
| Knst.FrameReadsBack | src/knst.rs:71-106 | Every header field reads back whatever trails, and the declared payload is the payload exactly under 4 GiB |
| Knst.TrailingBytesAreIgnored | src/knst.rs:95-114 | Bytes after the declared payload do not change the text |
| Knst.ControlFramesAreSilent | src/knst.rs:95-154 | Every silent control type decodes to empty text |
| Knst.SilentTypes | src/knst.rs:137-154 | Calls, heartbeats, receipts, resets, pings and readiness are silent, and no other type is |
| Knst.PingIsSilent | src/knst.rs:58-67 | A session ping decodes to empty text |
| Knst.WhatIsShown | src/knst.rs:95-114 | Of a frame that is not silent its text is shown, or its payload as it is; of anything that is no frame, all of it |
| Knst.IsFrameIs | src/knst.rs:86-88 | A frame is at least 30 octets that start with KNST and a version octet of 1 |
| Knst.WrapPresents | src/orchestrator_task.rs:1235-1239 | A prepared plaintext is a KNST frame or led by NUL |
| Knst.WrapIsIdempotent | src/orchestrator_task.rs:1235-1239 | Preparing twice is preparing once |
| Knst.WrappedTextReadsBack | src/orchestrator_task.rs:1235-1239 | The peer decodes the text that was typed, unless its octets are themselves a frame |
| HalfBlock.Print | src/screens/qr_widget.rs:83-121 | Reading the printed glyphs back gives the code with its quiet zone, a last odd row completed with light |
| HalfBlock.PadGrid | src/screens/qr_widget.rs:86-97 | Every flat index is in range, and the padded grid is the code surrounded by two light cells |
| HalfBlock.DarkIs | src/screens/qr_widget.rs:86-97 | What must be seen is the code, two cells in from every side, and light around it |
| HalfBlock.GlyphTable | src/screens/qr_widget.rs:99-121 | The four glyphs by their code points |
| HalfBlock.RenderLines | src/screens/qr_widget.rs:99-121 | Each glyph shows its two grid cells |
| HalfBlock.HintIsExact | src/screens/qr_widget.rs:49-55 | The size hint is the printed size exactly while the side fits 16 bits |
| Base64.ReadsBack | src/invite.rs:151-153 | Decoding undoes encoding, for both alphabets |
| Base64.PrintsBack | src/invite.rs:195-201 | Only canonical texts decode, so re-encoding gives the text back |
| Base64.StandardAsUrl | src/invite.rs:195-201 | A standard text that also reads as base64url means the same octets |
| Base64.GroupIsPositional | src/invite.rs:151-153 | Three octets are the same 24 bits as four digits, high bits first |
| Base64.DigitTable | src/invite.rs:151-153 | Both alphabets, in order |
| Hex.Positions | src/invite.rs:108-109 | Each octet is two digits, the high half first |
| Hex.PrintsBack | src/invite.rs:108-109 | What decodes re-encodes to its lower case |
| Uuid.ReadsBack | src/invite.rs:376-385 | A printed identifier parses to its octets |
| Uuid.PrintsBack | src/invite.rs:376-385 | Reading and printing a hyphenated identifier only lower-cases it |
| Uuid.Groups | src/invite.rs:376-385 | The five groups of digits and the hyphens between them |
| Utf8.ReadsBack | src/invite.rs:221-224 | Strict decoding undoes encoding |
| Utf8.PrintsBack | src/invite.rs:221-224 | What decodes strictly re-encodes to the same octets |
| Utf8.CharTable | src/invite.rs:221-224 | How many octets a code point takes, their leading bits, and where its own bits go |
| Utf8.LossyIsExact | src/knst.rs:97-97 | On well-formed input replacing decoding is exact |
| Utf8.LossyKeepsText | src/knst.rs:97-97 | Well-formed text in front of anything is kept |
| Utf8.LossyReplaces | src/knst.rs:97-97 | Where no well-formed character starts, one U+FFFD stands for the longest piece that could have become one, or for one octet |
| Text.TrimIsMiddle | src/invite.rs:112-112 | Trimming takes off white space at both ends and nothing else |
| Text.TrimStripsWhite | src/invite.rs:112-112 | Whatever white space surrounds a trimmed text, trimming gives that text |
| Bytes.MostSignificantFirst | src/invite.rs:136-147 | In an integer on the wire each octet counts 256 times what the next does |

## Left out

- Cryptography (ratchet, X3DH, sealed sender, Ed25519, Argon2, AES-GCM) and everything inside `construct-core`: oracles and parameters.
- Protobuf, JSON, SQLite, HTTP/2, TLS, DNS, files, logging, the command line, terminal rendering other than the QR loops, key handling: libraries and I/O.
- Token refresh, registration and configuration: thin wrappers over calls.
- Envelope construction and the actions that only send or notify (`Action::Other` in the model): no state beyond the wire.
- Invite expiry (`effective_ttl`, `is_expired`): two comparisons that no other law needs.
- Invites.SameStringIffSameSignedPart: fields other than the username are assumed free of the separator `|`, as identifiers, host names and base64 are.
- StreamWorker.Worker.WaitBackoff: the random jitter of a delay is not modelled, and the reported attempt number is unbounded where the code's 32-bit counter saturates.
- StreamWorker.Run: the `since_cursor` of an open is modelled in `Watermark`, not in the worker.
- Watermark.SinceIsNeverAhead: logout, which clears the stored watermark, and a second writer are outside the protocol.
- Watermark.WatermarkProvenance: deleting a contact is one step, although it is three statements; a partial delete removes fewer rows, never more.
- CursorTracker.Tracker.Commit: poisoned locks are not modelled.
- OrchestratorTask.Task.Dispatch: timers are a set of identifiers; which sleeping task a cancel aborts is not modelled.
- That no message below the watermark is missing: the code does not promise it, since a later message may be stored before an earlier one.
- The order of malformed cursors, where `cursor_after` falls back to string order: the model has the fallback, no law relies on it.
