/** The reconnecting worker that owns the outgoing side of a message stream: a bounded queue, a flush
    on every reconnect, re-queueing of a failed live send, and a backoff that keeps taking commands. */
module StreamWorker {
  import opened Wrappers
  import opened Bytes

  const OUTGOING_BUFFER_CAP := 256
  const MAX_U32 := 0xFFFF_FFFF

  datatype Envelope = Envelope(messageId: string, payload: bytes)

  datatype StreamCmd =
    | Send(envelope: Envelope)
    | Subscribe(users: seq<string>, cursor: Option<string>)
    | Close
    | Shutdown

  datatype StreamEvent =
    | Connected
    | Disconnected
    | Reconnecting(attempt: nat, baseSecs: nat)
    | AuthRequired

  // ---- reading a command history ----

  /** The envelopes of the `Send` commands, in arrival order. */
  function SendsOf(cmds: seq<StreamCmd>): seq<Envelope> {
    if cmds == [] then []
    else
      var last := cmds[|cmds| - 1];
      SendsOf(cmds[..|cmds| - 1]) + if last.Send? then [last.envelope] else []
  }

  /** The users of the last `Subscribe` command. */
  function UsersAfter(initial: seq<string>, cmds: seq<StreamCmd>): seq<string> {
    if cmds == [] then initial
    else
      var last := cmds[|cmds| - 1];
      if last.Subscribe? then last.users else UsersAfter(initial, cmds[..|cmds| - 1])
  }

  lemma OneMore(initial: seq<string>, cmds: seq<StreamCmd>, n: nat)
    requires n < |cmds|
    ensures SendsOf(cmds[..n + 1]) == SendsOf(cmds[..n]) + if cmds[n].Send? then [cmds[n].envelope] else []
    ensures UsersAfter(initial, cmds[..n + 1]) == if cmds[n].Subscribe?
            then cmds[n].users else UsersAfter(initial, cmds[..n])
  {
    assert cmds[..n + 1][..n] == cmds[..n];
  }

  /** How often in a row the worker has waited since it was last connected. */
  function WaitsSinceConnected(events: seq<StreamEvent>): nat {
    if events == [] then 0
    else
      var last := events[|events| - 1];
      if last.Connected? then 0
      else WaitsSinceConnected(events[..|events| - 1]) + if last.Reconnecting? then 1 else 0
  }

  lemma OneEvent(events: seq<StreamEvent>, e: StreamEvent)
    ensures WaitsSinceConnected(events + [e]) ==
      if e.Connected? then 0 else WaitsSinceConnected(events) + if e.Reconnecting? then 1 else 0
  {
    assert (events + [e])[..|events|] == events;
  }

  /** How many waits were reported. */
  function Waits(events: seq<StreamEvent>): nat {
    if events == [] then 0
    else Waits(events[..|events| - 1]) + if events[|events| - 1].Reconnecting? then 1 else 0
  }

  lemma {:induction false} WaitsAdd(a: seq<StreamEvent>, b: seq<StreamEvent>)
    ensures Waits(a + b) == Waits(a) + Waits(b)
  {
    if b == [] {
      assert a + b == a;
    } else {
      assert (a + b)[..|a + b| - 1] == a + b[..|b| - 1];
      WaitsAdd(a, b[..|b| - 1]);
    }
  }

  /** What a session reports has one wait in it, unless it is cut short. */
  lemma SessionReports(before: seq<StreamEvent>)
    ensures Waits(before + [Connected]) == Waits(before)
    ensures Waits(before + [Connected] + [Disconnected, Reconnecting(1, 1)]) == Waits(before) + 1
  {
    var reports := [Disconnected, Reconnecting(1, 1)];
    assert reports[..1] == [Disconnected] && [Disconnected][..0] == [] && [Connected][..0] == [];
    assert [StreamEvent.Connected] + [] == [StreamEvent.Connected];
    WaitsAdd(before, [Connected]);
    WaitsAdd(before + [Connected], reports);
  }

  /** What the worker finds when it looks for something to do: a command, nothing, that every sender is gone,
      or, while live, that a heartbeat is due, a frame has come in, or the incoming side has ended. */
  datatype Poll = Command | Nothing | Gone | Tick | Frame | StreamEnded

  function Count(polled: seq<Poll>, p: Poll): nat {
    if polled == [] then 0
    else Count(polled[..|polled| - 1], p) + if polled[|polled| - 1] == p then 1 else 0
  }

  lemma NoneCounted(p: Poll)
    ensures Count([], p) == 0
  {
  }

  lemma OnePoll(polled: seq<Poll>, found: Poll, p: Poll)
    ensures Count(polled + [found], p) == Count(polled, p) + if found == p then 1 else 0
  {
    assert (polled + [found])[..|polled|] == polled;
  }

  /** The commands that end the worker. */
  predicate Ends(c: StreamCmd) {
    c.Close? || c.Shutdown?
  }

  // ---- bookkeeping ----

  /** What became of the consumed envelopes that are no longer waiting, by their position in the
      consumed sequence. */
  datatype Ledger = Ledger(handed: seq<nat>, evicted: seq<nat>, lost: seq<nat>)

  ghost predicate Increasing(ix: seq<nat>) {
    forall i, j | 0 <= i < j < |ix| :: ix[i] < ix[j]
  }

  ghost predicate Below(ix: seq<nat>, n: nat) {
    forall i | 0 <= i < |ix| :: ix[i] < n
  }

  function Pick(s: seq<Envelope>, ix: seq<nat>): (r: seq<Envelope>)
    requires Below(ix, |s|)
    ensures |r| == |ix| && forall k | 0 <= k < |ix| :: r[k] == s[ix[k]]
  {
    seq(|ix|, k requires 0 <= k < |ix| => s[ix[k]])
  }

  /** Each of 0 .. n-1 once. */
  ghost function Upto(n: nat): multiset<nat> {
    if n == 0 then multiset{} else Upto(n - 1) + multiset{n - 1}
  }

  ghost function Settled(l: Ledger): multiset<nat> {
    multiset(l.handed) + multiset(l.evicted) + multiset(l.lost)
  }

  /** `a` arises from `b` by leaving elements out. */
  ghost predicate Subsequence(a: seq<Envelope>, b: seq<Envelope>) {
    exists ix: seq<nat> :: Increasing(ix) && Below(ix, |b|) && a == Pick(b, ix)
  }

  /** The accounts of a worker balance: what waits is exactly the newest part of what was consumed, and
      every older envelope was handed over in order, or evicted, or lost in a flush, once. */
  ghost predicate Balanced(sends: seq<Envelope>, pending: seq<Envelope>, handed: seq<Envelope>, l: Ledger) {
    && |pending| <= |sends|
    && pending == sends[|sends| - |pending|..]
    && Increasing(l.handed) && Below(l.handed, |sends| - |pending|)
    && handed == Pick(sends, l.handed)
    && Settled(l) == Upto(|sends| - |pending|)
  }

  lemma EmptyBalanced()
    ensures Balanced([], [], [], Ledger([], [], []))
  {
  }

  lemma {:induction false} UptoSize(n: nat)
    ensures |Upto(n)| == n
  {
    if n > 0 {
      UptoSize(n - 1);
    }
  }

  /** Balanced accounts say what the queue promises: order is kept, and nothing is counted twice or
      goes missing unaccounted. */
  lemma BalancedMeans(sends: seq<Envelope>, pending: seq<Envelope>, handed: seq<Envelope>, l: Ledger)
    requires Balanced(sends, pending, handed, l)
    ensures Subsequence(handed + pending, sends)
    ensures |sends| == |handed| + |pending| + |l.evicted| + |l.lost|
  {
    var gone := |sends| - |pending|;
    var tail: seq<nat> := seq(|pending|, k => gone + k);
    var ix := l.handed + tail;
    assert handed + pending == Pick(sends, ix);
    assert Increasing(ix);
    UptoSize(gone);
    assert |Settled(l)| == |l.handed| + |l.evicted| + |l.lost|;
  }

  /** A consumed envelope joins the queue at the back. */
  lemma Enqueue(sends: seq<Envelope>, pending: seq<Envelope>, handed: seq<Envelope>, l: Ledger, e: Envelope)
    requires Balanced(sends, pending, handed, l)
    ensures Balanced(sends + [e], pending + [e], handed, l)
  {
    assert handed == Pick(sends + [e], l.handed);
  }

  lemma BalancedSizes(sends: seq<Envelope>, pending: seq<Envelope>, handed: seq<Envelope>, l: Ledger)
    requires Balanced(sends, pending, handed, l)
    ensures |pending| <= |sends|
  {
  }

  function At(sends: seq<Envelope>, pending: seq<Envelope>): nat
    requires |pending| <= |sends|
  {
    |sends| - |pending|
  }

  /** The oldest waiting envelope leaves the queue one of three ways. */
  lemma HandOldest(sends: seq<Envelope>, pending: seq<Envelope>, handed: seq<Envelope>, l: Ledger)
    requires Balanced(sends, pending, handed, l) && pending != []
    ensures Balanced(sends, pending[1..], handed + [pending[0]], l.(handed := l.handed + [At(sends, pending)]))
  {
    HandedInOrder(sends, pending, handed, l);
    HandedSettles(sends, pending, handed, l);
    hide Pick, Settled, Upto, Increasing, Below;
  }

  lemma HandedInOrder(sends: seq<Envelope>, pending: seq<Envelope>, handed: seq<Envelope>, l: Ledger)
    requires Balanced(sends, pending, handed, l) && pending != []
    ensures var ix := l.handed + [At(sends, pending)];
            && pending[1..] == sends[|sends| - |pending[1..]|..]
            && Increasing(ix) && Below(ix, |sends| - |pending[1..]|) && Below(ix, |sends|)
            && handed + [pending[0]] == Pick(sends, ix)
  {
  }

  lemma HandedSettles(sends: seq<Envelope>, pending: seq<Envelope>, handed: seq<Envelope>, l: Ledger)
    requires Balanced(sends, pending, handed, l) && pending != []
    ensures Settled(l.(handed := l.handed + [At(sends, pending)])) == Upto(|sends| - |pending[1..]|)
  {
  }

  lemma EvictOldest(sends: seq<Envelope>, pending: seq<Envelope>, handed: seq<Envelope>, l: Ledger)
    requires Balanced(sends, pending, handed, l) && pending != []
    ensures Balanced(sends, pending[1..], handed, l.(evicted := l.evicted + [At(sends, pending)]))
  {
  }

  lemma LoseOldest(sends: seq<Envelope>, pending: seq<Envelope>, handed: seq<Envelope>, l: Ledger)
    requires Balanced(sends, pending, handed, l) && pending != []
    ensures Balanced(sends, pending[1..], handed, l.(lost := l.lost + [At(sends, pending)]))
  {
  }

  // ---- the transport ----

  /** A message stream. The pump task may go away at any moment; from then on every send fails, because
      the only error is a closed channel. */
  class MessageStream {
    ghost var accepted: seq<Envelope>
    ghost var subscribed: seq<string>    // the users of the last subscription it took
    ghost var heartbeats: nat
    var closed: bool

    constructor (users: seq<string>)
      ensures accepted == [] && !closed && subscribed == users && heartbeats == 0
    {
      accepted, closed, subscribed, heartbeats := [], false, users, 0;
    }

    method SendEnvelope(e: Envelope) returns (ok: bool)
      modifies this
      ensures old(closed) ==> !ok
      ensures ok ==> !closed && accepted == old(accepted) + [e]
      ensures !ok ==> closed && accepted == old(accepted)
      ensures subscribed == old(subscribed) && heartbeats == old(heartbeats)
    {
      if * {
        closed := true;
      }
      if !closed {
        accepted := accepted + [e];
      }
      ok := !closed;
    }

    method SendHeartbeat() returns (ok: bool)
      modifies this
      ensures old(closed) ==> !ok
      ensures ok <==> !closed
      ensures accepted == old(accepted) && subscribed == old(subscribed)
      ensures heartbeats == old(heartbeats) + if ok then 1 else 0
    {
      if * {
        closed := true;
      }
      if !closed {
        heartbeats := heartbeats + 1;
      }
      ok := !closed;
    }

    method SendSubscribe(users: seq<string>) returns (ok: bool)
      modifies this
      ensures old(closed) ==> !ok
      ensures ok <==> !closed
      ensures accepted == old(accepted) && subscribed == if ok then users else old(subscribed)
      ensures heartbeats == old(heartbeats)
    {
      if * {
        closed := true;
      }
      if !closed {
        subscribed := users;
      }
      ok := !closed;
    }
  }

  function BackoffBaseSecs(attempt: nat): nat {
    var p := Pow2(if attempt < 6 then attempt else 6);
    if p < 60 then p else 60
  }

  function Pow2(n: nat): nat {
    if n == 0 then 1 else 2 * Pow2(n - 1)
  }

  /** Waits start at one second, double, never shrink, and stop growing at a minute. */
  lemma {:induction false} BackoffGrowsToAMinute(a: nat, b: nat)
    requires a <= b
    ensures BackoffBaseSecs(0) == 1
    ensures BackoffBaseSecs(a) <= BackoffBaseSecs(b) <= 60
    ensures a < 5 ==> BackoffBaseSecs(a + 1) == 2 * BackoffBaseSecs(a)
    ensures BackoffBaseSecs(a) == 60 <==> a >= 6
  {
    assert Pow2(2) == 4 && Pow2(4) == 16 && Pow2(6) == 64;
  }

  // ---- the worker ----

  /** The worker sees a fixed but arbitrary sequence of commands; when each arrives, which opens and
      sends fail, and when timers fire is up to the environment. */
  class Worker {
    const initialUsers: seq<string>
    const commands: seq<StreamCmd>
    var taken: nat
    var pending: seq<Envelope>
    var subscribedUsers: seq<string>
    var attempt: nat
    var events: seq<StreamEvent>
    var opens: seq<(seq<string>, nat)>   // users subscribed at each successful open, and commands taken by then
    ghost var handed: seq<Envelope>
    ghost var ledger: Ledger
    ghost var polled: seq<Poll>
    ghost var tries: nat                 // how often an open was tried
    ghost var successes: nat             // and how often it succeeded
    ghost var liveReads: seq<nat>        // how many envelopes waited at each command read while live

    constructor (initialUsers: seq<string>, commands: seq<StreamCmd>)
      ensures Valid() && this.commands == commands && this.initialUsers == initialUsers
      ensures taken == 0 && handed == [] && opens == [] && events == [] && Underway() && tries == successes == 0
    {
      hide Balanced;
      this.initialUsers, this.commands := initialUsers, commands;
      taken, pending, subscribedUsers, attempt, events, opens := 0, [], initialUsers, 0, [], [];
      handed, ledger, liveReads, polled, tries, successes := [], Ledger([], [], []), [], [], 0, 0;
      EmptyBalanced();
      new;
      assert commands[..0] == [];
    }

    ghost function Consumed(): seq<Envelope>
      requires taken <= |commands|
      reads this
    {
      SendsOf(commands[..taken])
    }

    /** Everything the worker keeps at every step. */
    ghost predicate Valid()
      reads this
    {
      && taken <= |commands|
      && |pending| <= OUTGOING_BUFFER_CAP
      && Balanced(Consumed(), pending, handed, ledger)
      && EvictedLate()
      && Routine()
    }

    /** An envelope is evicted only when as many newer ones as the queue holds were taken after it. */
    ghost predicate EvictedLate()
      requires taken <= |commands|
      reads this
    {
      forall k | 0 <= k < |ledger.evicted| :: ledger.evicted[k] + 256 < |Consumed()|
    }

    /** The part that does not concern the queue. */
    ghost predicate Routine()
      reads this
    {
      && taken <= |commands|
      && subscribedUsers == UsersAfter(initialUsers, commands[..taken])
      && attempt == (if WaitsSinceConnected(events) < MAX_U32 then WaitsSinceConnected(events) else MAX_U32)
      && |ledger.lost| <= |opens|
      && (forall k | 0 <= k < |liveReads| :: liveReads[k] == 0)
      && forall k | 0 <= k < |opens| ::
           opens[k].1 <= taken && opens[k].0 == UsersAfter(initialUsers, commands[..opens[k].1])
    }

    /** Exactly the commands that were found have been taken, none of them ends the worker, and somebody can
        still send one. */
    ghost predicate Underway()
      reads this`taken, this`polled
    {
      && taken == Count(polled, Command) <= |commands| && Gone !in polled
      && forall k | 0 <= k < taken :: !commands[k].Close? && !commands[k].Shutdown?
    }

    /** The reasons to exit: the command found last was the first that ends the worker, or it was found that
        every sender is gone. */
    ghost predicate Over()
      reads this`taken, this`polled
    {
      && taken == Count(polled, Command) <= |commands|
      && (forall k | 0 <= k < taken - 1 :: !commands[k].Close? && !commands[k].Shutdown?)
      && polled != [] && Gone !in polled[..|polled| - 1]
      && (polled[|polled| - 1].Gone?
          || (polled[|polled| - 1].Command? && taken > 0
              && (commands[taken - 1].Close? || commands[taken - 1].Shutdown?)))
    }

    ghost predicate Continues(exit: bool)
      reads this`taken, this`polled
    {
      if exit then Over() else Underway()
    }

    /** Look for something to do. */
    method Look(live: bool) returns (found: Poll)
      requires Valid()
      modifies this`polled
      ensures Valid() && polled == old(polled) + [found]
      ensures Count(polled, Command) == Count(old(polled), Command) + if found.Command? then 1 else 0
      ensures found.Command? ==> taken < |commands|
      ensures found.Gone? ==> taken == |commands|
      ensures !live ==> found.Command? || found.Nothing? || found.Gone?
    {
      hide Balanced, WaitsSinceConnected, SendsOf, UsersAfter;
      if {
        case true => found := Nothing;
        case taken < |commands| => found := Command;
        case taken == |commands| => found := Gone;
        case live => found := Tick;
        case live => found := Frame;
        case live => found := StreamEnded;
      }
      OnePoll(polled, found, Command);
      polled := polled + [found];
    }

    /** The next command, if it is not a `Send`: its effect, and whether the worker should exit. */
    method TakeOther() returns (exit: bool)
      requires Valid() && taken < |commands| && !commands[taken].Send?
      modifies this`taken, this`subscribedUsers
      ensures Valid() && taken == old(taken) + 1
      ensures exit <==> commands[old(taken)].Close? || commands[old(taken)].Shutdown?
      ensures subscribedUsers == if commands[old(taken)].Subscribe?
              then commands[old(taken)].users else old(subscribedUsers)
    {
      hide Balanced, WaitsSinceConnected, SendsOf, UsersAfter;
      OneMore(initialUsers, commands, taken);
      var c := commands[taken];
      assert Consumed() + [] == Consumed();
      taken := taken + 1;
      if c.Subscribe? {
        subscribedUsers := c.users;
      }
      exit := Ends(c);
    }

    /** Queue the envelope of the next command; when the queue is full the oldest one goes. */
    method PushPending()
      requires Valid() && taken < |commands| && commands[taken].Send?
      modifies this`taken, this`pending, this`ledger
      ensures Valid() && taken == old(taken) + 1
      ensures pending == (if |old(pending)| < 256 then old(pending) else old(pending)[1..])
              + [commands[old(taken)].envelope]
      ensures ledger.handed == old(ledger).handed && ledger.lost == old(ledger).lost
      ensures |ledger.evicted| == |old(ledger).evicted| + if |old(pending)| < 256 then 0 else 1
      ensures |old(pending)| < 256 ==> ledger == old(ledger)
    {
      hide Balanced, WaitsSinceConnected, SendsOf, UsersAfter;
      OneMore(initialUsers, commands, taken);
      BalancedSizes(Consumed(), pending, handed, ledger);
      var e := commands[taken].envelope;
      if |pending| >= OUTGOING_BUFFER_CAP {
        EvictOldest(Consumed(), pending, handed, ledger);
        ledger := ledger.(evicted := ledger.evicted + [At(Consumed(), pending)]);
        pending := pending[1..];
      }
      Enqueue(Consumed(), pending, handed, ledger, e);
      pending := pending + [e];
      taken := taken + 1;
    }

    /** The effect of a command taken while not live: an envelope is queued, dropping the oldest of a full
        queue, and a subscription replaces the users. */
    ghost predicate Took(before: seq<Envelope>, users: seq<string>, c: StreamCmd)
      reads this
    {
      && pending == (if !c.Send? then before else (if |before| < 256 then before else before[1..]) + [c.envelope])
      && subscribedUsers == if c.Subscribe? then c.users else users
    }

    /** Take the next command while not live. */
    method TakeQueued() returns (exit: bool)
      requires Valid() && taken < |commands|
      modifies this`taken, this`pending, this`ledger, this`subscribedUsers
      ensures Valid() && taken == old(taken) + 1
      ensures ledger.lost == old(ledger).lost && Took(old(pending), old(subscribedUsers), commands[old(taken)])
      ensures exit <==> commands[old(taken)].Close? || commands[old(taken)].Shutdown?
    {
      hide Valid;
      if commands[taken].Send? {
        PushPending();
        exit := false;
      } else {
        exit := TakeOther();
      }
    }

    /** Report and count a wait, then sleep until the timer or the next command, whichever is first. */
    method WaitBackoff() returns (exit: bool)
      requires Valid() && Underway()
      modifies this`taken, this`pending, this`ledger, this`subscribedUsers, this`attempt, this`events, this`polled
      ensures Valid() && Continues(exit) && |polled| == |old(polled)| + 1
      ensures old(taken) <= taken <= old(taken) + 1
      ensures ledger.lost == old(ledger).lost
      ensures if taken == old(taken)
              then pending == old(pending) && ledger == old(ledger) && subscribedUsers == old(subscribedUsers)
              else Took(old(pending), old(subscribedUsers), commands[old(taken)])
      ensures attempt == if old(attempt) < 0xFFFF_FFFF then old(attempt) + 1 else old(attempt)
      ensures events == old(events) + [Reconnecting(old(attempt) + 1, BackoffBaseSecs(old(attempt)))]
    {
      hide Balanced, SendsOf, UsersAfter, BackoffBaseSecs, WaitsSinceConnected, Count;
      OneEvent(events, Reconnecting(attempt + 1, BackoffBaseSecs(attempt)));
      events := events + [Reconnecting(attempt + 1, BackoffBaseSecs(attempt))];
      attempt := if attempt < MAX_U32 then attempt + 1 else attempt;
      exit := false;
      hide Valid;
      var found := Look(false);
      match found {
        case Command => exit := TakeQueued();
        case Gone => exit := true;
        case _ =>
      }
    }

    /** The oldest waiting envelope goes to the stream; on failure it is lost. */
    method FlushOne(stream: MessageStream) returns (ok: bool)
      requires Valid() && pending != [] && |ledger.lost| < |opens|
      modifies this`pending, this`handed, this`ledger, stream
      ensures Valid() && pending == old(pending)[1..]
      ensures ok ==> !stream.closed && stream.accepted == old(stream.accepted) + [old(pending)[0]]
      ensures ok ==> handed == old(handed) + [old(pending)[0]] && |ledger.lost| == old(|ledger.lost|)
      ensures !ok ==> stream.closed && stream.accepted == old(stream.accepted)
      ensures !ok ==> handed == old(handed) && |ledger.lost| == old(|ledger.lost|) + 1
      ensures ledger.evicted == old(ledger).evicted && stream.subscribed == old(stream.subscribed)
      ensures stream.heartbeats == old(stream.heartbeats)
    {
      hide Balanced, WaitsSinceConnected, SendsOf, UsersAfter;
      ghost var sends := Consumed();
      BalancedSizes(sends, pending, handed, ledger);
      HandOldest(sends, pending, handed, ledger);
      LoseOldest(sends, pending, handed, ledger);
      ghost var at := At(sends, pending);
      var envelope := pending[0];
      pending := pending[1..];
      ok := stream.SendEnvelope(envelope);
      if ok {
        handed := handed + [envelope];
        ledger := ledger.(handed := ledger.handed + [at]);
      } else {
        ledger := ledger.(lost := ledger.lost + [at]);
      }
    }

    /** Send what waits, oldest first, up to the first failure: a prefix of the queue goes out, the one
        after it may be lost, the rest stays. */
    method Flush(stream: MessageStream)
      requires Valid() && |ledger.lost| < |opens|
      requires stream.accepted == [] && !stream.closed
      modifies this`pending, this`handed, this`ledger, stream
      ensures Valid()
      ensures handed == old(handed) + stream.accepted
      ensures pending == [] || stream.closed
      ensures |pending| <= |old(pending)| && pending == old(pending)[|old(pending)| - |pending|..]
      ensures stream.accepted <= old(pending)
      ensures |old(pending)| == |stream.accepted| + |pending| + (|ledger.lost| - old(|ledger.lost|))
      ensures old(|ledger.lost|) <= |ledger.lost| <= old(|ledger.lost|) + 1 && ledger.evicted == old(ledger).evicted
      ensures stream.subscribed == old(stream.subscribed) && stream.heartbeats == old(stream.heartbeats)
    {
      hide Valid;
      while pending != []
        invariant Valid() && |ledger.lost| == old(|ledger.lost|)
        invariant !stream.closed
        invariant handed == old(handed) + stream.accepted
        invariant stream.accepted + pending == old(pending)
        invariant ledger.evicted == old(ledger).evicted && stream.subscribed == old(stream.subscribed)
        invariant stream.heartbeats == old(stream.heartbeats)
        decreases |pending|
      {
        ghost var before, sent := pending, stream.accepted;
        var ok := FlushOne(stream);
        assert sent + before == sent + [before[0]] + before[1..];
        if !ok {
          break;
        }
      }
    }

    /** A `Send` taken while live, when nothing is waiting. A failed send is put back in the queue, which
        keeps its place because the queue is empty. */
    method LiveSend(stream: MessageStream) returns (live: bool)
      requires Valid() && pending == []
      requires taken < |commands| && commands[taken].Send?
      modifies this`taken, this`pending, this`handed, this`ledger, stream
      ensures Valid() && taken == old(taken) + 1
      ensures live ==> !stream.closed && pending == [] && handed == old(handed) + [commands[old(taken)].envelope]
      ensures live ==> stream.accepted == old(stream.accepted) + [commands[old(taken)].envelope]
      ensures !live ==> stream.closed && pending == [commands[old(taken)].envelope] && handed == old(handed)
      ensures !live ==> stream.accepted == old(stream.accepted)
      ensures ledger.lost == old(ledger).lost && ledger.evicted == old(ledger).evicted
      ensures stream.subscribed == old(stream.subscribed) && (old(stream.closed) ==> !live)
      ensures stream.heartbeats == old(stream.heartbeats)
    {
      hide Balanced, WaitsSinceConnected, SendsOf, UsersAfter;
      var e := commands[taken].envelope;
      live := stream.SendEnvelope(e);
      if live {
        OneMore(initialUsers, commands, taken);
        Enqueue(Consumed(), pending, handed, ledger, e);
        assert pending + [e] == [e] && [e][1..] == [];
        HandOldest(Consumed() + [e], [e], handed, ledger);
        ledger := ledger.(handed := ledger.handed + [At(Consumed() + [e], [e])]);
        taken := taken + 1;
        handed := handed + [e];
      } else {
        PushPending();
      }
    }

    /** A command read while live, with nothing waiting: an envelope is sent, a subscription passed on; the
        others end the worker. */
    method LiveCommand(stream: MessageStream) returns (live: bool, exit: bool)
      requires Valid() && pending == [] && taken < |commands|
      requires stream.closed || stream.subscribed == subscribedUsers
      modifies this`taken, this`pending, this`handed, this`ledger, this`subscribedUsers, this`liveReads, stream
      ensures Valid() && taken == old(taken) + 1 && liveReads == old(liveReads) + [0]
      ensures exit <==> commands[old(taken)].Close? || commands[old(taken)].Shutdown?
      ensures (live ==> !exit) && (live || exit ==> pending == [])
      ensures stream.closed || stream.subscribed == subscribedUsers
      ensures !live && !exit ==> stream.closed
      ensures old(stream.accepted) <= stream.accepted
              && handed == old(handed) + stream.accepted[|old(stream.accepted)|..]
      ensures stream.heartbeats == old(stream.heartbeats) && (old(stream.closed) ==> stream.closed)
      ensures ledger.lost == old(ledger).lost && ledger.evicted == old(ledger).evicted
    {
      hide Valid;
      exit := false;
      NoteRead();
      if commands[taken].Send? {
        live := LiveSend(stream);
      } else {
        exit := TakeOther();
        live := !exit;
        if live {
          live := stream.SendSubscribe(subscribedUsers);
        }
      }
    }

    /** One turn of the live loop: whatever is found first is dealt with. */
    method LiveTurn(stream: MessageStream) returns (live: bool, exit: bool)
      requires Valid() && Underway() && pending == []
      requires stream.closed || stream.subscribed == subscribedUsers
      modifies this`taken, this`pending, this`handed, this`ledger, this`subscribedUsers, this`liveReads, this`polled,
          stream
      ensures Valid() && Continues(exit) && (live ==> !exit) && |polled| == |old(polled)| + 1 && old(polled) <= polled
      ensures old(taken) <= taken && old(liveReads) <= liveReads && |liveReads| - |old(liveReads)| == taken - old(taken)
      ensures live || exit ==> pending == []
      ensures stream.closed || stream.subscribed == subscribedUsers
      ensures old(stream.accepted) <= stream.accepted
              && handed == old(handed) + stream.accepted[|old(stream.accepted)|..]
      ensures old(stream.closed) ==> stream.closed
      ensures var found := polled[|polled| - 1];
              && (stream.closed || stream.heartbeats == old(stream.heartbeats) + if found.Tick? then 1 else 0)
              && (found.StreamEnded? ==> !live && !exit)
              && (!live && !exit ==> stream.closed || found.StreamEnded?)
      ensures ledger.lost == old(ledger).lost && ledger.evicted == old(ledger).evicted
    {
      hide Valid, Count;
      live, exit := true, false;
      var found := Look(true);
      match found {
        case Nothing =>
        case Frame =>
        case Tick => live := stream.SendHeartbeat();
        case Command => live, exit := LiveCommand(stream);
        case Gone => live, exit := false, true;
        case StreamEnded => live := false;
      }
    }

    /** The live loop, for at most `steps` turns of the scheduler. It reads commands only while nothing is
        waiting: that is what makes re-queueing at the back keep the order. It loses and evicts nothing, sends
        a heartbeat at once and whenever one is due, passes new subscriptions on, and goes on until a send
        fails or the incoming side ends. */
    method Live(stream: MessageStream, steps: nat) returns (exit: bool, left: nat)
      requires Valid() && Underway()
      requires pending == [] || stream.closed
      requires stream.subscribed == subscribedUsers && stream.heartbeats == 0
      modifies this`taken, this`pending, this`handed, this`ledger, this`subscribedUsers, this`liveReads, this`polled,
          stream
      ensures Valid() && Continues(exit) && old(taken) <= taken && left <= steps
      ensures old(stream.accepted) <= stream.accepted
      ensures handed == old(handed) + stream.accepted[|old(stream.accepted)|..]
      ensures ledger.lost == old(ledger).lost && ledger.evicted == old(ledger).evicted
      ensures exit ==> pending == []
      ensures stream.closed || stream.subscribed == subscribedUsers
      ensures old(liveReads) <= liveReads && |liveReads| - |old(liveReads)| == taken - old(taken)
      ensures old(polled) <= polled
      ensures stream.closed || stream.heartbeats == 1 + Count(polled[|old(polled)|..], Tick)
      ensures forall k | |old(polled)| <= k < |polled| - 1 :: !polled[k].StreamEnded?
      ensures left > 0 && !exit ==> stream.closed || (|polled| > |old(polled)| && polled[|polled| - 1].StreamEnded?)
    {
      hide Valid, Underway, Over, Count;
      left, exit := steps, false;
      ghost var extra: seq<Envelope> := [];
      ghost var looks: seq<Poll> := [];
      var live := stream.SendHeartbeat();
      NoneCounted(Tick);
      while live && left > 0
        invariant Valid() && Underway() && old(taken) <= taken && left <= steps
        invariant live ==> pending == []
        invariant stream.closed || stream.subscribed == subscribedUsers
        invariant stream.accepted == old(stream.accepted) + extra
        invariant handed == old(handed) + extra
        invariant ledger.lost == old(ledger).lost && ledger.evicted == old(ledger).evicted
        invariant old(liveReads) <= liveReads && |liveReads| - |old(liveReads)| == taken - old(taken)
        invariant polled == old(polled) + looks
        invariant stream.closed || stream.heartbeats == 1 + Count(looks, Tick)
        invariant forall k | |old(polled)| <= k < |polled| :: polled[k].StreamEnded? ==> !live && k == |polled| - 1
        invariant !live ==> stream.closed || (|polled| > |old(polled)| && polled[|polled| - 1].StreamEnded?)
        decreases left
      {
        left := left - 1;
        ghost var accepted := stream.accepted;
        live, exit := LiveTurn(stream);
        extra := extra + stream.accepted[|accepted|..];
        ghost var found := polled[|polled| - 1];
        OnePoll(looks, found, Tick);
        looks := looks + [found];
        assert polled[|old(polled)|..] == looks;
        if exit {
          return;
        }
      }
    }

    /** Record how much waits when a command is read while live: nothing. */
    method NoteRead()
      requires Valid() && pending == []
      modifies this`liveReads
      ensures Valid() && liveReads == old(liveReads) + [|pending|]
    {
      hide Balanced, SendsOf, UsersAfter, WaitsSinceConnected;
      liveReads := liveReads + [|pending|];
    }

    /** The worker, for at most `steps` turns of the scheduler: what it keeps, it keeps at every moment of
        every run. It exits only when told to, or when nobody can tell it anything any more, and every open
        that failed and every stream that ended is followed by one wait. */
    method RunWorker(steps: nat) returns (exit: bool)
      requires Valid() && Underway()
      modifies this
      ensures Valid() && Continues(exit)
      ensures old(taken) <= taken && old(handed) <= handed && old(events) <= events && old(opens) <= opens
      ensures var waits, tried := Waits(events) - Waits(old(events)), tries - old(tries);
              tried == waits || (exit && tried == waits + 1)
      ensures |opens| - |old(opens)| == successes - old(successes)
      ensures !exit ==> tries - old(tries) > 0 || steps == 0
    {
      hide Valid, Waits, Count;
      var left := steps;
      exit := false;
      while left > 0
        invariant Valid() && Underway()
        invariant old(taken) <= taken && old(handed) <= handed && old(events) <= events && old(opens) <= opens
        invariant tries - old(tries) == Waits(events) - Waits(old(events))
        invariant |opens| - |old(opens)| == successes - old(successes)
        invariant tries > old(tries) || (left == steps && tries == old(tries))
        decreases left
      {
        left := left - 1;
        var found := Look(false);
        match found {
          case Command =>
            exit := TakeQueued();
            if exit {
              return;
            }
          case Gone =>
            exit := true;
            return;
          case _ =>
        }
        var succeeded := TryOpen();
        if succeeded {
          ghost var cut;
          exit, left, cut := Session(left);
        } else {
          exit := FailedOpen();
        }
        if exit {
          return;
        }
      }
    }

    /** Try to open a stream. */
    method TryOpen() returns (ok: bool)
      requires Valid()
      modifies this`tries, this`successes
      ensures Valid() && tries == old(tries) + 1 && successes == old(successes) + if ok then 1 else 0
    {
      hide Balanced, SendsOf, UsersAfter, WaitsSinceConnected;
      tries := tries + 1;
      ok := *;
      successes := successes + if ok then 1 else 0;
    }

    /** The stream did not open, perhaps because the token was refused: that is reported, then the worker
        waits. */
    method FailedOpen() returns (exit: bool)
      requires Valid() && Underway()
      modifies this
      ensures Valid() && Continues(exit) && old(taken) <= taken <= old(taken) + 1
      ensures handed == old(handed) && opens == old(opens) && tries == old(tries) && successes == old(successes)
      ensures old(events) <= events && Waits(events) == Waits(old(events)) + 1
      ensures exists refused: seq<StreamEvent> | refused in {[], [AuthRequired]} ::
                events == old(events) + refused + [Reconnecting(old(attempt) + 1, BackoffBaseSecs(old(attempt)))]
    {
      hide Valid, BackoffBaseSecs, Count;
      ghost var refused: seq<StreamEvent> := [];
      if * {
        refused := [AuthRequired];
        Announce(AuthRequired);
      }
      assert events == old(events) + refused;
      exit := WaitBackoff();
      ghost var wait := [Reconnecting(old(attempt) + 1, BackoffBaseSecs(old(attempt)))];
      assert events == old(events) + (refused + wait);
      WaitsAdd(old(events), refused + wait);
      assert Waits(refused + wait) == 1 by {
        WaitsAdd(refused, wait);
      }
    }

    /** The stream opened: flush, announce, live until it fails, announce, wait for the first delay. */
    method Session(steps: nat) returns (exit: bool, left: nat, ghost cutShort: bool)
      requires Valid() && Underway()
      modifies this
      ensures Valid() && Continues(exit) && left <= steps
      ensures old(taken) <= taken && old(handed) <= handed && tries == old(tries) && successes == old(successes)
      ensures opens == old(opens) + [(old(subscribedUsers), old(taken))]
      ensures |ledger.lost| <= |old(ledger).lost| + 1
      ensures events == old(events) + [Connected] + if cutShort then [] else [Disconnected, Reconnecting(1, 1)]
      ensures old(events) <= events && Waits(events) == Waits(old(events)) + if cutShort then 0 else 1
      ensures cutShort ==> exit && pending == []
    {
      hide Valid, Underway, Over, BackoffBaseSecs, Count, Waits;
      BackoffGrowsToAMinute(0, 0);
      var stream := new MessageStream(subscribedUsers);
      Opened();
      Flush(stream);
      Announce(Connected);
      exit, left := Live(stream, steps);
      cutShort := exit;
      if exit {
        SessionReports(old(events));
        return;
      }
      Announce(Disconnected);
      exit := WaitBackoff();
      SessionReports(old(events));
    }

    method Opened()
      requires Valid()
      modifies this`opens
      ensures Valid() && opens == old(opens) + [(subscribedUsers, taken)] && |ledger.lost| < |opens|
    {
      hide Balanced, SendsOf, UsersAfter, WaitsSinceConnected;
      opens := opens + [(subscribedUsers, taken)];
    }

    method Announce(e: StreamEvent)
      requires Valid() && !e.Reconnecting?
      modifies this`events, this`attempt
      ensures Valid() && events == old(events) + [e]
      ensures attempt == if e.Connected? then 0 else old(attempt)
    {
      hide Balanced, SendsOf, UsersAfter, WaitsSinceConnected;
      OneEvent(events, e);
      if e.Connected? {
        attempt := 0;
      }
      events := events + [e];
    }
  }

  /** Every run, stopped at any moment: what was handed to the successive streams, followed by what still
      waits, is a subsequence of the `Send` commands taken; each of those is handed over, waiting,
      evicted or lost; one is evicted only when 256 newer ones have been taken; at most one is lost per stream
      that opened; the queue is within its bound; every command found was taken, and every try to open was
      followed by one wait, unless the run ended before it; every stream subscribed to the users named last;
      nothing waited whenever a live stream read a
      command; and nothing is taken after a command to end. */
  method Run(initialUsers: seq<string>, commands: seq<StreamCmd>, steps: nat) returns (w: Worker)
    ensures fresh(w) && w.taken <= |commands|
    ensures Subsequence(w.handed + w.pending, SendsOf(commands[..w.taken]))
    ensures |SendsOf(commands[..w.taken])| == |w.handed| + |w.pending| + |w.ledger.evicted| + |w.ledger.lost|
    ensures |w.ledger.lost| <= |w.opens| && |w.pending| <= 256
    ensures forall k | 0 <= k < |w.ledger.evicted| :: w.ledger.evicted[k] + 256 < |SendsOf(commands[..w.taken])|
    ensures w.pending == SendsOf(commands[..w.taken])[|SendsOf(commands[..w.taken])| - |w.pending|..]
    ensures forall k | 0 <= k < |w.liveReads| :: w.liveReads[k] == 0
    ensures forall k | 0 <= k < w.taken - 1 :: !commands[k].Close? && !commands[k].Shutdown?
    ensures w.taken == Count(w.polled, Command) && |w.opens| == w.successes
    ensures Waits(w.events) <= w.tries <= Waits(w.events) + 1
    ensures forall k | 0 <= k < |w.opens| ::
            w.opens[k].1 <= w.taken && w.opens[k].0 == UsersAfter(initialUsers, commands[..w.opens[k].1])
  {
    w := new Worker(initialUsers, commands);
    var _ := w.RunWorker(steps);
    BalancedMeans(w.Consumed(), w.pending, w.handed, w.ledger);
  }
}
