/** The durable phone-to-gateway queue (adapter.py): a reader that decrypts ahead of a
    serial dispatch worker, a cursor that survives restarts, and the supervisor that
    reconnects. `Gateway` is the adapter's state as a value and the functions on it say
    what each uninterrupted stretch of code does; `Adapter` is the object that does it. */
module InboundQueue {
  import opened Wrappers
  import opened Crypto

  const REPLAY_GRACE_MS: int := 30000

  /** A decrypted frame waiting for dispatch; `number` is the relay's `seq`, if any. */
  datatype Item = Item(number: Option<int>, payload: Payload)

  /** Stopped: a dispatch raised, and the worker returned. */
  datatype Worker = Waiting | Busy(item: Item) | Stopped

  /** Closing: the socket is gone and the sentinel is queued, but the worker still drains. */
  datatype Phase = Offline | Online | Closing

  datatype Gateway = Gateway(
    phase: Phase,
    cursor: int,        // in memory
    disk: int,          // what a restart would read back
    seen: int,          // highest number read on this connection
    backlogOpen: bool,
    connectedAt: int,
    nonces: seq<Nonce>,
    queue: seq<Item>,
    worker: Worker)

  /** What the reader did with one wire frame. */
  datatype Verdict = Skipped | Rejected | Detached | Queued

  /** How the cursor file looks after one write attempt: opening it for writing
      truncates it, and an empty file reads back as 0. */
  datatype WriteOutcome = Written | Untouched | Truncated

  // ---------------------------------------------------------------- the reader

  function WindowOpen(g: Gateway, now: int): bool {
    g.backlogOpen && now - g.connectedAt < REPLAY_GRACE_MS
  }

  predicate AlreadySeen(g: Gateway, number: Option<int>) {
    number.Some? && number.value <= g.seen
  }

  function OpeningOf(g: Gateway, number: Option<int>, frame: Frame, now: int): Opening {
    Opening(frame, now, number.Some? && WindowOpen(g, now))
  }

  function ReadVerdict(g: Gateway, number: Option<int>, frame: Frame, now: int): Verdict {
    if AlreadySeen(g, number) then Skipped
    else if !Accepts(g.nonces, OpeningOf(g, number, frame, now)) then Rejected
    else if frame.payload.role.RpcRequest? then Detached
    else Queued
  }

  function Read(g: Gateway, number: Option<int>, frame: Frame, now: int): Gateway {
    var verdict := ReadVerdict(g, number, frame, now);
    if verdict.Skipped? then g
    else
      var noted := if number.Some? then g.(seen := number.value, backlogOpen := WindowOpen(g, now)) else g;
      if verdict.Rejected? then noted
      else
        var remembered := noted.(nonces := Newest(g.nonces + [frame.nonce]));
        if verdict.Detached? then remembered
        else remembered.(queue := g.queue + [Item(number, frame.payload)])
  }

  // ---------------------------------------------------------------- the worker

  function Take(g: Gateway): Gateway
    requires g.queue != []
  {
    g.(worker := Busy(g.queue[0]), queue := g.queue[1..])
  }

  function DiskAfter(disk: int, number: int, w: WriteOutcome): int {
    match w
    case Written => number
    case Untouched => disk
    case Truncated => 0
  }

  function Done(g: Gateway, w: WriteOutcome): Gateway
    requires g.worker.Busy?
  {
    var number := g.worker.item.number;
    if number.None? then g.(worker := Waiting)
    else g.(worker := Waiting, cursor := number.value, disk := DiskAfter(g.disk, number.value, w))
  }

  function Fail(g: Gateway): Gateway {
    g.(worker := Stopped)
  }

  // ------------------------------------------------------------ the supervisor

  function Connect(g: Gateway, now: int): Gateway {
    g.(phase := Online, backlogOpen := true, connectedAt := now, queue := [], worker := Waiting)
  }

  predicate Drained(g: Gateway) {
    g.worker.Stopped? || (g.worker.Waiting? && g.queue == [])
  }

  /** The receive loop is over: its queue and worker go with it. */
  function LeaveLoop(g: Gateway): Gateway {
    g.(phase := Offline, seen := 0, queue := [], worker := Waiting)
  }

  /** A new process: only the cursor file survives. */
  function Restart(g: Gateway): Gateway {
    Gateway(Offline, g.disk, g.disk, 0, false, 0, [], [], Waiting)
  }

  // ------------------------------------------------- the adapter as an object

  /** How one dispatch ended. */
  datatype Dispatch = Handled(write: WriteOutcome) | Raised

  /** Draining a queue after the socket closed, one outcome per item: the worker stops
      at the first dispatch that raises and otherwise empties the queue. */
  function Drain(g: Gateway, outcomes: seq<Dispatch>): Gateway
    requires g.worker.Waiting? && |outcomes| >= |g.queue|
    decreases |g.queue|
  {
    if g.queue == [] then g
    else
      match outcomes[0]
      case Raised => Fail(Take(g))
      case Handled(w) => Drain(Done(Take(g), w), outcomes[1..])
  }

  class Adapter {
    const cache: NonceCache
    var phase: Phase
    var inboundCursor: int
    var inboundCursorFile: int
    var inboundSeenSeq: int
    var backlogOpen: bool
    var wsConnectedAt: int
    var queue: seq<Item>
    var worker: Worker

    ghost function View(): Gateway
      reads this, cache
    {
      Gateway(phase, inboundCursor, inboundCursorFile, inboundSeenSeq, backlogOpen,
              wsConnectedAt, cache.nonces, queue, worker)
    }

    ghost predicate Valid()
      reads this, cache
    {
      cache.Valid()
    }

    constructor (cursorFile: int)
      ensures Valid() && fresh(cache)
      ensures View() == Gateway(Offline, cursorFile, cursorFile, 0, false, 0, [], [], Waiting)
    {
      cache := new NonceCache();
      phase, inboundCursor, inboundCursorFile, inboundSeenSeq := Offline, cursorFile, cursorFile, 0;
      backlogOpen, wsConnectedAt, queue, worker := false, 0, [], Waiting;
    }

    /** Returns the `since` sent to the relay, or None when the connect fails. */
    method ConnectWs(reachable: bool, now: int) returns (since: Option<int>)
      requires Valid() && phase.Offline?
      modifies this
      ensures Valid()
      ensures since == if reachable then Some(old(inboundCursor)) else None
      ensures View() == if reachable then Connect(old(View()), now) else old(View())
    {
      if !reachable {
        return None;
      }
      phase := Online;
      backlogOpen := true;
      wsConnectedAt := now;
      queue, worker := [], Waiting;
      return Some(inboundCursor);
    }

    method ReplayWindowOpen(now: int) returns (open: bool)
      modifies this`backlogOpen
      ensures open == backlogOpen == WindowOpen(old(View()), now)
    {
      if !backlogOpen {
        return false;
      }
      if now - wsConnectedAt >= REPLAY_GRACE_MS {
        backlogOpen := false;
        return false;
      }
      return true;
    }

    /** A number at or below the mark is skipped and changes nothing. Any other number moves the
        mark and looks at the window, whatever becomes of the frame. A frame that opens is
        remembered: an RPC, numbered or not, is detached and leaves the queue alone, and
        everything else joins the queue as it came. */
    method ReadFrame(number: Option<int>, frame: Frame, now: int) returns (verdict: Verdict)
      requires Valid() && phase.Online?
      modifies this, cache
      ensures Valid()
      ensures verdict == ReadVerdict(old(View()), number, frame, now)
      ensures View() == Read(old(View()), number, frame, now)
      ensures verdict.Skipped? <==> number.Some? && number.value <= old(inboundSeenSeq)
      ensures verdict.Skipped? ==> View() == old(View())
      ensures !verdict.Skipped? && number.Some? ==>
                inboundSeenSeq == number.value && backlogOpen == (old(backlogOpen) && now - wsConnectedAt < REPLAY_GRACE_MS)
      ensures number.None? ==> inboundSeenSeq == old(inboundSeenSeq) && backlogOpen == old(backlogOpen)
      ensures !verdict.Skipped? ==>
                (verdict.Rejected? <==>
                   !Accepts(old(cache.nonces), Opening(frame, now, number.Some? && backlogOpen)))
      ensures verdict.Rejected? ==> cache.nonces == old(cache.nonces) && queue == old(queue)
      ensures verdict.Detached? || verdict.Queued? ==>
                && cache.nonces == Newest(old(cache.nonces) + [frame.nonce])
                && (verdict.Detached? <==> frame.payload.role.RpcRequest?)
                && queue == if frame.payload.role.RpcRequest? then old(queue) else old(queue) + [Item(number, frame.payload)]
      ensures phase == old(phase) && worker == old(worker) && wsConnectedAt == old(wsConnectedAt)
      ensures inboundCursor == old(inboundCursor) && inboundCursorFile == old(inboundCursorFile)
    {
      var allowStale := false;
      if number.Some? {
        if number.value <= inboundSeenSeq {
          return Skipped;
        }
        inboundSeenSeq := number.value;
        allowStale := ReplayWindowOpen(now);
      }
      ghost var before := cache.history;
      var payload := cache.OpenFrame(frame, now, allowStale);
      if payload.None? {
        return Rejected;
      }
      NewestOfNewest(before, frame.nonce);
      if payload.value.role.RpcRequest? {
        return Detached;
      }
      queue := queue + [Item(number, payload.value)];
      return Queued;
    }

    method BacklogDone()
      modifies this`backlogOpen
      ensures View() == old(View()).(backlogOpen := false)
    {
      backlogOpen := false;
    }

    method TakeNext()
      requires worker.Waiting? && queue != []
      modifies this`worker, this`queue
      ensures View() == Take(old(View()))
    {
      worker, queue := Busy(queue[0]), queue[1..];
    }

    method FinishDispatch(outcome: Dispatch)
      requires worker.Busy?
      modifies this`worker, this`inboundCursor, this`inboundCursorFile
      ensures View() == if outcome.Raised? then Fail(old(View())) else Done(old(View()), outcome.write)
    {
      var number := worker.item.number;
      if outcome.Raised? {
        worker := Stopped;
        return;
      }
      worker := Waiting;
      if number.Some? {
        inboundCursor := number.value;
        match outcome.write
        case Written => inboundCursorFile := number.value;
        case Untouched =>
        case Truncated => inboundCursorFile := 0;
      }
    }

    /** The `finally` of the receive loop: with the reader gone, the worker runs on to
        the sentinel; then the supervisor clears the connection's state. */
    method DrainAndLeave(outcomes: seq<Dispatch>)
      requires phase.Closing? && worker.Waiting? && |outcomes| >= |queue|
      modifies this
      ensures View() == LeaveLoop(Drain(old(View()), outcomes))
    {
      var k := 0;
      while queue != [] && !worker.Stopped?
        invariant 0 <= k <= |outcomes| && phase.Closing?
        invariant worker.Waiting? ==> |outcomes| - k >= |queue|
        invariant worker.Waiting? ==> Drain(View(), outcomes[k..]) == Drain(old(View()), outcomes)
        invariant worker.Stopped? ==> View() == Drain(old(View()), outcomes)
        invariant !worker.Busy? && unchanged(cache)
        decreases |queue|
      {
        assert outcomes[k..][1..] == outcomes[k + 1..];
        TakeNext();
        FinishDispatch(outcomes[k]);
        k := k + 1;
      }
      phase, inboundSeenSeq := Offline, 0;
      queue, worker := [], Waiting;
    }
  }

  /** Appending to a full window is appending to the history it is the window of. */
  lemma NewestOfNewest(history: seq<Nonce>, n: Nonce)
    ensures Newest(Newest(history) + [n]) == Newest(history + [n])
  {
  }
}
