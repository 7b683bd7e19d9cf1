/** Whole runs of the durable queue: a relay that stores and replays, sockets that close,
    dispatches that raise, processes that restart. `World` adds to the gateway what the
    relay holds and what an observer has noted; the theorems are about every run. */
module DurableReplay {
  import opened Wrappers
  import opened Crypto
  import opened InboundQueue

  datatype World = World(
    g: Gateway,
    store: map<int, Frame>,     // the relay's stored phone messages
    highest: int,               // largest number the relay has given out
    since: int,                 // cursor sent when this connection opened
    offered: set<int>,          // numbers offered on this connection
    acceptances: seq<Nonce>,    // acceptance history of this process
    accepted: seq<int>,         // numbers queued by this process, in order
    done: seq<int>,             // numbers dispatched by this process, in order
    doneHere: seq<int>,         // numbers dispatched on this connection, in order
    rejectedHere: set<int>,     // turned away by `open_frame` on this connection
    detachedHere: set<int>,     // detached from the queue on this connection, being RPCs
    posted: set<int>,           // every number ever given out
    handled: set<int>,          // dispatched (or detached, for an RPC), ever
    rejected: set<int>,         // turned away by `open_frame`, ever
    pruned: set<int>)           // dropped by the relay, ever

  datatype Event =
    | Post(n: int, frame: Frame)                                 // the phone sends, the relay stores
    | Prune(n: int)                                              // the relay drops an old message
    | Open(now: int)
    | Receive(number: Option<int>, frame: Frame, now: int)
    | Marker                                                     // the relay's backlog_done
    | StartDispatch
    | EndDispatch(outcome: Dispatch)
    | SocketClosed
    | Leave
    | Crash

  predicate Enabled(w: World, e: Event) {
    match e
    case Post(n, _) => n > w.highest
    case Prune(n) => n in w.store
    case Open(_) => w.g.phase.Offline?
    case Receive(_, _, _) => w.g.phase.Online?
    case Marker => w.g.phase.Online?
    case StartDispatch => !w.g.phase.Offline? && w.g.worker.Waiting? && w.g.queue != []
    case EndDispatch(o) => !w.g.phase.Offline? && w.g.worker.Busy?
        && (o.Raised? ==> !w.g.worker.item.payload.role.PromptResponse?)
    case SocketClosed => w.g.phase.Online?
    case Leave => w.g.phase.Closing? && Drained(w.g)
    case Crash => true
  }

  /** The relay offers what it stores beyond `since`, first offers in increasing order
      and skipping nothing it still stores, with repeats allowed. */
  predicate RelayOffer(w: World, n: int, frame: Frame) {
    && n in w.store && w.store[n] == frame
    && n > w.since
    && (n in w.offered || forall m :: m in w.store && w.since < m < n ==> m in w.offered)
  }

  /** Only messages numbered by the relay are bound by its contract. */
  predicate Honest(w: World, e: Event) {
    e.Receive? && e.number.Some? ==> RelayOffer(w, e.number.value, e.frame)
  }

  function Numbers(item: Item): seq<int> {
    if item.number.Some? then [item.number.value] else []
  }

  function NumbersOf(items: seq<Item>): seq<int> {
    if items == [] then [] else Numbers(items[0]) + NumbersOf(items[1..])
  }

  function InHand(g: Gateway): seq<int> {
    if g.worker.Busy? then Numbers(g.worker.item) + NumbersOf(g.queue) else NumbersOf(g.queue)
  }

  function AfterReceive(w: World, number: Option<int>, frame: Frame, now: int): World {
    var verdict := ReadVerdict(w.g, number, frame, now);
    var opening := verdict.Detached? || verdict.Queued?;
    w.(g := Read(w.g, number, frame, now),
       offered := if number.Some? then w.offered + {number.value} else w.offered,
       acceptances := if opening then w.acceptances + [frame.nonce] else w.acceptances,
       accepted := if verdict.Queued? && number.Some? then w.accepted + [number.value] else w.accepted,
       handled := if verdict.Detached? && number.Some? then w.handled + {number.value} else w.handled,
       rejected := if verdict.Rejected? && number.Some? then w.rejected + {number.value} else w.rejected,
       detachedHere := if verdict.Detached? && number.Some? then w.detachedHere + {number.value} else w.detachedHere,
       rejectedHere := if verdict.Rejected? && number.Some? then w.rejectedHere + {number.value} else w.rejectedHere)
  }

  function AfterDispatch(w: World, outcome: Dispatch): World
    requires w.g.worker.Busy?
  {
    if outcome.Raised? then w.(g := Fail(w.g))
    else
      var ns := Numbers(w.g.worker.item);
      w.(g := Done(w.g, outcome.write), done := w.done + ns, doneHere := w.doneHere + ns,
         handled := w.handled + set n | n in ns)
  }

  function Apply(w: World, e: Event): World
    requires Enabled(w, e)
  {
    match e
    case Post(n, frame) => w.(store := w.store[n := frame], highest := n, posted := w.posted + {n})
    case Prune(n) => w.(store := w.store - {n}, pruned := w.pruned + {n})
    case Open(now) => w.(g := Connect(w.g, now), since := w.g.cursor, offered := {}, doneHere := [], rejectedHere := {}, detachedHere := {})
    case Receive(number, frame, now) => AfterReceive(w, number, frame, now)
    case Marker => w.(g := w.g.(backlogOpen := false))
    case StartDispatch => w.(g := Take(w.g))
    case EndDispatch(outcome) => AfterDispatch(w, outcome)
    case SocketClosed => w.(g := w.g.(phase := Closing))
    case Leave => w.(g := LeaveLoop(w.g))
    case Crash => w.(g := Restart(w.g), offered := {}, acceptances := [], accepted := [], done := [], doneHere := [],
                     rejectedHere := {}, detachedHere := {})
  }

  /** The world a run of events leads to, or None when some event cannot happen. */
  function Run(w: World, es: seq<Event>): Option<World>
    decreases |es|
  {
    if es == [] then Some(w)
    else if !Enabled(w, es[0]) then None
    else Run(Apply(w, es[0]), es[1..])
  }

  ghost predicate HonestRun(w: World, es: seq<Event>)
    decreases |es|
  {
    es == [] || (Enabled(w, es[0]) && Honest(w, es[0]) && HonestRun(Apply(w, es[0]), es[1..]))
  }

  predicate Settled(w: World, n: int) {
    n in w.handled || n in w.rejected || n in w.pruned
  }

  /** A gateway starting over whatever its cursor file says, and a relay with any backlog. */
  ghost predicate Start(w: World) {
    && w.g == Restart(w.g)
    && 0 <= w.highest && w.g.cursor <= w.highest
    && w.store.Keys <= w.posted
    && (forall n :: n in w.posted ==> 0 < n <= w.highest)
    && w.acceptances == [] && w.accepted == [] && w.done == [] && w.doneHere == [] && w.offered == {}
    && w.rejectedHere == {} && w.detachedHere == {}
    // What precedes the run: the cursor covers only settled messages.
    && (forall n :: n in w.posted && (n !in w.store || n <= w.g.cursor) ==> Settled(w, n))
  }

  ghost predicate Increasing(s: seq<int>) {
    forall i, j :: 0 <= i < j < |s| ==> s[i] < s[j]
  }

  // ------------------------------------------------------------ the invariant

  ghost predicate Basics(w: World) {
    && 0 <= w.highest && w.g.disk <= w.g.cursor <= w.highest
    && w.store.Keys <= w.posted
    && (forall n :: n in w.posted ==> 0 < n <= w.highest)
    && (forall n :: n in w.posted && n !in w.store ==> Settled(w, n))
    && w.g.nonces == Newest(w.acceptances) && Spread(w.acceptances)
    && (w.g.phase.Offline? ==> w.g.worker.Waiting? && w.g.queue == [] && w.g.seen == 0)
  }

  /** The cursor never passes a message that has not been settled. */
  ghost predicate CursorSafe(w: World) {
    forall n :: n in w.posted && n <= w.g.cursor ==> Settled(w, n)
  }

  /** On one connection everything posted up to what was read is offered or settled,
      and everything offered is settled, in hand, or beyond a frozen cursor. */
  ghost predicate Covered(w: World) {
    && w.since <= w.g.cursor && 0 <= w.g.seen <= w.highest
    && (w.g.cursor == w.since || w.g.cursor <= w.g.seen)
    && (forall n :: n in w.offered ==> n in w.posted && w.since < n <= w.g.seen)
    && (forall n :: n in w.posted && n <= w.since ==> Settled(w, n))
    && (forall n :: n in w.posted && n <= w.g.seen ==> n in w.offered || Settled(w, n))
    && (forall n :: n in w.offered ==> Settled(w, n) || n in InHand(w.g) || (w.g.worker.Stopped? && n > w.g.cursor))
  }

  /** What is read but not dispatched lies beyond the cursor, in increasing order. */
  ghost predicate HandOrdered(w: World) {
    && Increasing(InHand(w.g))
    && (forall n :: n in InHand(w.g) ==> n in w.offered && w.g.cursor < n)
  }

  /** Dispatches on a connection go up from `since`, and the cursor is the last of them. */
  ghost predicate DispatchOrdered(w: World) {
    && Increasing(w.doneHere)
    && (forall n :: n in w.doneHere ==> w.since < n)
    && w.g.cursor == (if w.doneHere == [] then w.since else w.doneHere[|w.doneHere| - 1])
  }

  ghost predicate OnConnection(w: World) {
    Covered(w) && HandOrdered(w) && DispatchOrdered(w)
  }

  ghost predicate Inv(w: World) {
    && Basics(w) && CursorSafe(w)
    && (!w.g.phase.Offline? ==> OnConnection(w))
  }

  lemma StartInv(w: World)
    requires Start(w)
    ensures Inv(w)
  {
    assert Newest(w.acceptances) == [];
  }

  lemma NumbersOfAppend(items: seq<Item>, item: Item)
    ensures NumbersOf(items + [item]) == NumbersOf(items) + Numbers(item)
  {
    if items == [] {
      assert items + [item] == [item];
    } else {
      assert (items + [item])[1..] == items[1..] + [item];
    }
  }

  lemma IncreasingAppend(s: seq<int>, n: int)
    requires Increasing(s) && forall m :: m in s ==> m < n
    ensures Increasing(s + [n])
  {
    assert forall i :: 0 <= i < |s| ==> s[i] in s;
  }

  lemma IncreasingSplit(n: int, s: seq<int>)
    requires Increasing([n] + s)
    ensures Increasing(s) && forall m :: m in s ==> n < m
  {
    var both := [n] + s;
    assert forall i :: 0 <= i < |s| ==> s[i] == both[i + 1] && both[0] < both[i + 1];
  }

  lemma LastIsLargest(s: seq<int>)
    requires Increasing(s) && s != []
    ensures forall m :: m in s ==> m <= s[|s| - 1]
  {
  }

  /** What reading a frame does to what is in hand. */
  lemma ReceiveInHand(w: World, number: Option<int>, frame: Frame, now: int)
    ensures InHand(AfterReceive(w, number, frame, now).g)
         == InHand(w.g) + (if ReadVerdict(w.g, number, frame, now).Queued? && number.Some? then [number.value] else [])
  {
    if ReadVerdict(w.g, number, frame, now).Queued? {
      NumbersOfAppend(w.g.queue, Item(number, frame.payload));
    }
  }

  lemma ReceiveKeepsBasics(w: World, number: Option<int>, frame: Frame, now: int)
    requires Inv(w) && w.g.phase.Online?
    ensures Basics(AfterReceive(w, number, frame, now)) && CursorSafe(AfterReceive(w, number, frame, now))
  {
    var verdict := ReadVerdict(w.g, number, frame, now);
    if verdict.Queued? || verdict.Detached? {
      AcceptKeepsSpread(w.acceptances, frame.nonce);
      NewestOfNewest(w.acceptances, frame.nonce);
    }
  }

  lemma ReceiveKeepsCovered(w: World, number: Option<int>, frame: Frame, now: int)
    requires Inv(w) && w.g.phase.Online? && Honest(w, Receive(number, frame, now))
    ensures Covered(AfterReceive(w, number, frame, now))
  {
    var w' := AfterReceive(w, number, frame, now);
    ReceiveInHand(w, number, frame, now);
    assert forall n :: n in InHand(w.g) ==> n in InHand(w'.g);
    assert forall n :: Settled(w, n) ==> Settled(w', n);
    if number.Some? && !AlreadySeen(w.g, number) {
      assert number.value in InHand(w'.g) || Settled(w', number.value);
    }
  }

  lemma ReceiveKeepsOrder(w: World, number: Option<int>, frame: Frame, now: int)
    requires Inv(w) && w.g.phase.Online? && Honest(w, Receive(number, frame, now))
    ensures HandOrdered(AfterReceive(w, number, frame, now)) && DispatchOrdered(AfterReceive(w, number, frame, now))
  {
    ReceiveInHand(w, number, frame, now);
    var verdict := ReadVerdict(w.g, number, frame, now);
    if verdict.Queued? && number.Some? {
      IncreasingAppend(InHand(w.g), number.value);
    }
  }

  /** The dispatched message was the smallest in hand. */
  lemma EndDispatchInHand(w: World, outcome: Dispatch)
    requires w.g.worker.Busy?
    ensures InHand(w.g) == Numbers(w.g.worker.item) + InHand(AfterDispatch(w, outcome).g)
  {
  }

  lemma EndDispatchKeepsInv(w: World, outcome: Dispatch)
    requires Inv(w) && Enabled(w, EndDispatch(outcome))
    ensures Inv(AfterDispatch(w, outcome))
  {
    EndDispatchInHand(w, outcome);
    if w.g.worker.item.number.None? {
      UnnumberedKeepsInv(w, outcome);
    } else {
      var n := w.g.worker.item.number.value;
      var rest := InHand(AfterDispatch(w, outcome).g);
      assert InHand(w.g)[0] == n;
      IncreasingSplit(n, rest);
      if outcome.Handled? {
        HandledKeepsInv(w, n, rest, outcome);
      } else {
        RaisedKeepsInv(w, n, rest, outcome);
      }
    }
  }

  lemma UnnumberedKeepsInv(w: World, outcome: Dispatch)
    requires Inv(w) && Enabled(w, EndDispatch(outcome)) && w.g.worker.item.number.None?
    requires InHand(w.g) == [] + InHand(AfterDispatch(w, outcome).g)
    ensures Inv(AfterDispatch(w, outcome))
  {
    var w' := AfterDispatch(w, outcome);
    assert InHand(w'.g) == InHand(w.g);
    assert w'.doneHere == w.doneHere && w'.handled == w.handled;
    assert forall m :: Settled(w', m) <==> Settled(w, m);
  }

  /** A dispatch that raises settles nothing and leaves the cursor where it was. */
  lemma RaisedKeepsInv(w: World, n: int, rest: seq<int>, outcome: Dispatch)
    requires Inv(w) && Enabled(w, EndDispatch(outcome)) && outcome.Raised?
    requires InHand(w.g) == [n] + rest && InHand(AfterDispatch(w, outcome).g) == rest
    requires Increasing(rest)
    ensures Inv(AfterDispatch(w, outcome))
  {
    var w' := AfterDispatch(w, outcome);
    assert forall m :: m in InHand(w.g) ==> m == n || m in rest;
    assert forall m :: m in rest ==> m in InHand(w.g);
    assert n in InHand(w.g);
    assert forall m :: Settled(w', m) <==> Settled(w, m);
  }

  /** A dispatch that returns settles its message and moves the cursor onto it. */
  lemma HandledKeepsInv(w: World, n: int, rest: seq<int>, outcome: Dispatch)
    requires Inv(w) && Enabled(w, EndDispatch(outcome)) && outcome.Handled?
    requires w.g.worker.item.number == Some(n)
    requires InHand(w.g) == [n] + rest && InHand(AfterDispatch(w, outcome).g) == rest
    requires n in InHand(w.g) && Increasing(rest) && forall m :: m in rest ==> n < m
    ensures Inv(AfterDispatch(w, outcome))
  {
    var w' := AfterDispatch(w, outcome);
    if w.doneHere != [] {
      LastIsLargest(w.doneHere);
    }
    IncreasingAppend(w.doneHere, n);
    assert forall m :: m in InHand(w.g) ==> m == n || m in rest;
    assert forall m :: m in rest ==> m in InHand(w.g);
    assert forall m :: Settled(w', m) <==> Settled(w, m) || m == n;
  }

  lemma StepKeepsInv(w: World, e: Event)
    requires Inv(w) && Enabled(w, e) && Honest(w, e)
    ensures Inv(Apply(w, e))
  {
    match e
    case Receive(number, frame, now) =>
      ReceiveKeepsBasics(w, number, frame, now);
      ReceiveKeepsCovered(w, number, frame, now);
      ReceiveKeepsOrder(w, number, frame, now);
    case EndDispatch(outcome) => EndDispatchKeepsInv(w, outcome);
    case _ => QuietStepKeepsInv(w, e);
  }

  /** The events that neither read nor finish a dispatch. */
  lemma QuietStepKeepsInv(w: World, e: Event)
    requires Inv(w) && Enabled(w, e) && !e.Receive? && !e.EndDispatch?
    ensures Inv(Apply(w, e))
  {
    var w' := Apply(w, e);
    assert forall n :: Settled(w, n) ==> Settled(w', n);
    if !w'.g.phase.Offline? && !e.Open? {
      assert InHand(w'.g) == InHand(w.g);
    }
  }

  lemma {:induction false} RunKeepsInv(w: World, es: seq<Event>)
    requires Inv(w) && HonestRun(w, es)
    ensures Run(w, es).Some? && Inv(Run(w, es).value)
    decreases |es|
  {
    if es != [] {
      StepKeepsInv(w, es[0]);
      RunKeepsInv(Apply(w, es[0]), es[1..]);
    }
  }

  // ---------------------------------------- disposition: any run, failures included

  predicate AnsweredHere(w: World, n: int) {
    n in w.doneHere || n in w.rejectedHere || n in w.detachedHere
  }

  /** On one connection every offer is answered, in hand, or beyond a frozen cursor, and
      nothing stored below the reader's mark was left out; so the cursor covers no offer
      that is not answered, and that outlives the connection. */
  ghost predicate Answered(w: World) {
    && w.offered <= w.posted
    && (forall n :: n in w.offered && n <= w.g.cursor ==> AnsweredHere(w, n))
    && (!w.g.phase.Offline? ==>
      && (forall n :: n in w.store && w.since < n <= w.g.seen ==> n in w.offered)
      && (forall n :: n in w.offered ==> AnsweredHere(w, n) || n in InHand(w.g) || (w.g.worker.Stopped? && n > w.g.cursor)))
  }

  lemma ReceiveKeepsAnswered(w: World, number: Option<int>, frame: Frame, now: int)
    requires Inv(w) && Answered(w) && w.g.phase.Online? && Honest(w, Receive(number, frame, now))
    ensures Answered(AfterReceive(w, number, frame, now))
  {
    var w' := AfterReceive(w, number, frame, now);
    ReceiveInHand(w, number, frame, now);
    assert forall n :: n in InHand(w.g) ==> n in InHand(w'.g);
    assert forall n :: AnsweredHere(w, n) ==> AnsweredHere(w', n);
    if number.Some? && !AlreadySeen(w.g, number) {
      assert number.value in InHand(w'.g) || AnsweredHere(w', number.value);
    }
  }

  lemma RaisedKeepsAnswered(w: World)
    requires Inv(w) && Answered(w) && Enabled(w, EndDispatch(Raised))
    ensures Answered(AfterDispatch(w, Raised))
  {
    var w' := AfterDispatch(w, Raised);
    var ns := Numbers(w.g.worker.item);
    EndDispatchInHand(w, Raised);
    assert forall n :: n in InHand(w.g) ==> n in ns || n in InHand(w'.g);
    assert forall n :: n in ns ==> n in InHand(w.g);
    assert forall n :: AnsweredHere(w, n) ==> AnsweredHere(w', n);
  }

  /** The number just dispatched was the smallest in hand: the cursor covers no other. */
  lemma HandledCovers(w: World, write: WriteOutcome, n: int)
    requires Inv(w) && Answered(w) && Enabled(w, EndDispatch(Handled(write))) && n in w.offered
    ensures var w' := AfterDispatch(w, Handled(write));
            && (n <= w'.g.cursor ==> AnsweredHere(w', n))
            && (AnsweredHere(w', n) || n in InHand(w'.g))
  {
    var w' := AfterDispatch(w, Handled(write));
    var ns := Numbers(w.g.worker.item);
    EndDispatchInHand(w, Handled(write));
    EndDispatchKeepsInv(w, Handled(write));
    assert w'.doneHere == w.doneHere + ns;
    assert n in InHand(w.g) ==> n in ns || n in InHand(w'.g);
    assert n in InHand(w'.g) ==> w'.g.cursor < n;
  }

  lemma EndDispatchKeepsAnswered(w: World, outcome: Dispatch)
    requires Inv(w) && Answered(w) && Enabled(w, EndDispatch(outcome))
    ensures Answered(AfterDispatch(w, outcome))
  {
    if outcome.Raised? {
      RaisedKeepsAnswered(w);
    } else {
      forall n | n in w.offered
        ensures var w' := AfterDispatch(w, outcome);
                (n <= w'.g.cursor ==> AnsweredHere(w', n)) && (AnsweredHere(w', n) || n in InHand(w'.g))
      {
        HandledCovers(w, outcome.write, n);
      }
    }
  }

  lemma QuietStepKeepsAnswered(w: World, e: Event)
    requires Inv(w) && Answered(w) && Enabled(w, e) && !e.Receive? && !e.EndDispatch?
    ensures Answered(Apply(w, e))
  {
    var w' := Apply(w, e);
    if !w'.g.phase.Offline? && !e.Open? {
      assert InHand(w'.g) == InHand(w.g);
      assert forall n :: AnsweredHere(w, n) ==> AnsweredHere(w', n);
    }
  }

  lemma {:induction false} RunKeepsAnswered(w: World, es: seq<Event>)
    requires Inv(w) && Answered(w) && HonestRun(w, es)
    ensures Run(w, es).Some? && Inv(Run(w, es).value) && Answered(Run(w, es).value)
    decreases |es|
  {
    if es != [] {
      StepKeepsInv(w, es[0]);
      match es[0] {
        case Receive(number, frame, now) => ReceiveKeepsAnswered(w, number, frame, now);
        case EndDispatch(outcome) => EndDispatchKeepsAnswered(w, outcome);
        case _ => QuietStepKeepsAnswered(w, es[0]);
      }
      RunKeepsAnswered(Apply(w, es[0]), es[1..]);
    }
  }

  /** What is noted of a connection is of this one. */
  ghost predicate NotedHere(w: World) {
    w.rejectedHere + w.detachedHere <= w.offered
  }

  lemma {:induction false} RunNotesHere(w: World, es: seq<Event>)
    requires NotedHere(w) && Run(w, es).Some?
    ensures NotedHere(Run(w, es).value)
    decreases |es|
  {
    if es != [] {
      assert NotedHere(Apply(w, es[0]));
      RunNotesHere(Apply(w, es[0]), es[1..]);
    }
  }

  /** Over every honest run, whatever raises, closes, restarts or is pruned: every number
      offered on a connection that the cursor covers was dispatched, rejected by
      `open_frame` or detached on that connection, whether or not the relay has pruned it
      since; the cursor covers no other message that was not settled or pruned before;
      and dispatches on a connection go strictly up from the `since` it opened with. */
  lemma Disposition(w0: World, es: seq<Event>)
    requires Start(w0) && HonestRun(w0, es)
    ensures Run(w0, es).Some?
    ensures var w := Run(w0, es).value;
            && (forall n :: n in w.offered && n <= w.g.cursor ==> AnsweredHere(w, n))
            && (forall n :: n in w.rejectedHere || n in w.detachedHere ==> n in w.offered)
            && (forall n :: n in w.posted && n <= w.g.cursor ==> n in w.handled || n in w.rejected || n in w.pruned)
            && (!w.g.phase.Offline? ==> Increasing(w.doneHere) && forall n :: n in w.doneHere ==> w.since < n <= w.g.cursor)
  {
    StartInv(w0);
    RunKeepsAnswered(w0, es);
    RunNotesHere(w0, es);
    var w := Run(w0, es).value;
    if !w.g.phase.Offline? && w.doneHere != [] {
      LastIsLargest(w.doneHere);
    }
  }

  ghost predicate NoCrash(es: seq<Event>) {
    forall i :: 0 <= i < |es| ==> !es[i].Crash?
  }

  lemma StepCursor(w: World, e: Event)
    requires Inv(w) && Enabled(w, e) && !e.Crash?
    ensures Apply(w, e).g.cursor >= w.g.cursor
  {
    if e.EndDispatch? && w.g.worker.item.number.Some? {
      EndDispatchInHand(w, e.outcome);
      assert InHand(w.g)[0] == w.g.worker.item.number.value;
      assert InHand(w.g)[0] in InHand(w.g);
    }
  }

  /** Within one process the cursor never moves back. */
  lemma {:induction false} CursorNeverDecreases(w: World, es: seq<Event>)
    requires Inv(w) && HonestRun(w, es) && NoCrash(es)
    ensures Run(w, es).Some? && Run(w, es).value.g.cursor >= w.g.cursor
    decreases |es|
  {
    if es != [] {
      assert !es[0].Crash?;
      assert forall i :: 0 <= i < |es[1..]| ==> es[1..][i] == es[i + 1];
      StepCursor(w, es[0]);
      StepKeepsInv(w, es[0]);
      CursorNeverDecreases(Apply(w, es[0]), es[1..]);
    }
  }

  ghost predicate SameConnection(es: seq<Event>) {
    forall i :: 0 <= i < |es| ==> !es[i].Crash? && !es[i].Open?
  }

  /** Once a dispatch has raised, nothing more is dispatched and the cursor does not
      move until the next connection, however much the reader still takes in. */
  lemma {:induction false} FrozenAfterFailure(w: World, es: seq<Event>)
    requires w.g.worker.Stopped? || w.g.phase.Offline?
    requires SameConnection(es) && Run(w, es).Some?
    ensures Run(w, es).value.g.cursor == w.g.cursor && Run(w, es).value.doneHere == w.doneHere
    decreases |es|
  {
    if es != [] {
      assert !es[0].Crash? && !es[0].Open?;
      assert forall i :: 0 <= i < |es[1..]| ==> es[1..][i] == es[i + 1];
      FrozenAfterFailure(Apply(w, es[0]), es[1..]);
    }
  }

  // ------------------------------------------------------- what waits for the worker

  /** The items the worker has or will get. */
  function Pending(g: Gateway): seq<Item> {
    (if g.worker.Busy? then [g.worker.item] else []) + g.queue
  }

  /** The event received this item: its number and its payload, and it is no RPC. */
  predicate Brings(e: Event, item: Item) {
    && e.Receive? && e.number == item.number
    && e.frame.Openable? && e.frame.payload == item.payload && !item.payload.role.RpcRequest?
  }

  ghost predicate Brought(es: seq<Event>, item: Item) {
    exists k :: 0 <= k < |es| && Brings(es[k], item)
  }

  ghost predicate AllBrought(es: seq<Event>, items: seq<Item>) {
    forall item :: item in items ==> Brought(es, item)
  }

  lemma BroughtLater(es: seq<Event>, e: Event, item: Item)
    requires Brought(es, item) || Brings(e, item)
    ensures Brought(es + [e], item)
  {
    if Brought(es, item) {
      var k :| 0 <= k < |es| && Brings(es[k], item);
      assert Brings((es + [e])[k], item);
    } else {
      assert Brings((es + [e])[|es|], item);
    }
  }

  lemma StepKeepsBrought(w: World, es: seq<Event>, e: Event)
    requires Enabled(w, e) && AllBrought(es, Pending(w.g))
    ensures AllBrought(es + [e], Pending(Apply(w, e).g))
  {
    var w' := Apply(w, e);
    forall item | item in Pending(w'.g)
      ensures Brought(es + [e], item)
    {
      assert item in Pending(w.g) || Brings(e, item);
      BroughtLater(es, e, item);
    }
  }

  lemma {:induction false} RunKeepsBrought(w: World, before: seq<Event>, es: seq<Event>)
    requires AllBrought(before, Pending(w.g)) && Run(w, es).Some?
    ensures AllBrought(before + es, Pending(Run(w, es).value.g))
    decreases |es|
  {
    if es == [] {
      assert before + es == before;
    } else {
      StepKeepsBrought(w, before, es[0]);
      RunKeepsBrought(Apply(w, es[0]), before + [es[0]], es[1..]);
      assert before + es == before + [es[0]] + es[1..];
    }
  }

  /** Against any relay: nothing the worker has or will get is an RPC, and each item is the
      payload of a frame received under its number. */
  lemma OnlyReceivedWaits(w0: World, es: seq<Event>)
    requires Start(w0) && Run(w0, es).Some?
    ensures AllBrought(es, Pending(Run(w0, es).value.g))
  {
    RunKeepsBrought(w0, [], es);
    assert [] + es == es;
  }

  /** Reading an opened frame that is no RPC is all it takes to make it wait, and an RPC never does. */
  lemma OpenedFrameWaits(w: World, number: Option<int>, frame: Frame, now: int)
    requires Enabled(w, Receive(number, frame, now)) && !AlreadySeen(w.g, number)
    requires Accepts(w.g.nonces, Opening(frame, now, number.Some? && w.g.backlogOpen && now - w.g.connectedAt < REPLAY_GRACE_MS))
    ensures Pending(Apply(w, Receive(number, frame, now)).g)
         == Pending(w.g) + if frame.payload.role.RpcRequest? then [] else [Item(number, frame.payload)]
  {
  }

  /** Leaving a connection is no step of its own: draining is the worker's dispatches, one
      after another, until the queue is empty or one raises. */
  lemma {:induction false} DrainIsDispatches(w: World, outcomes: seq<Dispatch>) returns (es: seq<Event>)
    requires w.g.phase.Closing? && w.g.worker.Waiting? && |outcomes| >= |w.g.queue|
    requires forall i :: 0 <= i < |w.g.queue| && outcomes[i].Raised? ==> !w.g.queue[i].payload.role.PromptResponse?
    ensures forall k :: 0 <= k < |es| ==> es[k].StartDispatch? || es[k].EndDispatch?
    ensures Run(w, es).Some? && Run(w, es).value.g == Drain(w.g, outcomes) && Drained(Run(w, es).value.g)
    decreases |w.g.queue|
  {
    if w.g.queue == [] {
      es := [];
    } else {
      var first := [StartDispatch, EndDispatch(outcomes[0])];
      var w1 := Apply(w, StartDispatch);
      var w2 := Apply(w1, EndDispatch(outcomes[0]));
      RunTwo(w, StartDispatch, EndDispatch(outcomes[0]), []);
      if outcomes[0].Raised? {
        es := first;
        assert first + [] == first;
      } else {
        assert forall i :: 0 <= i < |w2.g.queue| ==> w2.g.queue[i] == w.g.queue[i + 1];
        var rest := DrainIsDispatches(w2, outcomes[1..]);
        RunTwo(w, StartDispatch, EndDispatch(outcomes[0]), rest);
        es := first + rest;
      }
    }
  }

  lemma RunTwo(w: World, a: Event, b: Event, rest: seq<Event>)
    requires Enabled(w, a) && Enabled(Apply(w, a), b)
    ensures Run(w, [a, b] + rest) == Run(Apply(Apply(w, a), b), rest)
  {
    var es := [a, b] + rest;
    assert es[1..] == [b] + rest && es[1..][1..] == rest;
  }

  // --------------------------------------------- exactly once: runs without failure

  ghost predicate NoFailure(es: seq<Event>) {
    forall i :: 0 <= i < |es| ==> es[i] != EndDispatch(Raised)
  }

  /** Everything queued is dispatched or still in hand, in the order it was read. */
  ghost predicate Faithful(w: World) {
    && !w.g.worker.Stopped?
    && w.done + InHand(w.g) == w.accepted
    && Increasing(w.accepted)
    && (w.done != [] ==> w.g.cursor == w.done[|w.done| - 1])
    && (w.g.phase.Offline? ==> InHand(w.g) == [])
    && (!w.g.phase.Offline? ==> forall n :: n in w.accepted ==> n <= w.since || n in w.offered)
  }

  lemma DoneBelowCursor(w: World)
    requires Faithful(w)
    ensures forall n :: n in w.done ==> n <= w.g.cursor
  {
    if w.done != [] {
      assert forall i :: 0 <= i < |w.done| ==> w.done[i] == w.accepted[i];
    }
  }

  lemma ReceiveKeepsFaithful(w: World, number: Option<int>, frame: Frame, now: int)
    requires Inv(w) && Faithful(w) && w.g.phase.Online? && Honest(w, Receive(number, frame, now))
    ensures Faithful(AfterReceive(w, number, frame, now))
  {
    ReceiveInHand(w, number, frame, now);
    var w' := AfterReceive(w, number, frame, now);
    assert w'.g.phase.Online?;
    if ReadVerdict(w.g, number, frame, now).Queued? && number.Some? {
      IncreasingAppend(w.accepted, number.value);
      assert w.done + (InHand(w.g) + [number.value]) == w.accepted + [number.value];
    } else {
      assert InHand(w'.g) == InHand(w.g);
    }
  }

  lemma EndDispatchKeepsFaithful(w: World, outcome: Dispatch)
    requires Inv(w) && Faithful(w) && Enabled(w, EndDispatch(outcome)) && outcome != Raised
    ensures Faithful(Apply(w, EndDispatch(outcome)))
  {
    var w' := Apply(w, EndDispatch(outcome));
    var rest := InHand(w'.g);
    EndDispatchInHand(w, outcome);
    if w.g.worker.item.number.None? {
      assert w'.done == w.done && rest == InHand(w.g);
    } else {
      var n := w.g.worker.item.number.value;
      assert w'.done == w.done + [n];
      assert w.done + ([n] + rest) == w'.done + rest;
    }
  }

  lemma StepKeepsFaithful(w: World, e: Event)
    requires Inv(w) && Faithful(w) && Enabled(w, e) && Honest(w, e) && e != EndDispatch(Raised)
    ensures Faithful(Apply(w, e))
  {
    var w' := Apply(w, e);
    match e
    case Receive(number, frame, now) => ReceiveKeepsFaithful(w, number, frame, now);
    case EndDispatch(outcome) => EndDispatchKeepsFaithful(w, outcome);
    case StartDispatch => assert InHand(w'.g) == InHand(w.g);
    case Open(_) => DoneBelowCursor(w); assert w.done + [] == w.done;
    case Crash => assert InHand(w'.g) == [];
    case Leave => assert InHand(w'.g) == [] == InHand(w.g);
    case _ => assert InHand(w'.g) == InHand(w.g);
  }

  lemma {:induction false} RunKeepsFaithful(w: World, es: seq<Event>)
    requires Inv(w) && Faithful(w) && HonestRun(w, es) && NoFailure(es)
    ensures Run(w, es).Some? && Inv(Run(w, es).value) && Faithful(Run(w, es).value)
    decreases |es|
  {
    if es != [] {
      assert es[0] != EndDispatch(Raised);
      assert forall i :: 0 <= i < |es[1..]| ==> es[1..][i] == es[i + 1];
      StepKeepsInv(w, es[0]);
      StepKeepsFaithful(w, es[0]);
      RunKeepsFaithful(Apply(w, es[0]), es[1..]);
    }
  }

  /** While no dispatch raises, over any number of disconnects: no message is queued
      twice by a process, dispatches follow the reading order, and whenever the gateway
      is about to reconnect every queued message has been dispatched and lies at or
      below the cursor it will send as `since`. */
  lemma ExactlyOnce(w0: World, es: seq<Event>)
    requires Start(w0) && HonestRun(w0, es) && NoFailure(es)
    ensures Run(w0, es).Some?
    ensures var w := Run(w0, es).value;
            && Increasing(w.accepted) && w.done <= w.accepted
            && (w.g.phase.Offline? ==> w.done == w.accepted && forall n :: n in w.accepted ==> n <= w.g.cursor)
  {
    StartInv(w0);
    RunKeepsFaithful(w0, es);
    var w := Run(w0, es).value;
    DoneBelowCursor(w);
    if w.g.phase.Offline? {
      assert w.done + [] == w.done;
    }
  }

  /** In such runs no queued message ever reaches the nonce cache again: if the relay
      offers it once more, the reader's own high-water mark turns it away first. */
  lemma NeverReoffered(w0: World, es: seq<Event>, n: int, frame: Frame, now: int)
    requires Start(w0) && HonestRun(w0, es) && NoFailure(es) && Run(w0, es).Some?
    requires var w := Run(w0, es).value;
             && w.g.phase.Online? && Honest(w, Receive(Some(n), frame, now)) && n in w.accepted
    ensures ReadVerdict(Run(w0, es).value.g, Some(n), frame, now) == Skipped
  {
    StartInv(w0);
    RunKeepsFaithful(w0, es);
  }

  /** The next process is offered the message again: it lies beyond the `since` of the
      connection opened at `now`, no mark turns it away, and when a frame of it arrives
      only its age can keep it from opening. */
  ghost predicate ComesBack(w: World, n: int, now: int) {
    var next := Apply(Apply(w, Crash), Open(now));
    && next.since < n && !AlreadySeen(next.g, Some(n))
    && (n in w.store ==> n in next.store)
    && forall frame: Frame, later: int ::
         frame.Openable? && frame.ts.Some? && (now <= later < now + REPLAY_GRACE_MS || WithinWindow(frame.ts.value, later))
         ==> Accepts(next.g.nonces, OpeningOf(next.g, Some(n), frame, later))
  }

  /** Exactly the messages beyond the cursor file do. */
  lemma ComesBackIff(w: World, n: int, now: int)
    requires 0 < n
    ensures ComesBack(w, n, now) <==> w.g.disk < n
  {
  }

  /** A restart at any moment of any honest run, failures included, skips nothing that was
      read and is still to be dispatched, nothing offered on the connection that is not
      yet answered, and nothing that was never dispatched, rejected or pruned. */
  lemma RestartSkipsNothing(w0: World, es: seq<Event>, n: int, now: int)
    requires Start(w0) && HonestRun(w0, es) && Run(w0, es).Some?
    requires var w := Run(w0, es).value;
             || n in InHand(w.g)
             || (n in w.offered && !AnsweredHere(w, n))
             || (n in w.posted && !Settled(w, n))
    ensures ComesBack(Run(w0, es).value, n, now)
  {
    StartInv(w0);
    RunKeepsAnswered(w0, es);
    var w := Run(w0, es).value;
    assert w.g.phase.Offline? ==> InHand(w.g) == [];
    ComesBackIff(w, n, now);
  }

  /** While no dispatch raises, every message this process queued and has not dispatched
      is in hand, so a restart loses none. */
  lemma RestartSkipsNoAccepted(w0: World, es: seq<Event>, n: int, now: int)
    requires Start(w0) && HonestRun(w0, es) && NoFailure(es) && Run(w0, es).Some?
    requires n in Run(w0, es).value.accepted && n !in Run(w0, es).value.done
    ensures n in InHand(Run(w0, es).value.g) && ComesBack(Run(w0, es).value, n, now)
  {
    StartInv(w0);
    RunKeepsFaithful(w0, es);
    RestartSkipsNothing(w0, es, n, now);
  }

  // ------------------------------------------------- what a failure really costs

  /** A message this process has opened before (as entry `i` of its history, and not
      since) is opened again, when offered on a later connection, if and only if more
      than 256 acceptances lie at or after that entry. Until then its replay is lost. */
  lemma RedeliveredIff(w: World, n: int, frame: Frame, now: int, i: nat)
    requires Inv(w) && w.g.phase.Online? && !AlreadySeen(w.g, Some(n))
    requires frame.Openable? && frame.ts.Some?
    requires WindowOpen(w.g, now) || WithinWindow(frame.ts.value, now)
    requires i < |w.acceptances| && w.acceptances[i] == frame.nonce
    requires forall k :: i < k < |w.acceptances| ==> w.acceptances[k] != frame.nonce
    ensures ReadVerdict(w.g, Some(n), frame, now) != Rejected <==> |w.acceptances| - i > MAX_NONCE_CACHE
  {
    ReplayRefusedIff(w.acceptances, i, OpeningOf(w.g, Some(n), frame, now));
  }

  const FIRST: Frame := Openable(1, Some(0), Payload(Chat, "one"))
  const SECOND: Frame := Openable(2, Some(0), Payload(Chat, "two"))

  function FreshWorld(): World {
    World(Gateway(Offline, 0, 0, 0, false, 0, [], [], Waiting), map[], 0, 0, {}, [], [], [], [], {}, {}, {}, {}, {}, {})
  }

  /** Message 1 raises while message 2 waits to be sent. */
  function Failure(): seq<Event> {
    [Post(1, FIRST), Post(2, SECOND), Open(0), Receive(Some(1), FIRST, 0), StartDispatch, EndDispatch(Raised)]
  }

  function Reconnect(): seq<Event> {
    [SocketClosed, Leave, Open(0)]
  }

  /** The relay replays from the cursor. */
  function Replay(): seq<Event> {
    [Receive(Some(1), FIRST, 0), Receive(Some(2), SECOND, 0), StartDispatch, EndDispatch(Handled(Written))]
  }

  function AfterFailure(): World {
    World(Gateway(Online, 0, 0, 1, true, 0, [1], [], Stopped), map[1 := FIRST, 2 := SECOND], 2, 0,
          {1}, [1], [1], [], [], {}, {}, {1, 2}, {}, {}, {})
  }

  function AfterReconnect(): World {
    AfterFailure().(g := Gateway(Online, 0, 0, 0, true, 0, [1], [], Waiting), offered := {})
  }

  lemma RunFront(w: World, es: seq<Event>)
    requires es != []
    ensures Run(w, es) == if Enabled(w, es[0]) then Run(Apply(w, es[0]), es[1..]) else None
    ensures HonestRun(w, es) <==> Enabled(w, es[0]) && Honest(w, es[0]) && HonestRun(Apply(w, es[0]), es[1..])
  {
  }

  lemma FailureRun(rest: seq<Event>)
    ensures Run(FreshWorld(), Failure() + rest) == Run(AfterFailure(), rest)
    ensures HonestRun(AfterFailure(), rest) ==> HonestRun(FreshWorld(), Failure() + rest)
  {
    var es := Failure() + rest;
    var w := FreshWorld();
    for k := 0 to 6
      invariant k == 0 ==> w == FreshWorld()
      invariant k == 1 ==> w == FreshWorld().(store := map[1 := FIRST], highest := 1, posted := {1})
      invariant k == 2 ==> w == FreshWorld().(store := map[1 := FIRST, 2 := SECOND], highest := 2, posted := {1, 2})
      invariant k == 3 ==> w == FreshWorld().(store := map[1 := FIRST, 2 := SECOND], highest := 2, posted := {1, 2},
                                              g := Gateway(Online, 0, 0, 0, true, 0, [], [], Waiting))
      invariant k == 4 ==> w == AfterFailure().(g := AfterFailure().g.(queue := [Item(Some(1), FIRST.payload)], worker := Waiting))
      invariant k == 5 ==> w == AfterFailure().(g := AfterFailure().g.(worker := Busy(Item(Some(1), FIRST.payload))))
      invariant k == 6 ==> w == AfterFailure()
      invariant Run(FreshWorld(), es) == Run(w, es[k..])
      invariant HonestRun(w, es[k..]) ==> HonestRun(FreshWorld(), es)
    {
      assert es[k..][0] == Failure()[k] && es[k..][1..] == es[k + 1..];
      RunFront(w, es[k..]);
      w := Apply(w, es[k]);
    }
    assert es[6..] == rest;
  }

  lemma ReconnectRun(rest: seq<Event>)
    ensures Run(AfterFailure(), Reconnect() + rest) == Run(AfterReconnect(), rest)
    ensures HonestRun(AfterReconnect(), rest) ==> HonestRun(AfterFailure(), Reconnect() + rest)
  {
    var es := Reconnect() + rest;
    var w := AfterFailure();
    for k := 0 to 3
      invariant k == 0 ==> w == AfterFailure()
      invariant k == 1 ==> w == AfterFailure().(g := AfterFailure().g.(phase := Closing))
      invariant k == 2 ==> w == AfterFailure().(g := Gateway(Offline, 0, 0, 0, true, 0, [1], [], Waiting))
      invariant k == 3 ==> w == AfterReconnect()
      invariant Run(AfterFailure(), es) == Run(w, es[k..])
      invariant HonestRun(w, es[k..]) ==> HonestRun(AfterFailure(), es)
    {
      assert es[k..][0] == Reconnect()[k] && es[k..][1..] == es[k + 1..];
      RunFront(w, es[k..]);
      w := Apply(w, es[k]);
    }
    assert es[3..] == rest;
  }

  /** Message 1 is rejected on its replay; message 2 is queued. */
  lemma ReplayReads() returns (w1: World, w2: World)
    ensures Enabled(AfterReconnect(), Replay()[0]) && Honest(AfterReconnect(), Replay()[0])
    ensures w1 == Apply(AfterReconnect(), Replay()[0]) && w1.rejected == {1} && w1.handled == {}
    ensures w1.accepted == [1] && w1.done == [] && w2.accepted == [1, 2] && w2.done == []
    ensures Enabled(w1, Replay()[1]) && Honest(w1, Replay()[1])
    ensures w2 == Apply(w1, Replay()[1]) && w2.rejected == {1} && w2.handled == {} && w2.store == AfterFailure().store
    ensures w2.g.phase.Online? && w2.g.worker.Waiting? && w2.g.queue == [Item(Some(2), SECOND.payload)]
  {
    w1 := Apply(AfterReconnect(), Replay()[0]);
    assert w1.g.nonces == [1] && w1.g.queue == [];
    w2 := Apply(w1, Replay()[1]);
  }

  /** Message 2 is dispatched, and the cursor passes message 1. */
  lemma ReplayDispatches(w2: World) returns (w3: World, w4: World)
    requires w2.g.phase.Online? && w2.g.worker.Waiting? && w2.g.queue == [Item(Some(2), SECOND.payload)] && w2.handled == {}
    ensures Enabled(w2, StartDispatch) && w3 == Apply(w2, StartDispatch)
    ensures Enabled(w3, EndDispatch(Handled(Written))) && w4 == Apply(w3, EndDispatch(Handled(Written)))
    ensures w4.g.cursor == w4.g.disk == 2 && w4.handled == {2} && w4.done == w2.done + [2]
    ensures w4.rejected == w2.rejected && w4.store == w2.store && w4.accepted == w2.accepted
  {
    w3 := Apply(w2, StartDispatch);
    w4 := Apply(w3, EndDispatch(Handled(Written)));
    assert (set n | n in [2]) == {2};
    assert w4.handled == {} + (set n | n in [2]);
  }

  lemma ReplayRun()
    ensures HonestRun(AfterReconnect(), Replay())
    ensures var w := Run(AfterReconnect(), Replay());
            w.Some? && w.value.g.cursor == w.value.g.disk == 2 && w.value.handled == {2} && w.value.rejected == {1}
            && 1 in w.value.store && 1 in w.value.accepted && w.value.done == [2]
  {
    var es := Replay();
    var w1, w2 := ReplayReads();
    RunFront(AfterReconnect(), es);
    RunFront(w1, es[1..]);
    var w3, w4 := ReplayDispatches(w2);
    assert es[1..][1..] == [es[2], es[3]];
    RunFront(w2, [es[2], es[3]]);
    assert [es[2], es[3]][1..] == [es[3]];
    RunFront(w3, [es[3]]);
    assert [es[3]][1..] == [];
  }

  /** The dispatch worker's comment says a raising dispatch is replayed from the last
      number that succeeded, and never skipped. The replay does come, but the nonce
      cache rejects it, the next success moves the cursor past the failed message, and a
      restart does not bring it back either. */
  lemma FailedDispatchIsSkipped()
    ensures Start(FreshWorld()) && HonestRun(FreshWorld(), Failure() + (Reconnect() + Replay()))
    ensures var w := Run(FreshWorld(), Failure() + (Reconnect() + Replay()));
            && w.Some? && w.value.g.cursor == 2 && 1 in w.value.store && 1 !in w.value.handled && 1 in w.value.rejected
            && 1 in w.value.accepted && 1 !in w.value.done && !ComesBack(w.value, 1, 0)
  {
    FailureRun(Reconnect() + Replay());
    ReconnectRun(Replay());
    ReplayRun();
    ComesBackIff(Run(AfterReconnect(), Replay()).value, 1, 0);
  }

  // ---------------------------------------- stale frames: any relay, honest or not

  /** The events that end the replay window of a connection. */
  predicate ClosesWindow(w: World, e: Event) {
    || e.Marker?
    || (e.Receive? && e.number.Some? && !AlreadySeen(w.g, e.number) && e.now - w.g.connectedAt >= REPLAY_GRACE_MS)
  }

  ghost predicate NoReconnect(es: seq<Event>) {
    forall i :: 0 <= i < |es| ==> !es[i].Open?
  }

  lemma {:induction false} WindowStaysShut(w: World, es: seq<Event>)
    requires !w.g.backlogOpen && NoReconnect(es) && Run(w, es).Some?
    ensures !Run(w, es).value.g.backlogOpen
    decreases |es|
  {
    if es != [] {
      assert !es[0].Open?;
      assert forall i :: 0 <= i < |es[1..]| ==> es[1..][i] == es[i + 1];
      WindowStaysShut(Apply(w, es[0]), es[1..]);
    }
  }

  /** Against any relay and any clock, even one that moves back: after the event that
      first closes the window, and until the next connect, a frame opens only if its
      timestamp is within 60 seconds; before that, an older one opens only if it is
      numbered and read within 30 seconds of connecting. */
  lemma StaleOnlyWhileOpen(w: World, closing: Event, es: seq<Event>, number: Option<int>, frame: Frame, now: int)
    requires Enabled(w, closing) && NoReconnect(es) && Run(Apply(w, closing), es).Some?
    requires ReadVerdict(Run(Apply(w, closing), es).value.g, number, frame, now) in {Detached, Queued}
    ensures ClosesWindow(w, closing) ==> WithinWindow(frame.ts.value, now)
    ensures !WithinWindow(frame.ts.value, now) ==>
              var g := Run(Apply(w, closing), es).value.g;
              number.Some? && g.backlogOpen && now - g.connectedAt < REPLAY_GRACE_MS
  {
    if ClosesWindow(w, closing) {
      WindowStaysShut(Apply(w, closing), es);
    }
  }
}
