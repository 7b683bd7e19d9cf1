/** One streamed reply (adapter.py): the edits the gateway's consumer makes, the deltas
    they become, the flush task that coalesces them, and the durable fallback.
    `Stream` holds the adapter's dictionary entries for one message id and `Apply` says
    what each uninterrupted stretch of code does to them; `StreamedReply` does it. */
module StreamDelta {
  import opened Wrappers
  import opened Utf16

  const LIVE_EDIT_INTERVAL_MS: int := 800

  /** A payload sealed under the stream's own message id. */
  datatype Frame =
    | Delta(rev: nat, keep: nat, append: string)
    | Final(rev: nat, content: string)

  /** A frame on its way through `_deliver`: sealing may fail, and without a socket
      nothing is handed over. */
  datatype Delivery = Delivery(frame: Frame, sealed: bool, handed: bool)

  /** How handing a frame to the socket ended. */
  datatype Outcome = Sent | Closed | Broken

  /** A flush task; Cancelled ones have still to run their `finally`. */
  datatype Task = Sleeping(due: int) | Sending(delivery: Delivery) | Cancelled | Over

  /** Where the stream's one consumer is. */
  datatype Call = Idle | Editing(delivery: Delivery, content: string) | Finalizing(delivery: Delivery) | FallingBack(delivery: Delivery)

  /** One recorded text, when it was recorded, and whether the interval did not apply. */
  datatype Record = Record(text: string, at: int, excused: bool)

  datatype Stream = Stream(
    up: bool,                    // the adapter has a socket
    pending: bool,
    text: Option<string>,
    rev: Option<nat>,
    lastLive: Option<int>,
    stash: Option<string>,
    flush: Option<nat>,          // index of the registered task
    immediate: bool,
    tasks: seq<Task>,
    call: Call,
    revision: nat,               // revisions of the finished reply posted so far
    // what an observer has noted
    records: seq<Record>,        // one per revision
    trace: seq<Delivery>,        // every frame made for this message id, in order
    posts: seq<Frame>,           // frames whose enqueue was attempted, in order
    inbox: seq<Frame>,           // those that landed in the relay's durable inbox
    latest: string,              // the consumer's latest text
    clock: int)

  datatype Event =
    | Edit(content: string, now: int, sealed: bool)
    | EditReturns(outcome: Outcome, sealed: bool)
    | Finalize(content: string, now: int, sealed: bool)
    | FinalizeReturns(outcome: Outcome, landed: bool)
    | FallbackReturns(outcome: Outcome, landed: bool)
    | Wake(now: int, sealed: bool)
    | FlushReturns(task: nat, outcome: Outcome)
    | CancelledRuns(task: nat)
    | SocketLost          // the supervisor clears every pending stream
    | SocketDropped       // the socket goes without that clearing
    | SocketUp

  // ------------------------------------------------------------------- deltas

  /** Length of the longest common prefix, in code points. */
  function CommonPrefix(old_: string, new_: string): (k: nat)
    ensures k <= |old_| && k <= |new_| && old_[..k] == new_[..k]
    ensures k < |old_| && k < |new_| ==> old_[k] != new_[k]
  {
    if old_ != "" && new_ != "" && old_[0] == new_[0] then
      var k := 1 + CommonPrefix(old_[1..], new_[1..]);
      assert old_[..k] == [old_[0]] + old_[1..][..k - 1] && new_[..k] == [new_[0]] + new_[1..][..k - 1];
      k
    else 0
  }

  function DeltaFrom(previous: string, content: string, rev: nat): Frame {
    var k := CommonPrefix(previous, content);
    Delta(rev, |Encode(content[..k])|, content[k..])
  }

  /** What the phone does with a delta: slice its text in code units, then append. */
  function Patch(units: seq<Unit>, keep: nat, append: string): seq<Unit>
    requires keep <= |units|
  {
    units[..keep] + Encode(append)
  }

  /** Keeping a common prefix and appending the rest gives the new text, at a clean cut. */
  lemma PatchIsExact(previous: string, content: string, k: nat)
    requires k <= |previous| && k <= |content| && previous[..k] == content[..k]
    ensures var keep := |Encode(content[..k])|;
            && keep <= |Encode(previous)| && CleanCut(Encode(previous), keep)
            && Patch(Encode(previous), keep, content[k..]) == Encode(content)
  {
    var kept := Encode(content[..k]);
    PrefixCutIsClean(previous, k);
    EncodeConcat(content[..k], content[k..]);
    assert content[..k] + content[k..] == content;
    assert Encode(previous)[..|kept|] == kept;
  }

  /** A delta turns the previous text into the new one, and its cut is clean. */
  lemma DeltaIsExact(previous: string, content: string, rev: nat)
    ensures var d := DeltaFrom(previous, content, rev);
            && d.keep <= |Encode(previous)| && CleanCut(Encode(previous), d.keep)
            && Patch(Encode(previous), d.keep, d.append) == Encode(content)
  {
    PatchIsExact(previous, content, CommonPrefix(previous, content));
  }

  /** No delta can keep more of the previous text: it appends as little as possible. */
  lemma DeltaIsShortest(previous: string, content: string, rev: nat, k: nat)
    requires k <= |previous| && k <= |content| && previous[..k] == content[..k]
    ensures |DeltaFrom(previous, content, rev).append| <= |content| - k
    ensures DeltaFrom(previous, content, rev).rev == rev
  {
    assert forall i :: 0 <= i < k ==> previous[..k][i] == previous[i] && content[..k][i] == content[i];
  }

  // -------------------------------------------------------------------- steps

  function LiveOk(d: Delivery, outcome: Outcome): bool {
    d.handed && outcome.Sent?
  }

  /** Whether `_deliver` gets as far as the durable enqueue it was asked for. */
  function Enqueues(d: Delivery, outcome: Outcome): bool {
    d.sealed && !(d.handed && outcome.Broken?)
  }

  function CancelFlush(s: Stream): Stream {
    if s.flush.Some? && s.flush.value < |s.tasks| then
      s.(flush := None, tasks := s.tasks[s.flush.value := Cancelled])
    else s.(flush := None)
  }

  /** `_clear_stream_edit`. */
  function Clear(s: Stream): Stream {
    CancelFlush(s).(text := None, rev := None, lastLive := None, stash := None, immediate := false)
  }

  function PreviousText(s: Stream): string { if s.text.Some? then s.text.value else "" }
  function NextRev(s: Stream): nat { if s.rev.Some? then s.rev.value + 1 else 1 }

  function Deliver(s: Stream, frame: Frame, sealed: bool): Delivery {
    Delivery(frame, sealed, sealed && s.up)
  }

  /** Makes the next delta, records it as the new base, and hands it over. */
  function Advance(s: Stream, content: string, now: int, sealed: bool, excused: bool): (Stream, Delivery) {
    var d := Deliver(s, DeltaFrom(PreviousText(s), content, NextRev(s)), sealed);
    var next := s.(text := Some(content), rev := Some(NextRev(s)), lastLive := Some(now),
                   records := s.records + [Record(content, now, excused)],
                   trace := s.trace + [d]);
    (next, d)
  }

  function Stashes(s: Stream, now: int): bool {
    s.up && !s.immediate && s.lastLive.Some? && now - s.lastLive.value < LIVE_EDIT_INTERVAL_MS
  }

  function StashEdit(s: Stream, content: string): Stream
    requires s.lastLive.Some?
  {
    if s.flush.Some? then s.(stash := Some(content))
    else s.(stash := Some(content), flush := Some(|s.tasks|),
            tasks := s.tasks + [Sleeping(s.lastLive.value + LIVE_EDIT_INTERVAL_MS)])
  }

  function SendEdit(s: Stream, content: string, now: int, sealed: bool): Stream {
    var (next, d) := Advance(CancelFlush(s).(stash := None, immediate := false), content, now, sealed, !s.up || s.immediate);
    next.(call := Editing(d, content))
  }

  predicate Enabled(s: Stream, e: Event) {
    match e
    case Edit(_, now, _) => s.call.Idle? && now >= s.clock
    case EditReturns(_, _) => s.call.Editing?
    case Finalize(_, now, _) => s.call.Idle? && now >= s.clock
    case FinalizeReturns(_, _) => s.call.Finalizing?
    case FallbackReturns(_, _) => s.call.FallingBack?
    case Wake(now, _) => s.flush.Some? && s.flush.value < |s.tasks| && s.tasks[s.flush.value].Sleeping?
        && now >= s.clock && now >= s.tasks[s.flush.value].due
    case FlushReturns(task, _) => task < |s.tasks| && s.tasks[task].Sending?
    case CancelledRuns(task) => task < |s.tasks| && s.tasks[task].Cancelled?
    case SocketLost => true
    case SocketDropped => true
    case SocketUp => true
  }

  function ApplyEdit(s: Stream, content: string, now: int, sealed: bool): Stream {
    // Once the stream is over the edit becomes a revision under another message id.
    if !s.pending then s.(clock := now, revision := s.revision + 1)
    else
      var noted := s.(latest := content, clock := now);
      if Stashes(noted, now) then StashEdit(noted, content) else SendEdit(noted, content, now, sealed)
  }

  function ApplyEditReturns(s: Stream, outcome: Outcome, sealed: bool): Stream
    requires s.call.Editing?
  {
    var d := s.call.delivery;
    if LiveOk(d, outcome) || !s.pending then s.(call := Idle)
    else
      var fallback := Deliver(s, Final(d.frame.rev, s.call.content), sealed);
      Clear(s).(pending := false, call := FallingBack(fallback), trace := s.trace + [fallback])
  }

  function ApplyFinalize(s: Stream, content: string, now: int, sealed: bool): Stream {
    if !s.pending then s.(clock := now, revision := s.revision + 1)
    else
      var d := Deliver(s, Final(NextRev(s), content), sealed);
      CancelFlush(s).(stash := None, call := Finalizing(d), trace := s.trace + [d], latest := content, clock := now)
  }

  /** The end of a durable delivery: the enqueue, once reached, may still fail to land. */
  function Posted(s: Stream, d: Delivery, outcome: Outcome, landed: bool): Stream {
    s.(call := Idle,
       posts := if Enqueues(d, outcome) then s.posts + [d.frame] else s.posts,
       inbox := if Enqueues(d, outcome) && landed then s.inbox + [d.frame] else s.inbox)
  }

  function ApplyWake(s: Stream, now: int, sealed: bool): Stream
    requires s.flush.Some? && s.flush.value < |s.tasks|
  {
    var t := s.flush.value;
    var woken := s.(flush := None, stash := None, clock := now);
    if !s.pending || s.stash.None? then woken.(tasks := s.tasks[t := Over])
    else
      var (next, d) := Advance(woken, s.stash.value, now, sealed, !s.up || s.immediate);
      next.(tasks := s.tasks[t := Sending(d)])
  }

  function ApplyFlushReturns(s: Stream, task: nat, outcome: Outcome): Stream
    requires task < |s.tasks| && s.tasks[task].Sending?
  {
    var failed := s.pending && !LiveOk(s.tasks[task].delivery, outcome);
    s.(tasks := s.tasks[task := Over], immediate := s.immediate || failed,
       flush := if s.flush == Some(task) then None else s.flush)
  }

  function Apply(s: Stream, e: Event): Stream
    requires Enabled(s, e)
  {
    match e
    case Edit(content, now, sealed) => ApplyEdit(s, content, now, sealed)
    case EditReturns(outcome, sealed) => ApplyEditReturns(s, outcome, sealed)
    case Finalize(content, now, sealed) => ApplyFinalize(s, content, now, sealed)
    case FinalizeReturns(outcome, landed) => Clear(Posted(s, s.call.delivery, outcome, landed)).(pending := false)
    case FallbackReturns(outcome, landed) => Posted(s, s.call.delivery, outcome, landed)
    case Wake(now, sealed) => ApplyWake(s, now, sealed)
    case FlushReturns(task, outcome) => ApplyFlushReturns(s, task, outcome)
    case CancelledRuns(task) =>
      s.(tasks := s.tasks[task := Over], flush := if s.flush == Some(task) then None else s.flush)
    case SocketLost => (if s.pending then Clear(s) else s).(up := false, pending := false)
    case SocketDropped => s.(up := false)
    case SocketUp => s.(up := true)
  }

  /** What `send` leaves behind for a reply that will be edited: revision 0 is its preview. */
  function Seeded(up: bool, preview: string, now: int): Stream {
    Stream(up, true, Some(preview), Some(0), Some(now), None, None, false, [], Idle, 0,
           [Record(preview, now, true)], [], [], [], preview, now)
  }

  function Run(s: Stream, es: seq<Event>): Option<Stream>
    decreases |es|
  {
    if es == [] then Some(s)
    else if !Enabled(s, es[0]) then None
    else Run(Apply(s, es[0]), es[1..])
  }

  // ---------------------------------------------------------------- invariant

  function Last(s: Stream): Record
    requires s.records != []
  {
    s.records[|s.records| - 1]
  }

  /** While the stream is pending its entries mirror the last recorded revision. */
  ghost predicate Mirrors(s: Stream) {
    && s.records != []
    && (s.pending ==>
      && s.text == Some(Last(s).text)
      && s.rev == Some(|s.records| - 1)
      && s.lastLive == Some(Last(s).at)
      && Last(s).at <= s.clock)
  }

  /** One delta per revision after the preview, numbered without gaps. */
  ghost predicate DeltasOf(records: seq<Record>, trace: seq<Delivery>) {
    |trace| >= |records| - 1 && forall i: nat :: DeltaAt(records, trace, i)
  }

  ghost predicate DeltaAt(records: seq<Record>, trace: seq<Delivery>, i: nat)
    requires |trace| >= |records| - 1
  {
    i + 1 < |records| ==> trace[i].frame == DeltaFrom(records[i].text, records[i + 1].text, i + 1)
  }

  /** The stream's final frame has been made: it follows every delta and ends the trace. */
  ghost predicate Ended(s: Stream) {
    && |s.trace| == |s.records| > 0
    && s.trace[|s.trace| - 1].frame.Final?
    && s.trace[|s.trace| - 1].frame.content == s.latest
  }

  ghost predicate TraceShape(s: Stream) {
    && DeltasOf(s.records, s.trace)
    && (|s.trace| == |s.records| - 1 || Ended(s))
    && (Ended(s) && s.pending ==> s.call.Finalizing?)
  }

  /** At most the final frame is ever posted, and only once its call returned. */
  ghost predicate InboxShape(s: Stream) {
    && (s.posts != [] ==> Ended(s) && !s.pending && s.posts == [s.trace[|s.trace| - 1].frame])
    && (s.inbox == [] || s.inbox == s.posts)
    && (s.call.Finalizing? || s.call.FallingBack? ==>
      s.posts == [] && Ended(s) && s.call.delivery == s.trace[|s.trace| - 1])
    && (s.call.FallingBack? ==> !s.pending)
    && (s.call.Editing? && s.pending ==>
      s.call.content == s.latest && !Ended(s) && s.call.delivery.frame.rev == |s.records| - 1)
  }

  /** A text is stashed exactly while one registered task sleeps, and that task is due
      one interval after the last recorded edit. */
  ghost predicate Coalesced(s: Stream) {
    && s.records != []
    && (s.stash.Some? <==> s.flush.Some?)
    && (s.flush.Some? ==>
      && s.pending && s.call.Idle? && s.flush.value < |s.tasks|
      && s.tasks[s.flush.value] == Sleeping(Last(s).at + LIVE_EDIT_INTERVAL_MS))
    && (forall i :: 0 <= i < |s.tasks| && s.tasks[i].Sleeping? ==> s.flush == Some(i))
    // The consumer's latest text is either recorded or waiting in the stash.
    && (s.pending && !s.call.Finalizing? ==>
      s.latest == if s.stash.Some? then s.stash.value else Last(s).text)
  }

  /** Recorded edits keep the interval, unless the socket was down or a flush had failed. */
  ghost predicate Spaced(records: seq<Record>) {
    forall i :: 0 < i < |records| ==>
      records[i].excused || records[i].at - records[i - 1].at >= LIVE_EDIT_INTERVAL_MS
  }

  ghost predicate Inv(s: Stream) {
    Mirrors(s) && TraceShape(s) && InboxShape(s) && Coalesced(s) && Spaced(s.records)
  }

  lemma SeededInv(up: bool, preview: string, now: int)
    ensures Inv(Seeded(up, preview, now))
  {
  }

  lemma SpacedAppend(records: seq<Record>, r: Record)
    requires Spaced(records) && records != []
    requires r.excused || r.at - records[|records| - 1].at >= LIVE_EDIT_INTERVAL_MS
    ensures Spaced(records + [r])
  {
    var longer := records + [r];
    forall i | 0 < i < |longer|
      ensures longer[i].excused || longer[i].at - longer[i - 1].at >= LIVE_EDIT_INTERVAL_MS
    {
      assert longer[i - 1] == records[i - 1];
    }
  }

  lemma DeltasAppend(records: seq<Record>, trace: seq<Delivery>, r: Record, d: Delivery)
    requires DeltasOf(records, trace) && records != [] && |trace| == |records| - 1
    requires d.frame == DeltaFrom(records[|records| - 1].text, r.text, |records|)
    ensures DeltasOf(records + [r], trace + [d])
  {
    var longer := records + [r];
    forall i: nat ensures DeltaAt(longer, trace + [d], i) {
      assert DeltaAt(records, trace, i);
      assert i < |records| ==> longer[i] == records[i];
      assert i + 1 < |records| ==> longer[i + 1] == records[i + 1];
    }
  }

  lemma DeltasExtend(records: seq<Record>, trace: seq<Delivery>, d: Delivery)
    requires DeltasOf(records, trace)
    ensures DeltasOf(records, trace + [d])
  {
    forall i: nat ensures DeltaAt(records, trace + [d], i) {
      assert DeltaAt(records, trace, i);
    }
  }

  /** Recording the next revision keeps the trace and the spacing. */
  lemma AdvanceKeeps(s: Stream, content: string, now: int, sealed: bool, excused: bool)
    requires Mirrors(s) && s.pending && now >= s.clock
    requires DeltasOf(s.records, s.trace) && |s.trace| == |s.records| - 1 && Spaced(s.records)
    requires excused || now - Last(s).at >= LIVE_EDIT_INTERVAL_MS
    ensures var (next, d) := Advance(s, content, now, sealed, excused);
            && Mirrors(next.(clock := now)) && DeltasOf(next.records, next.trace)
            && |next.trace| == |next.records| - 1 && Spaced(next.records)
            && Last(next) == Record(content, now, excused)
            && d.frame.rev == |next.records| - 1
  {
    var (next, d) := Advance(s, content, now, sealed, excused);
    SpacedAppend(s.records, Record(content, now, excused));
    DeltasAppend(s.records, s.trace, Record(content, now, excused), d);
  }

  lemma StashKeepsInv(s: Stream, content: string, now: int)
    requires Inv(s) && s.call.Idle? && s.pending && now >= s.clock && Stashes(s, now)
    ensures Inv(StashEdit(s.(latest := content, clock := now), content))
  {
  }

  lemma SendKeepsInv(s: Stream, content: string, now: int, sealed: bool)
    requires Inv(s) && s.call.Idle? && s.pending && now >= s.clock && !Stashes(s, now)
    ensures Inv(SendEdit(s.(latest := content, clock := now), content, now, sealed))
  {
    AdvanceKeeps(CancelFlush(s.(latest := content, clock := now)).(stash := None, immediate := false), content, now, sealed, !s.up || s.immediate);
  }

  lemma WakeKeepsInv(s: Stream, now: int, sealed: bool)
    requires Inv(s) && Enabled(s, Wake(now, sealed))
    ensures Inv(ApplyWake(s, now, sealed))
  {
    AdvanceKeeps(s.(flush := None, stash := None, clock := now), s.stash.value, now, sealed, !s.up || s.immediate);
  }

  lemma EditReturnsKeepsInv(s: Stream, outcome: Outcome, sealed: bool)
    requires Inv(s) && Enabled(s, EditReturns(outcome, sealed))
    ensures Inv(ApplyEditReturns(s, outcome, sealed))
  {
    DeltasExtend(s.records, s.trace, Deliver(s, Final(s.call.delivery.frame.rev, s.call.content), sealed));
  }

  lemma StepKeepsInv(s: Stream, e: Event)
    requires Inv(s) && Enabled(s, e)
    ensures Inv(Apply(s, e))
  {
    match e
    case Edit(content, now, sealed) =>
      if s.pending {
        if Stashes(s, now) {
          StashKeepsInv(s, content, now);
        } else {
          SendKeepsInv(s, content, now, sealed);
        }
      }
    case Wake(now, sealed) => WakeKeepsInv(s, now, sealed);
    case EditReturns(outcome, sealed) => EditReturnsKeepsInv(s, outcome, sealed);
    case Finalize(content, now, sealed) => FinalizeKeepsInv(s, content, now, sealed);
    case FinalizeReturns(outcome, landed) => FinalReturnsKeepsInv(s, outcome, landed);
    case FallbackReturns(outcome, landed) => FinalReturnsKeepsInv(s, outcome, landed);
    case FlushReturns(_, _) => TaskEndsKeepsInv(s, e);
    case CancelledRuns(_) => TaskEndsKeepsInv(s, e);
    case _ => SocketStepKeepsInv(s, e);
  }

  lemma FinalizeKeepsInv(s: Stream, content: string, now: int, sealed: bool)
    requires Inv(s) && Enabled(s, Finalize(content, now, sealed))
    ensures Inv(ApplyFinalize(s, content, now, sealed))
  {
    DeltasExtend(s.records, s.trace, Deliver(s, Final(NextRev(s), content), sealed));
  }

  /** The final frame has been delivered, or not: the reply is over. */
  lemma FinalReturnsKeepsInv(s: Stream, outcome: Outcome, landed: bool)
    requires Inv(s)
    ensures s.call.Finalizing? ==> Inv(Clear(Posted(s, s.call.delivery, outcome, landed)).(pending := false))
    ensures s.call.FallingBack? ==> Inv(Posted(s, s.call.delivery, outcome, landed))
  {
  }

  lemma TaskEndsKeepsInv(s: Stream, e: Event)
    requires Inv(s) && Enabled(s, e) && (e.FlushReturns? || e.CancelledRuns?)
    ensures Inv(Apply(s, e))
  {
  }

  lemma SocketStepKeepsInv(s: Stream, e: Event)
    requires Inv(s) && Enabled(s, e) && (e.SocketLost? || e.SocketDropped? || e.SocketUp?)
    ensures Inv(Apply(s, e))
  {
  }

  lemma {:induction false} RunKeepsInv(s: Stream, es: seq<Event>)
    requires Inv(s) && Run(s, es).Some?
    ensures Inv(Run(s, es).value)
    decreases |es|
  {
    if es != [] {
      StepKeepsInv(s, es[0]);
      RunKeepsInv(Apply(s, es[0]), es[1..]);
    }
  }

  // ----------------------------------------------------------------- theorems

  /** Deltas with revisions 1, 2, 3, ..., then at most one final frame and nothing after
      it; nothing but that final frame, with the full text, is ever posted, and the durable
      inbox holds it or nothing. */
  ghost predicate WellFramed(s: Stream) {
    && (forall i :: 0 <= i < |s.trace| && s.trace[i].frame.Delta? ==> s.trace[i].frame.rev == i + 1)
    && (forall i :: 0 <= i < |s.trace| && s.trace[i].frame.Final? ==> i == |s.trace| - 1)
    && (s.posts == [] || (s.trace != [] && s.posts == [s.trace[|s.trace| - 1].frame]))
    && (s.posts != [] ==> s.posts[0].Final? && s.posts[0].content == s.latest && !s.pending)
    && (s.inbox == [] || s.inbox == s.posts)
  }

  lemma InvWellFramed(s: Stream)
    requires Inv(s)
    ensures WellFramed(s)
  {
    forall i | 0 <= i < |s.trace|
      ensures s.trace[i].frame.Delta? ==> s.trace[i].frame.rev == i + 1
      ensures s.trace[i].frame.Final? ==> i == |s.trace| - 1
    {
      assert DeltaAt(s.records, s.trace, i);
    }
  }

  /** Under every interleaving of edits, flushes, finalize, socket loss and clearing, the
      preview at revision 0 is followed by gapless deltas and at most one final frame,
      and at most one frame is ever posted under the stream's id, landing or not. */
  lemma FramesOfAStream(up: bool, preview: string, now: int, es: seq<Event>)
    requires Run(Seeded(up, preview, now), es).Some?
    ensures WellFramed(Run(Seeded(up, preview, now), es).value)
  {
    SeededInv(up, preview, now);
    RunKeepsInv(Seeded(up, preview, now), es);
    InvWellFramed(Run(Seeded(up, preview, now), es).value);
  }

  /** A finalize leaves exactly its own full text in the durable inbox if and only if its
      frame seals, the socket does not break on it, and the enqueue lands; it leaves
      nothing otherwise, and in either case the stream is over. */
  lemma FinalizePersistsIff(s: Stream, content: string, now: int, sealed: bool, outcome: Outcome, landed: bool)
    requires Inv(s) && s.pending && Enabled(s, Finalize(content, now, sealed))
    ensures var begun := Apply(s, Finalize(content, now, sealed));
            && begun.call.Finalizing?
            && var over := Apply(begun, FinalizeReturns(outcome, landed));
               && !over.pending
               && (over.inbox == [Final(|s.records|, content)] <==> sealed && !(s.up && outcome.Broken?) && landed)
               && (over.inbox != [Final(|s.records|, content)] ==> over.inbox == [])
  {
  }

  /** A live edit that fails while its stream is pending ends the stream with the text it
      failed to show, marked final; that text is in the durable inbox if and only if the
      frame seals, the socket does not break on it, and the enqueue lands. */
  lemma FailedEditPersistsIff(s: Stream, outcome: Outcome, sealed: bool, later: Outcome, landed: bool)
    requires Inv(s) && s.pending && s.call.Editing? && !LiveOk(s.call.delivery, outcome)
    ensures var fallen := Apply(s, EditReturns(outcome, sealed));
            && fallen.call.FallingBack? && !fallen.pending
            && var over := Apply(fallen, FallbackReturns(later, landed));
               && (over.inbox == [Final(|s.records| - 1, s.latest)] <==> sealed && !(s.up && later.Broken?) && landed)
               && (over.inbox != [Final(|s.records| - 1, s.latest)] ==> over.inbox == [])
  {
  }

  /** In every run a text is stashed exactly while one task sleeps; when that task is
      due it wakes and records the consumer's latest text; and no finished or cancelled
      task ever removes the registered one. */
  lemma Coalescing(up: bool, preview: string, now: int, es: seq<Event>, later: int, sealed: bool, task: nat, outcome: Outcome)
    requires Run(Seeded(up, preview, now), es).Some?
    ensures var s := Run(Seeded(up, preview, now), es).value;
            && s.records != []
            && (s.stash.Some? <==> exists i :: 0 <= i < |s.tasks| && s.tasks[i].Sleeping?)
            && (forall i, j :: 0 <= i < |s.tasks| && 0 <= j < |s.tasks| && s.tasks[i].Sleeping? && s.tasks[j].Sleeping? ==> i == j)
            && (s.stash.Some? && later >= s.clock && later >= s.records[|s.records| - 1].at + LIVE_EDIT_INTERVAL_MS ==>
              && Enabled(s, Wake(later, sealed))
              && var woken := Apply(s, Wake(later, sealed));
                 woken.stash.None? && woken.records != [] && Last(woken).text == s.latest && Last(woken).at == later)
            && (Enabled(s, FlushReturns(task, outcome)) ==> Apply(s, FlushReturns(task, outcome)).flush == s.flush)
            && (Enabled(s, CancelledRuns(task)) ==> Apply(s, CancelledRuns(task)).flush == s.flush)
  {
    SeededInv(up, preview, now);
    RunKeepsInv(Seeded(up, preview, now), es);
  }

  /** Successive recorded edits are an interval apart, unless the socket was down when
      the later one was recorded or the previous flush had failed. */
  lemma EditsAreSpaced(up: bool, preview: string, now: int, es: seq<Event>, i: nat)
    requires Run(Seeded(up, preview, now), es).Some?
    requires 0 < i < |Run(Seeded(up, preview, now), es).value.records|
    ensures var rs := Run(Seeded(up, preview, now), es).value.records;
            rs[i].excused || rs[i].at - rs[i - 1].at >= LIVE_EDIT_INTERVAL_MS
  {
    SeededInv(up, preview, now);
    RunKeepsInv(Seeded(up, preview, now), es);
  }

  // ------------------------------------------------------ what ends a stream

  /** The event hands out the stream's final frame: a finalize of the pending stream, or the
      return of a live edit that did not get through while the stream was pending. */
  predicate MakesFinal(s: Stream, e: Event) {
    && s.pending
    && (e.Finalize? || (e.EditReturns? && s.call.Editing? && !(s.call.delivery.handed && e.outcome.Sent?)))
  }

  /** The event ends the stream for its consumer: a finalize that returned, such an edit, or
      the supervisor clearing a lost connection. */
  predicate Stops(s: Stream, e: Event) {
    e.FinalizeReturns? || e.SocketLost? || (e.EditReturns? && MakesFinal(s, e))
  }

  ghost predicate EverMakesFinal(s: Stream, es: seq<Event>)
    requires Run(s, es).Some?
    decreases |es|
  {
    es != [] && (MakesFinal(s, es[0]) || EverMakesFinal(Apply(s, es[0]), es[1..]))
  }

  ghost predicate EverStops(s: Stream, es: seq<Event>)
    requires Run(s, es).Some?
    decreases |es|
  {
    es != [] && (Stops(s, es[0]) || EverStops(Apply(s, es[0]), es[1..]))
  }

  predicate HasFinal(trace: seq<Delivery>) {
    exists i :: 0 <= i < |trace| && trace[i].frame.Final?
  }

  lemma HasFinalSnoc(trace: seq<Delivery>, d: Delivery)
    ensures HasFinal(trace + [d]) <==> HasFinal(trace) || d.frame.Final?
  {
    if HasFinal(trace) {
      var i :| 0 <= i < |trace| && trace[i].frame.Final?;
      assert (trace + [d])[i].frame.Final?;
    }
    assert (trace + [d])[|trace|] == d;
  }

  /** Which events append what to the trace. */
  lemma TraceGrows(s: Stream, e: Event) returns (made: seq<Delivery>)
    requires Enabled(s, e)
    ensures Apply(s, e).trace == s.trace + made && |made| <= 1
    ensures made != [] && made[0].frame.Final? <==> MakesFinal(s, e)
  {
    var longer := Apply(s, e).trace;
    made := longer[|s.trace|..];
  }

  lemma {:induction false} FinalAppears(s: Stream, es: seq<Event>)
    requires Run(s, es).Some?
    ensures HasFinal(Run(s, es).value.trace) <==> HasFinal(s.trace) || EverMakesFinal(s, es)
    decreases |es|
  {
    if es != [] {
      var made := TraceGrows(s, es[0]);
      FinalAppears(Apply(s, es[0]), es[1..]);
      if made != [] {
        assert made == [made[0]];
        HasFinalSnoc(s.trace, made[0]);
      } else {
        assert s.trace + made == s.trace;
      }
    }
  }

  lemma {:induction false} PendingUntilStopped(s: Stream, es: seq<Event>)
    requires Run(s, es).Some?
    ensures Run(s, es).value.pending <==> s.pending && !EverStops(s, es)
    decreases |es|
  {
    if es != [] {
      StepPending(s, es[0]);
      PendingUntilStopped(Apply(s, es[0]), es[1..]);
    }
  }

  lemma StepPending(s: Stream, e: Event)
    requires Enabled(s, e)
    ensures Apply(s, e).pending <==> s.pending && !Stops(s, e)
  {
  }

  /** In every run a final frame was made if and only if the run finalized the pending stream
      or a live edit failed while it was pending; and the stream is still pending if and only
      if no finalize returned, no edit so failed, and no connection was lost. */
  lemma EndsIff(up: bool, preview: string, now: int, es: seq<Event>)
    requires Run(Seeded(up, preview, now), es).Some?
    ensures var start, s := Seeded(up, preview, now), Run(Seeded(up, preview, now), es).value;
            && (HasFinal(s.trace) <==> EverMakesFinal(start, es))
            && (s.pending <==> !EverStops(start, es))
  {
    FinalAppears(Seeded(up, preview, now), es);
    PendingUntilStopped(Seeded(up, preview, now), es);
  }

  /** No finalize, no lost connection, and every edit that returns got through. */
  ghost predicate AllThrough(s: Stream, es: seq<Event>)
    requires Run(s, es).Some?
    decreases |es|
  {
    es == [] ||
    (!es[0].Finalize? && !es[0].SocketLost?
     && (es[0].EditReturns? ==> s.call.delivery.handed && es[0].outcome.Sent?)
     && AllThrough(Apply(s, es[0]), es[1..]))
  }

  lemma {:induction false} NothingEnds(s: Stream, es: seq<Event>)
    requires Run(s, es).Some? && !s.call.Finalizing? && AllThrough(s, es)
    ensures !EverMakesFinal(s, es) && !EverStops(s, es)
    decreases |es|
  {
    if es != [] {
      NothingEnds(Apply(s, es[0]), es[1..]);
    }
  }

  /** A stream whose edits all get through goes on: still pending, nothing final sent. */
  lemma EditsGoOn(up: bool, preview: string, now: int, es: seq<Event>)
    requires Run(Seeded(up, preview, now), es).Some? && AllThrough(Seeded(up, preview, now), es)
    ensures var s := Run(Seeded(up, preview, now), es).value;
            s.pending && forall i :: 0 <= i < |s.trace| ==> s.trace[i].frame.Delta?
  {
    NothingEnds(Seeded(up, preview, now), es);
    EndsIff(up, preview, now, es);
  }

  /** A live edit waits exactly if the socket is up, no flush has just failed and the last recorded
      edit is less than 800 ms old; otherwise it is recorded and sent at once. */
  lemma WaitsInside800(s: Stream, content: string, now: int, sealed: bool)
    requires s.pending && s.call.Idle?
    ensures var next := ApplyEdit(s, content, now, sealed);
            if s.up && !s.immediate && s.lastLive.Some? && now - s.lastLive.value < 800
            then next.stash == Some(content) && next.trace == s.trace && next.records == s.records && next.call.Idle?
            else && next.stash == None && next.text == Some(content) && next.call.Editing? && next.trace == s.trace + [next.call.delivery]
                 && next.call.delivery.handed == (sealed && s.up) && !next.immediate
  {
  }

  /** A flush that failed makes the next edit go out at once, however soon it comes; a flush
      that got through leaves the interval in force. */
  lemma FailedFlushIsRetried(s: Stream, task: nat, outcome: Outcome, content: string, now: int, sealed: bool)
    requires Inv(s) && s.pending && s.call.Idle? && Enabled(s, FlushReturns(task, outcome)) && now >= s.clock
    ensures var back := Apply(s, FlushReturns(task, outcome));
            var next := Apply(back, Edit(content, now, sealed));
            && back.pending
            && (!(s.tasks[task].delivery.handed && outcome.Sent?) ==>
              next.call.Editing? && next.stash.None? && |next.trace| == |s.trace| + 1 && !next.immediate)
            && (s.up && !s.immediate && s.tasks[task].delivery.handed && outcome.Sent? && now - Last(s).at < LIVE_EDIT_INTERVAL_MS ==>
              next.call.Idle? && next.stash == Some(content) && next.trace == s.trace)
  {
  }

  /** An edit, finalize or not, that comes once the stream is over. */
  predicate IsLate(s: Stream, e: Event) {
    !s.pending && (e.Edit? || e.Finalize?)
  }

  function LateEdits(s: Stream, es: seq<Event>): nat
    requires Run(s, es).Some?
    decreases |es|
  {
    if es == [] then 0 else (if IsLate(s, es[0]) then 1 else 0) + LateEdits(Apply(s, es[0]), es[1..])
  }

  /** Each late edit is the next revision, and touches nothing else but the clock. */
  lemma {:induction false} LateEditsAreRevisions(s: Stream, es: seq<Event>)
    requires Run(s, es).Some?
    ensures Run(s, es).value.revision == s.revision + LateEdits(s, es)
    ensures es != [] && IsLate(s, es[0]) ==> Apply(s, es[0]) == s.(clock := es[0].now, revision := s.revision + 1)
    decreases |es|
  {
    if es != [] {
      StepRevision(s, es[0]);
      LateEditsAreRevisions(Apply(s, es[0]), es[1..]);
    }
  }

  lemma StepRevision(s: Stream, e: Event)
    requires Enabled(s, e)
    ensures Apply(s, e).revision == s.revision + if IsLate(s, e) then 1 else 0
    ensures IsLate(s, e) ==> Apply(s, e) == s.(clock := e.now, revision := s.revision + 1)
  {
  }

  /** Nothing is kept of a stream that is over. */
  ghost predicate Forgotten(s: Stream) {
    !s.pending ==> s.text == None && s.rev == None && s.lastLive == None && s.stash == None && s.flush == None && !s.immediate
  }

  lemma {:induction false} RunForgets(s: Stream, es: seq<Event>)
    requires Forgotten(s) && Run(s, es).Some?
    ensures Forgotten(Run(s, es).value)
    decreases |es|
  {
    if es != [] {
      assert Forgotten(Apply(s, es[0]));
      RunForgets(Apply(s, es[0]), es[1..]);
    }
  }

  /** However a stream ended, its entries are gone; and a lost connection ends every stream. */
  lemma OverIsForgotten(up: bool, preview: string, now: int, es: seq<Event>)
    requires Run(Seeded(up, preview, now), es).Some?
    ensures Forgotten(Run(Seeded(up, preview, now), es).value)
    ensures var after := Apply(Run(Seeded(up, preview, now), es).value, SocketLost); !after.pending && !after.up && Forgotten(after)
  {
    RunForgets(Seeded(up, preview, now), es);
  }

  // ----------------------------------------------------------------- the phone

  /** The phone's copy: nothing yet, its text in code units at a revision, or the committed
      reply. */
  datatype Phone = Blank | Showing(units: seq<Unit>, rev: nat) | Committed(content: string)

  /** `stream.snapshot`: the recorded text, never the stashed one; None is `done`. */
  function Snapshot(s: Stream): Option<(string, nat)> {
    if !s.pending then None
    else Some((PreviousText(s), if s.rev.Some? then s.rev.value else 0))
  }

  function Reload(s: Stream, phone: Phone): Phone
    requires !phone.Committed?
  {
    match Snapshot(s)
    case None => phone
    case Some((text, rev)) => Showing(Encode(text), rev)
  }

  /** The phone applies a delta only when it is the next one, and otherwise reloads. */
  function Arrives(s: Stream, phone: Phone, frame: Frame): Phone
    requires !phone.Committed?
  {
    match frame
    case Final(_, content) => Committed(content)
    case Delta(rev, keep, append) =>
      if phone.Showing? && rev == phone.rev + 1 && keep <= |phone.units| then Showing(Patch(phone.units, keep, append), rev)
      else Reload(s, phone)
  }

  /** The preview counts only for a phone that shows nothing yet. */
  function PreviewArrives(s: Stream, phone: Phone): Phone
    requires !phone.Committed? && s.records != []
  {
    if phone.Blank? then Showing(Encode(s.records[0].text), 0) else Reload(s, phone)
  }

  /** One step of gateway, wire and phone together: the preview and the frames handed to
      the socket may arrive late, out of order, again, or never; a committed reply stays
      as it is. */
  datatype Joint = Gateway(e: Event) | Preview | Arrival(i: nat) | Resync

  datatype Link = Link(s: Stream, phone: Phone)

  predicate JointEnabled(l: Link, j: Joint) {
    match j
    case Gateway(e) => Enabled(l.s, e)
    case Preview => l.s.records != []
    case Arrival(i) => i < |l.s.trace| && l.s.trace[i].handed
    case Resync => true
  }

  function JointApply(l: Link, j: Joint): Link
    requires JointEnabled(l, j)
  {
    match j
    case Gateway(e) => l.(s := Apply(l.s, e))
    case Preview => if l.phone.Committed? then l else l.(phone := PreviewArrives(l.s, l.phone))
    case Arrival(i) => if l.phone.Committed? then l else l.(phone := Arrives(l.s, l.phone, l.s.trace[i].frame))
    case Resync => if l.phone.Committed? then l else l.(phone := Reload(l.s, l.phone))
  }

  function JointRun(l: Link, js: seq<Joint>): Option<Link>
    decreases |js|
  {
    if js == [] then Some(l)
    else if !JointEnabled(l, js[0]) then None
    else JointRun(JointApply(l, js[0]), js[1..])
  }

  /** The phone shows, at its revision, what the gateway recorded at that revision. */
  ghost predicate InSync(l: Link) {
    && Inv(l.s)
    && match l.phone
       case Blank => true
       case Showing(units, rev) => rev < |l.s.records| && units == Encode(l.s.records[rev].text)
       case Committed(content) => content == l.s.latest && Ended(l.s)
  }

  lemma RecordsGrow(s: Stream, e: Event)
    requires Enabled(s, e)
    ensures s.records <= Apply(s, e).records
  {
  }

  lemma EndIsFinal(s: Stream, e: Event)
    requires Inv(s) && Enabled(s, e) && Ended(s)
    ensures Ended(Apply(s, e)) && Apply(s, e).latest == s.latest
  {
  }

  /** Recorded revisions are never rewritten, and after the end nothing changes. */
  lemma HistoryGrows(s: Stream, e: Event)
    requires Inv(s) && Enabled(s, e)
    ensures s.records <= Apply(s, e).records
    ensures Ended(s) ==> Ended(Apply(s, e)) && Apply(s, e).latest == s.latest
  {
    RecordsGrow(s, e);
    if Ended(s) {
      EndIsFinal(s, e);
    }
  }

  lemma ArrivalKeepsInSync(l: Link, i: nat)
    requires InSync(l) && JointEnabled(l, Arrival(i)) && !l.phone.Committed?
    ensures InSync(l.(phone := Arrives(l.s, l.phone, l.s.trace[i].frame)))
  {
    var frame := l.s.trace[i].frame;
    InvWellFramed(l.s);
    assert DeltaAt(l.s.records, l.s.trace, i);
    if frame.Delta? && l.phone.Showing? && frame.rev == l.phone.rev + 1 {
      DeltaIsExact(l.s.records[i].text, l.s.records[i + 1].text, i + 1);
    }
  }

  lemma JointKeepsInSync(l: Link, j: Joint)
    requires InSync(l) && JointEnabled(l, j)
    ensures InSync(JointApply(l, j))
  {
    match j
    case Gateway(e) =>
      StepKeepsInv(l.s, e);
      HistoryGrows(l.s, e);
    case Arrival(i) =>
      if !l.phone.Committed? {
        ArrivalKeepsInSync(l, i);
      }
    case _ =>
  }

  lemma {:induction false} JointRunKeepsInSync(l: Link, js: seq<Joint>)
    requires InSync(l) && JointRun(l, js).Some?
    ensures InSync(JointRun(l, js).value)
    decreases |js|
  {
    if js != [] {
      JointKeepsInSync(l, js[0]);
      JointRunKeepsInSync(JointApply(l, js[0]), js[1..]);
    }
  }

  /** Whatever frames are lost, repeated or reordered, the preview included, and however
      edits, flushes and reloads interleave: a phone that starts with nothing holds at
      revision k exactly the text the gateway recorded at revision k, and a committed
      reply is the consumer's full text. */
  lemma PhoneConverges(up: bool, preview: string, now: int, js: seq<Joint>)
    requires JointRun(Link(Seeded(up, preview, now), Blank), js).Some?
    ensures var l := JointRun(Link(Seeded(up, preview, now), Blank), js).value;
            && (l.phone.Showing? ==> l.phone.rev < |l.s.records| && Decode(l.phone.units) == Some(l.s.records[l.phone.rev].text))
            && (l.phone.Committed? ==> l.phone.content == l.s.latest)
  {
    SeededInv(up, preview, now);
    var start := Link(Seeded(up, preview, now), Blank);
    JointRunKeepsInSync(start, js);
    var l := JointRun(start, js).value;
    if l.phone.Showing? {
      RoundTrip(l.s.records[l.phone.rev].text);
    }
  }

  /** A phone that has what came before needs no reload: the preview, and then the next delta, take it
      to the next revision. */
  lemma NextFrameApplies(l: Link, i: nat)
    requires InSync(l) && JointEnabled(l, Arrival(i)) && l.s.trace[i].frame.Delta?
    ensures l.phone == Blank ==> JointApply(l, Preview).phone == Showing(Encode(l.s.records[0].text), 0)
    ensures l.phone.Showing? && l.phone.rev == i ==>
              i + 1 < |l.s.records| && JointApply(l, Arrival(i)).phone == Showing(Encode(l.s.records[i + 1].text), i + 1)
  {
    InvWellFramed(l.s);
    assert DeltaAt(l.s.records, l.s.trace, i);
    if l.phone.Showing? && l.phone.rev == i {
      DeltaIsExact(l.s.records[i].text, l.s.records[i + 1].text, i + 1);
    }
  }

  /** Whatever the phone missed, one reload of a pending stream brings it to the newest
      revision. */
  lemma ReloadCatchesUp(l: Link)
    requires InSync(l) && l.s.pending && !l.phone.Committed?
    ensures JointApply(l, Resync).phone == Showing(Encode(Last(l.s).text), |l.s.records| - 1)
  {
  }
}
