/** The adapter's entries for one streamed reply, updated in place. Each method is one
    uninterrupted stretch of `edit_message`, the flush task or the supervisor, and does
    what `StreamDelta.Apply` says; a missing dictionary key is None. */
module StreamedReplies {
  import opened Wrappers
  import opened Utf16
  import opened StreamDelta

  class StreamedReply {
    var wsUp: bool
    var streamPending: bool
    var streamText: Option<string>
    var streamRev: Option<nat>
    var streamLastLive: Option<int>
    var streamStash: Option<string>
    var streamFlush: Option<nat>
    var streamImmediate: bool
    var tasks: seq<Task>
    var call: Call
    var messageRevision: nat
    ghost var records: seq<Record>
    ghost var trace: seq<Delivery>
    ghost var posts: seq<Frame>
    ghost var inbox: seq<Frame>
    ghost var latest: string
    ghost var clock: int

    ghost function View(): Stream
      reads this
    {
      Stream(wsUp, streamPending, streamText, streamRev, streamLastLive, streamStash, streamFlush,
             streamImmediate, tasks, call, messageRevision, records, trace, posts, inbox, latest, clock)
    }

    ghost predicate Valid()
      reads this
    {
      Inv(View())
    }

    /** The tail of `send` for a message that will be edited. */
    constructor (up: bool, preview: string, now: int)
      ensures View() == Seeded(up, preview, now)
    {
      wsUp, streamPending, streamText, streamRev, streamLastLive := up, true, Some(preview), Some(0), Some(now);
      streamStash, streamFlush, streamImmediate, tasks, call := None, None, false, [], Idle;
      messageRevision := 0;
      records, trace, posts, inbox, latest, clock := [Record(preview, now, true)], [], [], [], preview, now;
    }

    method StreamEditPayload(content: string, finalize: bool) returns (frame: Frame)
      ensures frame == if finalize then Final(NextRev(View()), content)
                       else DeltaFrom(PreviousText(View()), content, NextRev(View()))
    {
      var previous := if streamText.Some? then streamText.value else "";
      var rev: nat := if streamRev.Some? then streamRev.value + 1 else 1;
      var prefix := 0;
      while prefix < |previous| && prefix < |content| && previous[prefix] == content[prefix]
        invariant prefix <= |previous| && prefix <= |content|
        invariant previous[..prefix] == content[..prefix]
        decreases |previous| - prefix
      {
        prefix := prefix + 1;
      }
      LongestPrefixIsUnique(previous, content, prefix);
      frame := if finalize then Final(rev, content) else Delta(rev, |Encode(content[..prefix])|, content[prefix..]);
    }

    method RecordStreamEdit(content: string, rev: nat, now: int)
      modifies this`streamText, this`streamRev, this`streamLastLive
      ensures View() == old(View()).(text := Some(content), rev := Some(rev), lastLive := Some(now))
    {
      streamText, streamRev, streamLastLive := Some(content), Some(rev), Some(now);
    }

    /** The next delta, recorded as the new base before it is handed over. */
    method MakeDelta(content: string, now: int, sealed: bool, ghost excused: bool) returns (d: Delivery)
      modifies this`streamText, this`streamRev, this`streamLastLive, this`records, this`trace
      ensures (View(), d) == Advance(old(View()), content, now, sealed, excused)
    {
      var frame := StreamEditPayload(content, false);
      d := Delivery(frame, sealed, sealed && wsUp);
      RecordStreamEdit(content, frame.rev, now);
      records := records + [Record(content, now, excused)];
      trace := trace + [d];
    }

    method CancelRegisteredFlush()
      modifies this`streamFlush, this`tasks
      ensures View() == CancelFlush(old(View()))
    {
      if streamFlush.Some? && streamFlush.value < |tasks| {
        tasks := tasks[streamFlush.value := Cancelled];
      }
      streamFlush := None;
    }

    method ClearStreamEdit()
      modifies this
      ensures View() == Clear(old(View()))
    {
      CancelRegisteredFlush();
      streamLastLive, streamStash, streamImmediate, streamText, streamRev := None, None, false, None, None;
    }

    /** `edit_message` up to its first await. On a reply that is over, finalize or not, it
        posts the content as the returned revision, under a message id of its own. */
    method EditMessage(content: string, finalize: bool, now: int, sealed: bool) returns (revision: Option<nat>)
      requires call.Idle? && now >= clock
      modifies this
      ensures View() == if finalize then ApplyFinalize(old(View()), content, now, sealed)
                        else ApplyEdit(old(View()), content, now, sealed)
      ensures revision == if old(streamPending) then None else Some(View().revision)
    {
      clock := now;
      if !streamPending {
        messageRevision := messageRevision + 1;
        return Some(messageRevision);
      }
      revision := None;
      latest := content;
      if finalize {
        SendFinal(content, sealed);
      } else {
        EditLive(content, now, sealed);
      }
    }

    method EditLive(content: string, now: int, sealed: bool)
      modifies this
      ensures View() == if Stashes(old(View()), now) then StashEdit(old(View()), content)
                        else SendEdit(old(View()), content, now, sealed)
    {
      var immediate := streamImmediate;
      streamImmediate := false;
      if wsUp && !immediate && streamLastLive.Some? && now - streamLastLive.value < LIVE_EDIT_INTERVAL_MS {
        StashAndSchedule(content);
      } else {
        assert View().(immediate := immediate) == old(View());
        SendLive(content, now, sealed, immediate);
      }
    }

    method SendFinal(content: string, sealed: bool)
      modifies this
      ensures var d := Deliver(old(View()), Final(NextRev(old(View())), content), sealed);
              View() == CancelFlush(old(View())).(stash := None, call := Finalizing(d), trace := old(trace) + [d])
    {
      CancelRegisteredFlush();
      streamStash := None;
      var final := StreamEditPayload(content, true);
      var d := Delivery(final, sealed, sealed && wsUp);
      trace := trace + [d];
      call := Finalizing(d);
    }

    method StashAndSchedule(content: string)
      requires streamLastLive.Some?
      modifies this`streamStash, this`streamFlush, this`tasks
      ensures View() == StashEdit(old(View()), content)
    {
      streamStash := Some(content);
      if streamFlush.None? {
        streamFlush := Some(|tasks|);
        tasks := tasks + [Sleeping(streamLastLive.value + LIVE_EDIT_INTERVAL_MS)];
      }
    }

    method SendLive(content: string, now: int, sealed: bool, immediate: bool)
      requires !streamImmediate
      modifies this
      ensures View() == SendEdit(old(View()).(immediate := immediate), content, now, sealed)
    {
      ghost var before := View();
      CancelRegisteredFlush();
      streamStash := None;
      assert View() == CancelFlush(before.(immediate := immediate)).(stash := None, immediate := false);
      var d := MakeDelta(content, now, sealed, !wsUp || immediate);
      call := Editing(d, content);
    }

    /** A finalize that was delivered, or not, ends the stream. */
    method EndStream(d: Delivery, outcome: Outcome, landed: bool)
      modifies this
      ensures View() == Clear(StreamDelta.Posted(old(View()), d, outcome, landed)).(pending := false)
    {
      var _ := PostDurably(d, outcome, landed);
      streamPending := false;
      ClearStreamEdit();
    }

    /** `edit_message` after the await of its delivery. */
    method EditResumes(outcome: Outcome, sealed: bool, landed: bool)
      requires !call.Idle?
      modifies this
      ensures View() == Apply(old(View()), Resumption(old(call), outcome, sealed, landed))
      ensures old(call).Editing? && old(call).delivery.handed && outcome.Sent? ==> View() == old(View()).(call := Idle)
    {
      match call
      case Finalizing(d) =>
        EndStream(d, outcome, landed);
      case FallingBack(d) =>
        var _ := PostDurably(d, outcome, landed);
      case Editing(d, content) =>
        if (d.handed && outcome.Sent?) || !streamPending {
          call := Idle;
        } else {
          FallBack(d.frame.rev, content, sealed);
        }
    }

    /** The end of a durable `_deliver`: whether it reached the enqueue, and whether the
        message got through either way. */
    method PostDurably(d: Delivery, outcome: Outcome, landed: bool) returns (success: bool)
      modifies this`call, this`posts, this`inbox
      ensures View() == StreamDelta.Posted(old(View()), d, outcome, landed)
      ensures success == ((d.sealed && LiveOk(d, outcome)) || View().inbox != old(View()).inbox)
    {
      call := Idle;
      if !d.sealed {
        return false;
      }
      var live := false;
      if d.handed {
        if outcome.Broken? {
          return false;
        }
        live := outcome.Sent?;
      }
      posts := posts + [d.frame];
      if landed {
        inbox := inbox + [d.frame];
      }
      return live || landed;
    }

    method FallBack(rev: nat, content: string, sealed: bool)
      modifies this
      ensures var fallback := Deliver(old(View()), Final(rev, content), sealed);
              View() == Clear(old(View())).(pending := false, call := FallingBack(fallback), trace := old(trace) + [fallback])
    {
      streamPending := false;
      ClearStreamEdit();
      var fallback := Delivery(Final(rev, content), sealed, sealed && wsUp);
      trace := trace + [fallback];
      call := FallingBack(fallback);
    }

    /** The flush task when its sleep is over, up to the await of its delivery. */
    method FlushWakes(now: int, sealed: bool)
      requires Enabled(View(), Wake(now, sealed))
      modifies this
      ensures View() == ApplyWake(old(View()), now, sealed)
    {
      var task := streamFlush.value;
      clock := now;
      streamFlush := None;
      var content := streamStash;
      streamStash := None;
      if !streamPending || content.None? {
        tasks := tasks[task := Over];
        return;
      }
      var d := MakeDelta(content.value, now, sealed, !wsUp || streamImmediate);
      tasks := tasks[task := Sending(d)];
    }

    /** The flush task after its delivery, and its `finally`. */
    method FlushResumes(task: nat, outcome: Outcome)
      requires Enabled(View(), FlushReturns(task, outcome))
      modifies this
      ensures View() == ApplyFlushReturns(old(View()), task, outcome)
    {
      if streamPending && !(tasks[task].delivery.handed && outcome.Sent?) {
        streamImmediate := true;
      }
      LeaveFlush(task);
    }

    /** The `finally` of a flush task: it unregisters itself, never another. */
    method LeaveFlush(task: nat)
      requires task < |tasks|
      modifies this`tasks, this`streamFlush
      ensures View() == old(View()).(tasks := old(tasks)[task := Over],
                                     flush := if old(streamFlush) == Some(task) then None else old(streamFlush))
    {
      tasks := tasks[task := Over];
      if streamFlush == Some(task) {
        streamFlush := None;
      }
    }

    /** The supervisor, when a connection's receive loop has ended. */
    method SupervisorClears()
      modifies this
      ensures View() == Apply(old(View()), SocketLost)
      ensures !wsUp && !streamPending && call == old(call) && trace == old(trace)
    {
      wsUp := false;
      if streamPending {
        ClearStreamEdit();
      }
      streamPending := false;
    }

    method StreamSnapshot() returns (r: Option<(string, nat)>)
      requires Valid()
      ensures r == if streamPending then Some((Last(View()).text, |records| - 1)) else None
    {
      if !streamPending {
        return None;
      }
      return Some((if streamText.Some? then streamText.value else "", if streamRev.Some? then streamRev.value else 0));
    }
  }

  /** Which step a suspended `edit_message` takes when its delivery returns. */
  function Resumption(call: Call, outcome: Outcome, sealed: bool, landed: bool): Event
    requires !call.Idle?
  {
    match call
    case Editing(_, _) => EditReturns(outcome, sealed)
    case Finalizing(_) => FinalizeReturns(outcome, landed)
    case FallingBack(_) => FallbackReturns(outcome, landed)
  }

  lemma LongestPrefixIsUnique(a: string, b: string, k: nat)
    requires k <= |a| && k <= |b| && a[..k] == b[..k]
    requires k < |a| && k < |b| ==> a[k] != b[k]
    ensures k == CommonPrefix(a, b)
  {
    var p := CommonPrefix(a, b);
    assert forall i :: 0 <= i < k ==> a[..k][i] == a[i] && b[..k][i] == b[i];
    assert forall i :: 0 <= i < p ==> a[..p][i] == a[i] && b[..p][i] == b[i];
  }
}
