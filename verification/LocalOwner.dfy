/** Submitting a phone message to the laptop session's owner (local_owner.py and the
    adapter's `_forward_local_owned` / `_run_local_owner`): one task per request id, a
    bounded table of them, and outcomes that say whether the turn may have committed. */
module LocalOwner {
  import opened Wrappers

  const TABLE_LIMIT: nat := 512

  type RequestId = string

  // ------------------------------------------------------------------ submit

  datatype Status = Queued | Started | Terminal | OtherStatus

  /** What the owner's `prompt.submit` call comes back with. `Refusal` is an RPC error
      whose reason is a string; every other exception is `Failure`. */
  datatype Answer =
    | Receipt(admission: Option<string>, status: Status)
    | NotAReceipt
    | Refusal(reason: string)
    | Failure

  /** Refused: re-raised as it is. Unconfirmed: the turn may have committed. */
  datatype Submission = Admitted(admission: string, status: Status) | Refused | Unconfirmed

  function Submit(answer: Answer, refusedBeforeCommit: set<string>): (r: Submission)
    ensures r.Refused? <==> answer.Refusal? && answer.reason in refusedBeforeCommit
    ensures r.Admitted? <==> answer.Receipt? && answer.admission.Some? && !answer.status.OtherStatus?
    ensures r.Admitted? ==> answer.admission == Some(r.admission) && r.status == answer.status
  {
    match answer
    case Refusal(reason) => if reason in refusedBeforeCommit then Refused else Unconfirmed
    case Failure => Unconfirmed
    case NotAReceipt => Unconfirmed
    case Receipt(admission, status) =>
      if admission.None? || status.OtherStatus? then Unconfirmed else Admitted(admission.value, status)
  }

  // ------------------------------------------------------- one task's lifetime

  /** A task before its submit, after an admission, or at its end: the three return
      values of `_run_local_owner`, an exception out of it, or cancellation. */
  datatype Task =
    | Connecting
    | AwaitingReply
    | ReturnedTrue
    | ReturnedFalse
    | ReturnedNone
    | RaisedOut
    | WasCancelled

  /** The owner's event stream after an admission, as far as it concerns the turn. */
  datatype OwnerFrame = Disconnected | Unrelated | Complete(text: Option<string>)

  /** The turn's first relevant frame decides; running out of frames is the timeout. */
  function ReplyOutcome(frames: seq<OwnerFrame>, delivered: bool): Task {
    if frames == [] then ReturnedNone
    else match frames[0]
      case Unrelated => ReplyOutcome(frames[1..], delivered)
      case Disconnected => ReturnedNone
      case Complete(text) => if text.Some? && delivered then ReturnedTrue else ReturnedNone
  }

  /** The turn's reply came: a completion with a text, nothing about the turn before it. */
  ghost predicate RepliesAt(frames: seq<OwnerFrame>, k: nat) {
    && k < |frames| && frames[k].Complete? && frames[k].text.Some?
    && forall j :: 0 <= j < k ==> frames[j].Unrelated?
  }

  ghost predicate Replies(frames: seq<OwnerFrame>) {
    exists k: nat :: RepliesAt(frames, k)
  }

  /** Awaiting the reply ends True exactly when it came and was delivered, and None otherwise. */
  lemma {:induction false} ReplyOutcomeIff(frames: seq<OwnerFrame>, delivered: bool)
    ensures ReplyOutcome(frames, delivered) == if delivered && Replies(frames) then ReturnedTrue else ReturnedNone
  {
    if frames != [] {
      var rest := frames[1..];
      assert forall i :: 0 <= i < |rest| ==> rest[i] == frames[i + 1];
      ReplyOutcomeIff(rest, delivered);
      if frames[0].Complete? && frames[0].text.Some? {
        assert RepliesAt(frames, 0);
      } else if frames[0].Unrelated? {
        if k: nat :| RepliesAt(rest, k) {
          assert RepliesAt(frames, k + 1);
        }
        if k: nat :| RepliesAt(frames, k) {
          assert RepliesAt(rest, k - 1);
        }
      }
    }
  }

  /** `_run_local_owner`: connecting fails, the submit is refused or unconfirmed, the
      admission is already terminal, or the reply is awaited on the event stream. */
  method RunLocalOwner(attached: bool, answer: Answer, refusedBeforeCommit: set<string>, saved: Option<string>,
                       frames: seq<OwnerFrame>, delivered: bool) returns (t: Task, submitted: bool)
    ensures submitted == attached
    ensures t.ReturnedFalse? <==> !attached || Submit(answer, refusedBeforeCommit).Refused?
    ensures t.ReturnedTrue? <==>
              && attached && Submit(answer, refusedBeforeCommit).Admitted? && delivered
              && (if answer.status.Terminal? then saved.Some? else Replies(frames))
    ensures t in {ReturnedTrue, ReturnedFalse, ReturnedNone}
  {
    if !attached {
      return ReturnedFalse, false;
    }
    submitted := true;
    var submission := Submit(answer, refusedBeforeCommit);
    if submission.Refused? {
      return ReturnedFalse, submitted;
    }
    if submission.Unconfirmed? {
      return ReturnedNone, submitted;
    }
    if submission.status.Terminal? {
      t := if saved.Some? && delivered then ReturnedTrue else ReturnedNone;
      return;
    }
    var k := 0;
    while k < |frames| && frames[k].Unrelated?
      invariant 0 <= k <= |frames|
      invariant forall j :: 0 <= j < k ==> frames[j].Unrelated?
    {
      k := k + 1;
    }
    if k == |frames| || frames[k].Disconnected? {
      t := ReturnedNone;
    } else {
      assert frames[k].text.Some? ==> RepliesAt(frames, k);
      t := if frames[k].text.Some? && delivered then ReturnedTrue else ReturnedNone;
    }
  }

  // ------------------------------------------------------------- the task table

  datatype Entry = Entry(id: RequestId, task: Task)

  /** The insertion-ordered dictionary of tasks. */
  type Table = seq<Entry>

  predicate Unique(table: Table) {
    forall i, j :: 0 <= i < j < |table| ==> table[i].id != table[j].id
  }

  function TaskOf(table: Table, id: RequestId): Option<Task> {
    if table == [] then None
    else if table[0].id == id then Some(table[0].task)
    else TaskOf(table[1..], id)
  }

  function Remove(table: Table, id: RequestId): Table {
    if table == [] then []
    else if table[0].id == id then table[1..]
    else [table[0]] + Remove(table[1..], id)
  }

  function Replace(table: Table, id: RequestId, task: Task): Table {
    if table == [] then []
    else if table[0].id == id then [Entry(id, task)] + table[1..]
    else [table[0]] + Replace(table[1..], id, task)
  }

  /** The eviction pass with `kept` behind it and `rest` ahead: it stops once there is
      room for one more. */
  function Sweep(kept: Table, rest: Table): Table
    decreases |rest|
  {
    if rest == [] || |kept| + |rest| < TABLE_LIMIT then kept + rest
    else if rest[0].task.ReturnedTrue? then Sweep(kept, rest[1..])
    else Sweep(kept + [rest[0]], rest[1..])
  }

  predicate Admits(table: Table, id: RequestId) {
    TaskOf(table, id).None? || TaskOf(table, id) == Some(ReturnedFalse)
  }

  /** The table after a message for `id` was forwarded. */
  function Forwarded(table: Table, id: RequestId): Table {
    if !Admits(table, id) then table
    else Sweep([], Remove(table, id)) + [Entry(id, Connecting)]
  }

  class OwnerTable {
    var tasks: Table

    constructor ()
      ensures tasks == []
    {
      tasks := [];
    }

    method EvictFinished()
      requires Unique(tasks)
      modifies this
      ensures tasks == Sweep([], old(tasks))
    {
      var snapshot := tasks;
      ghost var kept: Table, rest: Table := [], snapshot;
      assert [] + snapshot == snapshot;
      var k := 0;
      while k < |snapshot| && |tasks| >= TABLE_LIMIT
        invariant 0 <= k <= |snapshot| && rest == snapshot[k..]
        invariant tasks == kept + rest && Unique(tasks)
        invariant Sweep(kept, rest) == Sweep([], snapshot)
      {
        SweepStep(kept, rest);
        SweepUnfolds(kept, rest);
        if snapshot[k].task.ReturnedTrue? {
          tasks := Remove(tasks, snapshot[k].id);
        } else {
          kept := kept + [snapshot[k]];
        }
        rest := rest[1..];
        k := k + 1;
      }
      SweepEnds(kept, rest);
    }

    /** `_forward_local_owned` once the request id is known. */
    method ForwardLocalOwned(id: RequestId) returns (started: bool)
      requires Unique(tasks)
      modifies this
      ensures started == Admits(old(tasks), id)
      ensures started <==> forall e :: e in old(tasks) && e.id == id ==> e.task.ReturnedFalse?
      ensures tasks == Forwarded(old(tasks), id)
    {
      AdmitsIff(tasks, id);
      var previous := TaskOf(tasks, id);
      if previous.Some? {
        if previous.value.ReturnedFalse? {
          tasks := Remove(tasks, id);
        } else {
          return false;
        }
      }
      RemoveLookup(old(tasks), id, id);
      EvictFinished();
      tasks := tasks + [Entry(id, Connecting)];
      return true;
    }
  }

  /** A message is taken up unless its id has an attempt that did not end False. */
  lemma {:induction false} AdmitsIff(table: Table, id: RequestId)
    requires Unique(table)
    ensures Admits(table, id) <==> forall e :: e in table && e.id == id ==> e.task.ReturnedFalse?
  {
    if table != [] {
      var tail := table[1..];
      assert forall i :: 0 <= i < |tail| ==> tail[i] == table[i + 1];
      assert forall e :: e in table <==> e == table[0] || e in tail;
      if table[0].id == id {
        TaskOfTail(table, id);
        AbsentIff(tail, id);
        assert forall e :: e in tail ==> e.id != id;
      } else {
        AdmitsIff(tail, id);
      }
    }
  }

  /** One step of the eviction pass. */
  lemma SweepStep(kept: Table, rest: Table)
    requires rest != [] && Unique(kept + rest)
    ensures Remove(kept + rest, rest[0].id) == kept + rest[1..] && Unique(kept + rest[1..])
    ensures (kept + [rest[0]]) + rest[1..] == kept + rest
  {
    var all := kept + [rest[0]] + rest[1..];
    assert all == kept + rest;
    RemoveMiddle(kept, rest[0], rest[1..]);
  }

  lemma SweepUnfolds(kept: Table, rest: Table)
    requires rest != [] && |kept| + |rest| >= TABLE_LIMIT
    ensures Sweep(kept, rest) == if rest[0].task.ReturnedTrue? then Sweep(kept, rest[1..]) else Sweep(kept + [rest[0]], rest[1..])
  {
  }

  lemma SweepEnds(kept: Table, rest: Table)
    requires rest == [] || |kept + rest| < TABLE_LIMIT
    ensures Sweep(kept, rest) == kept + rest
  {
  }

  lemma RemoveMiddle(before: Table, e: Entry, after: Table)
    requires Unique(before + [e] + after)
    ensures Remove(before + [e] + after, e.id) == before + after && Unique(before + after)
  {
    var all := before + [e] + after;
    assert forall i :: 0 <= i < |before + after| ==> (before + after)[i] == all[if i < |before| then i else i + 1];
    if before == [] {
      assert all[1..] == after;
    } else {
      var tail := before[1..] + [e] + after;
      assert all[1..] == tail && all[0] == before[0] && all[|before|] == e;
      assert forall i :: 0 <= i < |tail| ==> tail[i] == all[i + 1];
      RemoveMiddle(before[1..], e, after);
    }
  }

  lemma TaskOfTail(table: Table, id: RequestId)
    requires Unique(table) && table != [] && table[0].id == id
    ensures TaskOf(table[1..], id).None?
  {
    AbsentIff(table[1..], id);
  }

  lemma AbsentIff(table: Table, id: RequestId)
    ensures TaskOf(table, id).None? <==> forall i :: 0 <= i < |table| ==> table[i].id != id
  {
    if table != [] && table[0].id != id {
      AbsentIff(table[1..], id);
      assert forall i :: 0 < i < |table| ==> table[i] == table[1..][i - 1];
    }
  }

  lemma TaskOfConcat(a: Table, b: Table, id: RequestId)
    ensures TaskOf(a + b, id) == if TaskOf(a, id).Some? then TaskOf(a, id) else TaskOf(b, id)
  {
    if a == [] {
      assert a + b == b;
    } else {
      assert (a + b)[1..] == a[1..] + b;
      TaskOfConcat(a[1..], b, id);
    }
  }

  lemma RemoveLookup(table: Table, id: RequestId, other: RequestId)
    requires Unique(table)
    ensures Unique(Remove(table, id))
    ensures TaskOf(Remove(table, id), other) == if other == id then None else TaskOf(table, other)
    ensures TaskOf(table, id).None? ==> Remove(table, id) == table
    ensures forall e :: e in Remove(table, id) ==> e in table
  {
    if table != [] {
      var tail := table[1..];
      assert forall i :: 0 <= i < |tail| ==> tail[i] == table[i + 1];
      if table[0].id == id {
        TaskOfTail(table, id);
      } else {
        RemoveLookup(tail, id, other);
        var rest := Remove(tail, id);
        assert forall i :: 0 <= i < |rest| ==> rest[i] in tail;
        assert Remove(table, id)[1..] == rest;
      }
    }
  }
}
