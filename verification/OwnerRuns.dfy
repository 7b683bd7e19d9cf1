/** Whole lifetimes of the owner table: redeliveries, submits, replies, failures and
    cancellations in any order. The owner here does NOT deduplicate submission ids, so
    the bounds say what the table alone guarantees. */
module OwnerRuns {
  import opened Wrappers
  import opened LocalOwner

  // ------------------------------------------------------ what eviction removes

  /** The entries that may never be evicted, in order. */
  function Lasting(table: Table): Table {
    if table == [] then []
    else if table[0].task.ReturnedTrue? then Lasting(table[1..])
    else [table[0]] + Lasting(table[1..])
  }

  function Delivered(table: Table): Table {
    if table == [] then []
    else if table[0].task.ReturnedTrue? then [table[0]] + Delivered(table[1..])
    else Delivered(table[1..])
  }

  lemma {:induction false} LastingConcat(a: Table, b: Table)
    ensures Lasting(a + b) == Lasting(a) + Lasting(b)
  {
    if a == [] {
      assert a + b == b;
    } else {
      LastingConcat(a[1..], b);
      assert (a + b)[0] == a[0] && (a + b)[1..] == a[1..] + b;
      if !a[0].task.ReturnedTrue? {
        assert [a[0]] + (Lasting(a[1..]) + Lasting(b)) == ([a[0]] + Lasting(a[1..])) + Lasting(b);
      }
    }
  }

  lemma {:induction false} DeliveredConcat(a: Table, b: Table)
    ensures Delivered(a + b) == Delivered(a) + Delivered(b)
  {
    if a == [] {
      assert a + b == b;
    } else {
      DeliveredConcat(a[1..], b);
      assert (a + b)[0] == a[0] && (a + b)[1..] == a[1..] + b;
      if a[0].task.ReturnedTrue? {
        assert [a[0]] + (Delivered(a[1..]) + Delivered(b)) == ([a[0]] + Delivered(a[1..])) + Delivered(b);
      }
    }
  }

  lemma SplitConcat(a: Table, b: Table)
    ensures Lasting(a + b) == Lasting(a) + Lasting(b)
    ensures Delivered(a + b) == Delivered(a) + Delivered(b)
  {
    LastingConcat(a, b);
    DeliveredConcat(a, b);
  }

  /** Every entry that is not a delivered one stays, in order. */
  lemma {:induction false} SweepKeepsLasting(kept: Table, rest: Table)
    ensures Lasting(Sweep(kept, rest)) == Lasting(kept + rest)
    decreases |rest|
  {
    if rest != [] && |kept| + |rest| >= TABLE_LIMIT {
      assert [rest[0]] + rest[1..] == rest;
      SplitConcat(kept, rest);
      SplitConcat([rest[0]], rest[1..]);
      if rest[0].task.ReturnedTrue? {
        assert Lasting([rest[0]]) == [];
        SplitConcat(kept, rest[1..]);
        SweepKeepsLasting(kept, rest[1..]);
      } else {
        assert kept + rest == (kept + [rest[0]]) + rest[1..];
        SweepKeepsLasting(kept + [rest[0]], rest[1..]);
      }
    }
  }

  /** The delivered entries left are the newest ones, and eviction drops no more than
      makes room for one entry, giving up only when none is left. */
  ghost predicate DropsOldest(table: Table, swept: Table) {
    && |swept| <= |table|
    && |table| - |swept| <= |Delivered(table)|
    && Delivered(swept) == Delivered(table)[|table| - |swept|..]
    && (|swept| < TABLE_LIMIT || Delivered(swept) == [])
    && (|swept| < |table| ==> |swept| >= TABLE_LIMIT - 1)
  }

  lemma {:induction false} SweepDropsOldest(kept: Table, rest: Table)
    requires Delivered(kept) == []
    ensures DropsOldest(kept + rest, Sweep(kept, rest))
    decreases |rest|
  {
    if rest == [] {
      assert kept + rest == kept;
    } else if |kept| + |rest| >= TABLE_LIMIT {
      assert [rest[0]] + rest[1..] == rest;
      SplitConcat(kept, rest);
      SplitConcat([rest[0]], rest[1..]);
      if rest[0].task.ReturnedTrue? {
        SplitConcat(kept, rest[1..]);
        SweepDropsOldest(kept, rest[1..]);
        assert Delivered(rest) == [rest[0]] + Delivered(rest[1..]);
      } else {
        SplitConcat(kept, [rest[0]]);
        assert kept + rest == (kept + [rest[0]]) + rest[1..];
        SweepDropsOldest(kept + [rest[0]], rest[1..]);
      }
    }
  }

  /** For each id eviction keeps the task, unless it was a delivered one. */
  lemma {:induction false} SweepLookup(kept: Table, rest: Table, id: RequestId)
    requires Unique(kept + rest)
    ensures Unique(Sweep(kept, rest))
    ensures TaskOf(Sweep(kept, rest), id) == TaskOf(kept + rest, id)
         || (TaskOf(kept + rest, id) == Some(ReturnedTrue) && TaskOf(Sweep(kept, rest), id).None?)
    decreases |rest|
  {
    if rest != [] && |kept| + |rest| >= TABLE_LIMIT {
      if rest[0].task.ReturnedTrue? {
        RemoveRest(kept, rest);
        RemoveLookup(kept + rest, rest[0].id, id);
        SweepLookup(kept, rest[1..], id);
        if id == rest[0].id {
          LookupAt(kept + rest, |kept|);
        }
      } else {
        assert kept + rest == (kept + [rest[0]]) + rest[1..];
        SweepLookup(kept + [rest[0]], rest[1..], id);
      }
    }
  }

  lemma RemoveRest(kept: Table, rest: Table)
    requires rest != [] && Unique(kept + rest)
    ensures Remove(kept + rest, rest[0].id) == kept + rest[1..] && Unique(kept + rest[1..])
  {
    SweepStep(kept, rest);
  }

  lemma LookupAt(table: Table, k: nat)
    requires Unique(table) && k < |table|
    ensures TaskOf(table, table[k].id) == Some(table[k].task)
  {
    if k > 0 {
      var tail := table[1..];
      assert forall i :: 0 <= i < |tail| ==> tail[i] == table[i + 1];
      LookupAt(tail, k - 1);
    }
  }

  lemma ReplaceLookup(table: Table, id: RequestId, task: Task, other: RequestId)
    requires Unique(table)
    ensures |Replace(table, id, task)| == |table|
    ensures forall i :: 0 <= i < |table| ==> Replace(table, id, task)[i].id == table[i].id
    ensures Unique(Replace(table, id, task))
    ensures TaskOf(Replace(table, id, task), other)
         == if other == id && TaskOf(table, id).Some? then Some(task) else TaskOf(table, other)
  {
    if table != [] && table[0].id != id {
      var tail := table[1..];
      assert forall i :: 0 <= i < |tail| ==> tail[i] == table[i + 1];
      ReplaceLookup(tail, id, task, other);
      assert Replace(table, id, task)[1..] == Replace(tail, id, task);
    }
  }

  /** What forwarding a message does to the task of any id. */
  lemma ForwardLookup(table: Table, id: RequestId, other: RequestId)
    requires Unique(table)
    ensures Unique(Forwarded(table, id))
    ensures var before, after := TaskOf(table, other), TaskOf(Forwarded(table, id), other);
            if other == id && Admits(table, id) then after == Some(Connecting)
            else after == before || (before == Some(ReturnedTrue) && after.None? && other != id)
  {
    if Admits(table, id) {
      var left := Remove(table, id);
      var swept := Sweep([], left);
      assert [] + left == left;
      RemoveLookup(table, id, id);
      RemoveLookup(table, id, other);
      SweepLookup([], left, id);
      SweepLookup([], left, other);
      AbsentIff(swept, id);
      TaskOfConcat(swept, [Entry(id, Connecting)], other);
    }
  }

  // --------------------------------------------------------------------- runs

  /** The table, and per request id how often it was submitted, refused, committed by
      the owner, and evicted. */
  datatype World = World(
    table: Table,
    submits: multiset<RequestId>,
    refusals: multiset<RequestId>,
    commits: multiset<RequestId>,
    evictions: multiset<RequestId>)

  datatype Event =
    | Forward(id: RequestId)
    | Unattached(id: RequestId)                               // no submit was made
    | Submitted(id: RequestId, result: Submission, committed: bool)
    // What followed an admission, and whether the reply in it was delivered. A turn that
    // was terminal at once is the one frame holding its saved text.
    | ReplyEnds(id: RequestId, frames: seq<OwnerFrame>, delivered: bool)
    // An exception out of the task, or its cancellation; either may strike while the
    // submit is in flight.
    | Breaks(id: RequestId, cancelled: bool, submitted: bool, committed: bool)

  predicate Enabled(w: World, e: Event) {
    match e
    case Forward(_) => true
    case Unattached(id) => TaskOf(w.table, id) == Some(Connecting)
    // A refusal means nothing committed, an admission means the turn did; an
    // unconfirmed submit may be either.
    case Submitted(id, result, committed) => TaskOf(w.table, id) == Some(Connecting)
      && (result.Refused? ==> !committed) && (result.Admitted? ==> committed)
    case ReplyEnds(id, _, _) => TaskOf(w.table, id) == Some(AwaitingReply)
    case Breaks(id, _, submitted, committed) =>
      && TaskOf(w.table, id) in {Some(Connecting), Some(AwaitingReply)}
      && (committed ==> submitted)
      && (submitted ==> TaskOf(w.table, id) == Some(Connecting))
  }

  function AfterSubmit(result: Submission): Task {
    match result
    case Admitted(_, _) => AwaitingReply
    case Refused => ReturnedFalse
    case Unconfirmed => ReturnedNone
  }

  function If(b: bool, id: RequestId): multiset<RequestId> {
    if b then multiset{id} else multiset{}
  }

  /** The ids whose entry left the table. */
  function Gone(before: Table, after: Table): multiset<RequestId> {
    multiset(set i | 0 <= i < |before| && TaskOf(after, before[i].id).None? :: before[i].id)
  }

  function Apply(w: World, e: Event): World {
    match e
    case Forward(id) =>
      var after := Forwarded(w.table, id);
      w.(table := after, evictions := w.evictions + Gone(w.table, after))
    case Unattached(id) => w.(table := Replace(w.table, id, ReturnedFalse))
    case Submitted(id, result, committed) =>
      w.(table := Replace(w.table, id, AfterSubmit(result)),
         submits := w.submits + multiset{id},
         refusals := w.refusals + If(result.Refused?, id),
         commits := w.commits + If(committed, id))
    case ReplyEnds(id, frames, delivered) => w.(table := Replace(w.table, id, ReplyOutcome(frames, delivered)))
    case Breaks(id, cancelled, submitted, committed) =>
      w.(table := Replace(w.table, id, if cancelled then WasCancelled else RaisedOut),
         submits := w.submits + If(submitted, id),
         commits := w.commits + If(committed, id))
  }

  function Run(w: World, es: seq<Event>): Option<World>
    decreases |es|
  {
    if es == [] then Some(w)
    else if !Enabled(w, es[0]) then None
    else Run(Apply(w, es[0]), es[1..])
  }

  function Empty(): World {
    World([], multiset{}, multiset{}, multiset{}, multiset{})
  }

  /** Whether the current attempt for an id may already have been submitted and committed. */
  predicate Spent(task: Option<Task>) {
    task.Some? && !task.value.Connecting? && !task.value.ReturnedFalse?
  }

  /** The books of one request id balance. */
  ghost predicate Balanced(w: World, id: RequestId) {
    && Unique(w.table)
    && var one := if Spent(TaskOf(w.table, id)) then 1 else 0;
       && w.commits[id] <= w.evictions[id] + one
       && w.submits[id] <= w.refusals[id] + w.evictions[id] + one
  }

  lemma GoneCounts(before: Table, after: Table, id: RequestId)
    ensures Gone(before, after)[id] == if TaskOf(before, id).Some? && TaskOf(after, id).None? then 1 else 0
  {
    AbsentIff(before, id);
    var ids := set i | 0 <= i < |before| && TaskOf(after, before[i].id).None? :: before[i].id;
    assert id in ids <==> TaskOf(before, id).Some? && TaskOf(after, id).None?;
  }

  lemma StepKeepsBalanced(w: World, e: Event, id: RequestId)
    requires Balanced(w, id) && Enabled(w, e)
    ensures Balanced(Apply(w, e), id)
  {
    match e
    case Forward(other) =>
      ForwardLookup(w.table, other, id);
      GoneCounts(w.table, Forwarded(w.table, other), id);
    case Unattached(other) => ReplaceLookup(w.table, other, ReturnedFalse, id);
    case Submitted(other, result, _) => ReplaceLookup(w.table, other, AfterSubmit(result), id);
    case ReplyEnds(other, frames, delivered) =>
      ReplyOutcomeIff(frames, delivered);
      ReplaceLookup(w.table, other, ReplyOutcome(frames, delivered), id);
    case Breaks(other, cancelled, _, _) =>
      ReplaceLookup(w.table, other, if cancelled then WasCancelled else RaisedOut, id);
  }

  lemma {:induction false} RunKeepsBalanced(w: World, es: seq<Event>, id: RequestId)
    requires Balanced(w, id) && Run(w, es).Some?
    ensures Balanced(Run(w, es).value, id)
    decreases |es|
  {
    if es != [] {
      StepKeepsBalanced(w, es[0], id);
      RunKeepsBalanced(Apply(w, es[0]), es[1..], id);
    }
  }

  /** Over any interleaving of redeliveries and task endings: a request is submitted
      again only once per refusal (nothing committed) or eviction of its delivered
      entry, and its turn commits at most once more than its delivered entry was
      evicted, even by an owner that never deduplicates. */
  lemma AtMostOnce(es: seq<Event>, id: RequestId)
    requires Run(Empty(), es).Some?
    ensures var w := Run(Empty(), es).value;
            && w.submits[id] <= 1 + w.refusals[id] + w.evictions[id]
            && w.commits[id] <= 1 + w.evictions[id]
  {
    RunKeepsBalanced(Empty(), es, id);
  }

  /** The reply to a request came and was delivered. */
  ghost predicate Delivers(e: Event, id: RequestId) {
    e.ReplyEnds? && e.id == id && e.delivered && Replies(e.frames)
  }

  ghost function Deliveries(es: seq<Event>, id: RequestId): nat {
    if es == [] then 0 else (if Delivers(es[0], id) then 1 else 0) + Deliveries(es[1..], id)
  }

  /** Replies of a request that its table entry, or an evicted one, stands for. */
  function Settled(w: World, id: RequestId): nat {
    w.evictions[id] + if TaskOf(w.table, id) == Some(ReturnedTrue) then 1 else 0
  }

  lemma StepSettles(w: World, e: Event, id: RequestId)
    requires Unique(w.table) && Enabled(w, e)
    ensures Unique(Apply(w, e).table)
    ensures Settled(Apply(w, e), id) == Settled(w, id) + if Delivers(e, id) then 1 else 0
  {
    match e
    case Forward(other) =>
      ForwardLookup(w.table, other, id);
      GoneCounts(w.table, Forwarded(w.table, other), id);
    case Unattached(other) => ReplaceLookup(w.table, other, ReturnedFalse, id);
    case Submitted(other, result, _) => ReplaceLookup(w.table, other, AfterSubmit(result), id);
    case ReplyEnds(other, frames, delivered) =>
      ReplyOutcomeIff(frames, delivered);
      ReplaceLookup(w.table, other, ReplyOutcome(frames, delivered), id);
    case Breaks(other, cancelled, _, _) =>
      ReplaceLookup(w.table, other, if cancelled then WasCancelled else RaisedOut, id);
  }

  lemma {:induction false} RunSettles(w: World, es: seq<Event>, id: RequestId)
    requires Unique(w.table) && Run(w, es).Some?
    ensures Settled(Run(w, es).value, id) == Settled(w, id) + Deliveries(es, id)
    decreases |es|
  {
    if es != [] {
      StepSettles(w, es[0], id);
      RunSettles(Apply(w, es[0]), es[1..], id);
    }
  }

  /** A task ends True, and an entry is evicted, only for a reply that came and was
      delivered, one for one. So a request's turn commits at most once more than its reply
      reached the phone, and a lost reply is never counted as one. */
  lemma OneDeliveryEach(es: seq<Event>, id: RequestId)
    requires Run(Empty(), es).Some?
    ensures var w := Run(Empty(), es).value;
            && w.evictions[id] + (if TaskOf(w.table, id) == Some(ReturnedTrue) then 1 else 0) == Deliveries(es, id)
            && w.commits[id] <= 1 + Deliveries(es, id)
  {
    RunSettles(Empty(), es, id);
    AtMostOnce(es, id);
  }

  /** What followed the admission of an attempt, as one list of frames. */
  function Followed(answer: Answer, saved: Option<string>, frames: seq<OwnerFrame>): seq<OwnerFrame> {
    if answer.Receipt? && answer.status.Terminal? then [Complete(saved)] else frames
  }

  /** An attached attempt as events. */
  function AttemptOf(id: RequestId, answer: Answer, refused: set<string>, saved: Option<string>,
                     frames: seq<OwnerFrame>, delivered: bool, committed: bool): seq<Event>
  {
    var result := Submit(answer, refused);
    if result.Admitted? then
      [Submitted(id, result, committed), ReplyEnds(id, Followed(answer, saved, frames), delivered)]
    else [Submitted(id, result, committed)]
  }

  /** An attempt's events leave in the table the task that `RunLocalOwner` promises to return. */
  lemma AttemptEnds(w: World, id: RequestId, answer: Answer, refused: set<string>, saved: Option<string>,
                    frames: seq<OwnerFrame>, delivered: bool, committed: bool)
    requires Unique(w.table) && Enabled(w, Submitted(id, Submit(answer, refused), committed))
    ensures var end := Run(w, AttemptOf(id, answer, refused, saved, frames, delivered, committed));
            && end.Some?
            && TaskOf(end.value.table, id) == Some(
                 if Submit(answer, refused).Refused? then ReturnedFalse
                 else if Submit(answer, refused).Admitted? && delivered
                      && (if answer.status.Terminal? then saved.Some? else Replies(frames)) then ReturnedTrue
                 else ReturnedNone)
  {
    var result := Submit(answer, refused);
    var first := Submitted(id, result, committed);
    var es := AttemptOf(id, answer, refused, saved, frames, delivered, committed);
    assert es[0] == first;
    ReplaceLookup(w.table, id, AfterSubmit(result), id);
    var next := Apply(w, first);
    if result.Admitted? {
      var heard := Followed(answer, saved, frames);
      var last := ReplyEnds(id, heard, delivered);
      assert es[1..] == [last] && [last][1..] == [];
      ReplyOutcomeIff(heard, delivered);
      TerminalReplies(saved);
      ReplaceLookup(next.table, id, ReplyOutcome(heard, delivered), id);
      assert Run(next, [last]) == Run(Apply(next, last), []);
    } else {
      assert es[1..] == [];
    }
  }

  lemma TerminalReplies(saved: Option<string>)
    ensures Replies([Complete(saved)]) <==> saved.Some?
  {
    if saved.Some? {
      assert RepliesAt([Complete(saved)], 0);
    }
  }

  predicate Uncertain(task: Option<Task>) {
    task.Some? && (task.value.ReturnedNone? || task.value.RaisedOut? || task.value.WasCancelled?)
  }

  /** An uncertain, raising or cancelled attempt is never evicted, never replaced and
      never submitted again, whatever follows. */
  lemma {:induction false} UncertainIsForever(w: World, es: seq<Event>, id: RequestId)
    requires Unique(w.table) && Uncertain(TaskOf(w.table, id)) && Run(w, es).Some?
    ensures var w' := Run(w, es).value;
            && TaskOf(w'.table, id) == TaskOf(w.table, id)
            && w'.submits[id] == w.submits[id] && w'.commits[id] == w.commits[id]
    decreases |es|
  {
    if es != [] {
      StepKeepsUncertain(w, es[0], id);
      UncertainIsForever(Apply(w, es[0]), es[1..], id);
    }
  }

  lemma StepKeepsUncertain(w: World, e: Event, id: RequestId)
    requires Unique(w.table) && Uncertain(TaskOf(w.table, id)) && Enabled(w, e)
    ensures var w' := Apply(w, e);
            && Unique(w'.table) && TaskOf(w'.table, id) == TaskOf(w.table, id)
            && w'.submits[id] == w.submits[id] && w'.commits[id] == w.commits[id]
  {
    match e
    case Forward(other) => ForwardLookup(w.table, other, id);
    case Unattached(other) => ReplaceLookup(w.table, other, ReturnedFalse, id);
    case Submitted(other, result, _) => ReplaceLookup(w.table, other, AfterSubmit(result), id);
    case ReplyEnds(other, frames, delivered) =>
      ReplyOutcomeIff(frames, delivered);
      ReplaceLookup(w.table, other, ReplyOutcome(frames, delivered), id);
    case Breaks(other, cancelled, _, _) =>
      ReplaceLookup(w.table, other, if cancelled then WasCancelled else RaisedOut, id);
  }

  /** Forwarding leaves at most 512 entries, unless more than that cannot be evicted. */
  lemma ForwardBounds(table: Table, id: RequestId)
    requires Admits(table, id)
    ensures var after := Forwarded(table, id);
            |after| <= TABLE_LIMIT || |after| == |Lasting(after)|
  {
    var left := Remove(table, id);
    var swept := Sweep([], left);
    assert [] + left == left;
    SweepDropsOldest([], left);
    SplitConcat(swept, [Entry(id, Connecting)]);
    CountSplit(swept);
  }

  ghost predicate NoneForwarded(es: seq<Event>) {
    forall i :: 0 <= i < |es| ==> !es[i].Forward?
  }

  lemma {:induction false} SizeStays(w: World, es: seq<Event>)
    requires NoneForwarded(es) && Run(w, es).Some? && Unique(w.table)
    ensures |Run(w, es).value.table| == |w.table|
    decreases |es|
  {
    if es != [] {
      var e := es[0];
      assert !e.Forward?;
      assert forall i :: 0 <= i < |es[1..]| ==> es[1..][i] == es[i + 1];
      ReplacedKeepsSize(w, e);
      SizeStays(Apply(w, e), es[1..]);
    }
  }

  lemma ReplacedKeepsSize(w: World, e: Event)
    requires !e.Forward? && Unique(w.table)
    ensures |Apply(w, e).table| == |w.table| && Unique(Apply(w, e).table)
  {
    match e
    case Unattached(id) => ReplaceLookup(w.table, id, ReturnedFalse, id);
    case Submitted(id, result, _) => ReplaceLookup(w.table, id, AfterSubmit(result), id);
    case ReplyEnds(id, frames, delivered) => ReplaceLookup(w.table, id, ReplyOutcome(frames, delivered), id);
    case Breaks(id, cancelled, _, _) => ReplaceLookup(w.table, id, if cancelled then WasCancelled else RaisedOut, id);
  }

  /** At every moment of every run the table is as large as the last admitted message left
      it, and that is at most 512 entries unless not one of them could then be evicted. */
  lemma TableBound(es: seq<Event>, id: RequestId, rest: seq<Event>)
    requires Run(Empty(), es).Some? && Admits(Run(Empty(), es).value.table, id)
    requires NoneForwarded(rest) && Run(Apply(Run(Empty(), es).value, Forward(id)), rest).Some?
    ensures var after := Apply(Run(Empty(), es).value, Forward(id));
            var now := Run(after, rest).value.table;
            |now| <= TABLE_LIMIT || |now| == |after.table| == |Lasting(after.table)|
  {
    var w := Run(Empty(), es).value;
    RunKeepsBalanced(Empty(), es, id);
    ForwardLookup(w.table, id, id);
    ForwardBounds(w.table, id);
    SizeStays(Apply(w, Forward(id)), rest);
  }

  lemma CountSplit(table: Table)
    ensures |table| == |Lasting(table)| + |Delivered(table)|
  {
  }
}
