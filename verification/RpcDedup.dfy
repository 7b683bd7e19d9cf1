/** RPC deduplication (operation_dispatch.py): the table of recently seen request ids that
    every arrival writes and prunes, and what it lets through. */
module RpcDedup {
  import opened Wrappers

  const WINDOW: int := 30

  datatype Arrival = Arrival(id: string, at: int)

  type Table = map<string, int>

  /** One arrival: whether it is a duplicate is decided before the table is pruned. */
  function After(table: Table, a: Arrival): Table {
    var noted := table[a.id := a.at];
    map id | id in noted && noted[id] >= a.at - WINDOW :: noted[id]
  }

  function TableOf(arrivals: seq<Arrival>): Table {
    if arrivals == [] then map[] else After(TableOf(arrivals[..|arrivals| - 1]), arrivals[|arrivals| - 1])
  }

  /** When the id last arrived. */
  function LastAt(arrivals: seq<Arrival>, id: string): Option<int> {
    if arrivals == [] then None
    else if arrivals[|arrivals| - 1].id == id then Some(arrivals[|arrivals| - 1].at)
    else LastAt(arrivals[..|arrivals| - 1], id)
  }

  /** The event loop's clock never goes back. */
  ghost predicate Monotone(arrivals: seq<Arrival>) {
    forall i, j :: 0 <= i < j < |arrivals| ==> arrivals[i].at <= arrivals[j].at
  }

  class OperationDispatcher {
    var seenRpcIds: Table
    /** Every arrival with an id so far. */
    ghost var arrivals: seq<Arrival>

    ghost predicate Valid()
      reads this
    {
      seenRpcIds == TableOf(arrivals)
    }

    constructor ()
      ensures Valid() && arrivals == []
    {
      seenRpcIds, arrivals := map[], [];
    }

    /** A request without an id is never a duplicate and leaves no trace. */
    method IsDuplicate(rpcId: string, now: int) returns (duplicate: bool)
      requires Valid()
      modifies this
      ensures Valid()
      ensures arrivals == if rpcId == "" then old(arrivals) else old(arrivals) + [Arrival(rpcId, now)]
      ensures duplicate <==> rpcId != "" && rpcId in TableOf(old(arrivals))
    {
      if rpcId == "" {
        return false;
      }
      duplicate := rpcId in seenRpcIds;
      seenRpcIds := seenRpcIds[rpcId := now];
      var cutoff := now - WINDOW;
      seenRpcIds := map key | key in seenRpcIds && seenRpcIds[key] >= cutoff :: seenRpcIds[key];
      assert (arrivals + [Arrival(rpcId, now)])[..|arrivals|] == arrivals;
      arrivals := arrivals + [Arrival(rpcId, now)];
    }
  }

  lemma LastAtBound(arrivals: seq<Arrival>, id: string)
    requires Monotone(arrivals) && LastAt(arrivals, id).Some?
    ensures arrivals != [] && LastAt(arrivals, id).value <= arrivals[|arrivals| - 1].at
  {
    var earlier := arrivals[..|arrivals| - 1];
    if arrivals[|arrivals| - 1].id != id {
      LastAtBound(earlier, id);
      assert earlier[|earlier| - 1] == arrivals[|earlier| - 1];
    }
  }

  /** After every arrival the table holds exactly the ids whose last arrival is at most
      30 seconds older than that arrival, each with its time. */
  lemma {:induction false} TableIsExact(arrivals: seq<Arrival>, id: string)
    requires Monotone(arrivals) && arrivals != []
    ensures id in TableOf(arrivals) <==>
      LastAt(arrivals, id).Some? && LastAt(arrivals, id).value >= arrivals[|arrivals| - 1].at - WINDOW
    ensures id in TableOf(arrivals) ==> LastAt(arrivals, id) == Some(TableOf(arrivals)[id])
  {
    var earlier, last := arrivals[..|arrivals| - 1], arrivals[|arrivals| - 1];
    if earlier != [] {
      TableIsExact(earlier, id);
      assert earlier[|earlier| - 1] == arrivals[|earlier| - 1];
    }
  }

  /** An arrival is turned away exactly when its id last arrived at most 30 seconds before
      the arrival preceding it, whosever that was: silence does not age the table. */
  lemma DuplicateIff(arrivals: seq<Arrival>, a: Arrival)
    requires Monotone(arrivals + [a])
    ensures a.id in TableOf(arrivals) <==>
      arrivals != [] && LastAt(arrivals, a.id).Some? && LastAt(arrivals, a.id).value >= arrivals[|arrivals| - 1].at - WINDOW
  {
    assert forall i :: 0 <= i < |arrivals| ==> (arrivals + [a])[i] == arrivals[i];
    if arrivals != [] {
      TableIsExact(arrivals, a.id);
    }
  }

  /** How many of the arrivals run the handler of `id`. */
  function Runs(arrivals: seq<Arrival>, id: string): nat {
    if arrivals == [] then 0
    else
      var earlier, last := arrivals[..|arrivals| - 1], arrivals[|arrivals| - 1];
      Runs(earlier, id) + (if last.id == id && id !in TableOf(earlier) then 1 else 0)
  }

  /** Every arrival of the id follows its previous one by at most 30 seconds. */
  ghost predicate Persistent(arrivals: seq<Arrival>, id: string) {
    forall k :: 0 <= k < |arrivals| && arrivals[k].id == id && LastAt(arrivals[..k], id).Some? ==>
      arrivals[k].at - LastAt(arrivals[..k], id).value <= WINDOW
  }

  /** However other ids interleave, an id retried at most 30 seconds apart runs its
      handler exactly once. */
  lemma {:induction false} RunsOnce(arrivals: seq<Arrival>, id: string)
    requires Monotone(arrivals) && Persistent(arrivals, id)
    ensures Runs(arrivals, id) == if LastAt(arrivals, id).Some? then 1 else 0
  {
    if arrivals != [] {
      var earlier, last := arrivals[..|arrivals| - 1], arrivals[|arrivals| - 1];
      forall k | 0 <= k < |earlier|
        ensures earlier[k] == arrivals[k] && earlier[..k] == arrivals[..k]
      {
      }
      RunsOnce(earlier, id);
      assert earlier + [last] == arrivals;
      DuplicateIff(earlier, last);
      if last.id == id && LastAt(earlier, id).Some? {
        LastAtBound(earlier, id);
        assert earlier[|earlier| - 1].at <= last.at;
        assert arrivals[..|earlier|] == earlier;
      }
    }
  }
}
