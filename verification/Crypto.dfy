/** Replay defence of sealed frames: `open_frame` and its nonce cache (crypto.py).
    base64, the version byte, the AEAD and JSON decoding are taken as one abstract
    step: a frame either opens to a nonce, a timestamp and a payload, or it does not. */
module Crypto {
  import opened Wrappers

  const REPLAY_WINDOW_MS: int := 60000
  const MAX_NONCE_CACHE: nat := 256

  /** 24 random bytes; only ever compared for equality. */
  type Nonce = nat

  datatype Role = Chat | PromptResponse | RpcRequest
  datatype Payload = Payload(role: Role, body: string)

  /** `ts` is None when the decoded JSON carries no numeric timestamp. */
  datatype Frame = Unopenable | Openable(nonce: Nonce, ts: Option<int>, payload: Payload)

  /** One call of `open_frame`. */
  datatype Opening = Opening(frame: Frame, now: int, allowStale: bool)

  predicate WithinWindow(ts: int, now: int) {
    -REPLAY_WINDOW_MS <= now - ts <= REPLAY_WINDOW_MS
  }

  /** What `open_frame` accepts, given the nonces it still remembers. */
  predicate Accepts(nonces: seq<Nonce>, o: Opening) {
    && o.frame.Openable?
    && o.frame.ts.Some?
    && (o.allowStale || WithinWindow(o.frame.ts.value, o.now))
    && o.frame.nonce !in nonces
  }

  /** The last 256 entries of an acceptance history. */
  function Newest(history: seq<Nonce>): seq<Nonce> {
    if |history| > MAX_NONCE_CACHE then history[|history| - MAX_NONCE_CACHE..] else history
  }

  /** The acceptance history after the calls `calls`, starting from `history`. */
  function Accepted(history: seq<Nonce>, calls: seq<Opening>): seq<Nonce>
    decreases |calls|
  {
    if calls == [] then history
    else
      var next := if Accepts(Newest(history), calls[0]) then history + [calls[0].frame.nonce] else history;
      Accepted(next, calls[1..])
  }

  /** Any two acceptances of one nonce lie more than 256 acceptances apart. */
  ghost predicate Spread(history: seq<Nonce>) {
    forall i, j :: 0 <= i < j < |history| && history[i] == history[j] ==> j - i > MAX_NONCE_CACHE
  }

  class NonceCache {
    /** The bounded deque. */
    var nonces: seq<Nonce>
    /** Every nonce accepted since the process started, oldest first. */
    ghost var history: seq<Nonce>

    ghost predicate Valid()
      reads this
    {
      nonces == Newest(history)
    }

    constructor ()
      ensures Valid() && history == []
    {
      nonces := [];
      history := [];
    }

    /** The checks in source order; every rejection leaves the cache as it was. */
    method OpenFrame(frame: Frame, now: int, allowStale: bool) returns (r: Option<Payload>)
      requires Valid()
      modifies this
      ensures Valid()
      ensures history == Accepted(old(history), [Opening(frame, now, allowStale)])
      ensures r == if Accepts(Newest(old(history)), Opening(frame, now, allowStale)) then Some(frame.payload) else None
      ensures r.Some? <==>
                && frame.Openable? && frame.ts.Some? && frame.nonce !in old(nonces)
                && (allowStale || (now - frame.ts.value <= REPLAY_WINDOW_MS && frame.ts.value - now <= REPLAY_WINDOW_MS))
      ensures nonces == if r.Some? then Newest(old(nonces) + [frame.nonce]) else old(nonces)
    {
      if frame.Unopenable? || frame.ts.None? {
        return None;
      }
      var age := now - frame.ts.value;
      if age < 0 {
        age := -age;
      }
      if !allowStale && age > REPLAY_WINDOW_MS {
        return None;
      }
      if frame.nonce in nonces {
        return None;
      }
      nonces := nonces + [frame.nonce];
      if |nonces| > MAX_NONCE_CACHE {
        nonces := nonces[|nonces| - MAX_NONCE_CACHE..];
      }
      history := history + [frame.nonce];
      return Some(frame.payload);
    }
  }

  /** The cache remembers entry `i` exactly while fewer than 256 entries follow it. */
  lemma RememberedIff(history: seq<Nonce>, i: nat)
    requires i < |history|
    requires forall k :: i < k < |history| ==> history[k] != history[i]
    requires forall k :: 0 <= k < i ==> history[k] == history[i] ==> i - k > MAX_NONCE_CACHE
    ensures history[i] in Newest(history) <==> |history| - i <= MAX_NONCE_CACHE
  {
    var newest := Newest(history);
    var cut := |history| - |newest|;
    assert forall k :: 0 <= k < |newest| ==> newest[k] == history[k + cut];
    if i >= cut {
      assert newest[i - cut] == history[i];
    }
  }

  /** Accepting a nonce the cache does not hold keeps the history spread out. */
  lemma AcceptKeepsSpread(history: seq<Nonce>, n: Nonce)
    requires Spread(history) && n !in Newest(history)
    ensures Spread(history + [n])
  {
    var longer := history + [n];
    var newest := Newest(history);
    var cut := |history| - |newest|;
    assert forall k :: cut <= k < |history| ==> history[k] == newest[k - cut];
    assert forall k :: cut <= k < |history| ==> history[k] != n;
  }

  /** Whatever is offered, however stale replays are allowed: no nonce is accepted
      twice within 257 consecutive acceptances. */
  lemma {:induction false} NoNonceTwice(history: seq<Nonce>, calls: seq<Opening>)
    requires Spread(history)
    ensures Spread(Accepted(history, calls))
    ensures history <= Accepted(history, calls)
    decreases |calls|
  {
    if calls == [] {
    } else if Accepts(Newest(history), calls[0]) {
      AcceptKeepsSpread(history, calls[0].frame.nonce);
      NoNonceTwice(history + [calls[0].frame.nonce], calls[1..]);
    } else {
      NoNonceTwice(history, calls[1..]);
    }
  }

  /** A frame accepted as entry `i` of the history is refused as a replay exactly while
      at most 256 acceptances, its own included, lie at or after that entry. */
  lemma ReplayRefusedIff(history: seq<Nonce>, i: nat, o: Opening)
    requires Spread(history) && i < |history|
    requires forall k :: i < k < |history| ==> history[k] != history[i]
    requires o.frame.Openable? && o.frame.nonce == history[i]
    requires o.frame.ts.Some? && (o.allowStale || WithinWindow(o.frame.ts.value, o.now))
    ensures Accepts(Newest(history), o) <==> |history| - i > MAX_NONCE_CACHE
  {
    RememberedIff(history, i);
  }
}
