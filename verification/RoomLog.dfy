/** Paging the append-only log of a bot room (bot_rooms.py). The log's events carry
    increasing numbers; only some of them are messages. */
module RoomLog {
  import opened Wrappers

  datatype Event = Event(number: int, isMessage: bool, text: string)

  /** A `groups.log` answer after projection. */
  datatype Page = Page(messages: seq<Event>, cursor: int, latest: int, hasMore: bool)

  const MAX_ROUNDS: nat := 32

  function Least(a: int, b: int): int { if a < b then a else b }

  ghost predicate IsLog(log: seq<Event>) {
    && (forall i :: 0 <= i < |log| ==> log[i].number >= 1)
    && (forall i, j :: 0 <= i < j < |log| ==> log[i].number < log[j].number)
  }

  /** The messages numbered above `lo` and up to `hi`, in log order. */
  function Messages(log: seq<Event>, lo: int, hi: int): seq<Event> {
    if log == [] then []
    else if log[0].isMessage && lo < log[0].number <= hi then [log[0]] + Messages(log[1..], lo, hi)
    else Messages(log[1..], lo, hi)
  }

  function LastN(s: seq<Event>, n: nat): seq<Event> {
    if |s| > n then s[|s| - n..] else s
  }

  /** The log service: a page holds what lies between `since` and its cursor, at most
      `limit` events; byte budgets may stop it anywhere, and the log may have grown. */
  ghost predicate Obeys(log: seq<Event>, limit: int, since: int, page: Page) {
    page.cursor >= since && page.messages == Messages(log, since, page.cursor) && |page.messages| <= limit
  }

  // ---------------------------------------------------------- facts about ranges

  lemma TailIsLog(log: seq<Event>)
    requires IsLog(log) && log != []
    ensures IsLog(log[1..]) && forall i :: 0 <= i < |log[1..]| ==> log[0].number < log[1..][i].number
  {
    assert forall i :: 0 <= i < |log[1..]| ==> log[1..][i] == log[i + 1];
  }

  lemma {:induction false} NoMessagesBelow(log: seq<Event>, lo: int, hi: int)
    requires IsLog(log) && (hi <= lo || forall i :: 0 <= i < |log| ==> log[i].number > hi)
    ensures Messages(log, lo, hi) == []
  {
    if log != [] {
      TailIsLog(log);
      NoMessagesBelow(log[1..], lo, hi);
    }
  }

  /** Adjacent ranges join without overlap or loss. */
  lemma {:induction false} MessagesSplit(log: seq<Event>, lo: int, mid: int, hi: int)
    requires IsLog(log) && lo <= mid <= hi
    ensures Messages(log, lo, mid) + Messages(log, mid, hi) == Messages(log, lo, hi)
  {
    if log != [] {
      TailIsLog(log);
      MessagesSplit(log[1..], lo, mid, hi);
      var a, b := Messages(log[1..], lo, mid), Messages(log[1..], mid, hi);
      if log[0].number > mid {
        NoMessagesBelow(log[1..], lo, mid);
        assert Messages(log, lo, mid) == [];
      } else if log[0].isMessage && lo < log[0].number {
        assert ([log[0]] + a) + b == [log[0]] + (a + b);
      }
    }
  }

  lemma {:induction false} MessagesAre(log: seq<Event>, lo: int, hi: int)
    ensures forall e :: e in Messages(log, lo, hi) <==> e in log && e.isMessage && lo < e.number <= hi
  {
    if log != [] {
      MessagesAre(log[1..], lo, hi);
      assert forall e :: e in log <==> e == log[0] || e in log[1..];
    }
  }

  lemma LogCons(e: Event, rest: seq<Event>)
    requires e.number >= 1 && IsLog(rest) && forall r :: r in rest ==> e.number < r.number
    ensures IsLog([e] + rest)
  {
  }

  lemma {:induction false} MessagesAreOrdered(log: seq<Event>, lo: int, hi: int)
    requires IsLog(log)
    ensures IsLog(Messages(log, lo, hi))
  {
    if log != [] {
      TailIsLog(log);
      MessagesAreOrdered(log[1..], lo, hi);
      var rest := Messages(log[1..], lo, hi);
      MessagesAre(log[1..], lo, hi);
      forall r | r in rest
        ensures log[0].number < r.number
      {
        var i :| 0 <= i < |log[1..]| && log[1..][i] == r;
      }
      if log[0].isMessage && lo < log[0].number <= hi {
        LogCons(log[0], rest);
      }
    }
  }

  lemma {:induction false} MessagesAreFew(log: seq<Event>, lo: int, hi: int)
    requires IsLog(log) && lo <= hi
    ensures |Messages(log, lo, hi)| <= hi - lo
  {
    if log != [] {
      TailIsLog(log);
      if log[0].isMessage && lo < log[0].number <= hi {
        MessagesAreFew(log[1..], log[0].number, hi);
        MessagesSplit(log[1..], lo, log[0].number, hi);
        NoMessagesBelow(log[1..], lo, log[0].number);
      } else {
        MessagesAreFew(log[1..], lo, hi);
      }
    }
  }

  /** Every message of a range is there, and nothing else. */
  lemma MessagesExact(log: seq<Event>, lo: int, hi: int)
    requires IsLog(log)
    ensures IsLog(Messages(log, lo, hi))
    ensures forall e :: e in Messages(log, lo, hi) <==> e in log && e.isMessage && lo < e.number <= hi
    ensures hi >= lo ==> |Messages(log, lo, hi)| <= hi - lo
  {
    MessagesAre(log, lo, hi);
    MessagesAreOrdered(log, lo, hi);
    if lo <= hi {
      MessagesAreFew(log, lo, hi);
    }
  }

  /** Trimming at every step keeps what trimming once at the end keeps. */
  lemma TrimOnceOrOften(s: seq<Event>, t: seq<Event>, n: nat)
    ensures LastN(LastN(s, n) + t, n) == LastN(s + t, n)
  {
  }

  // --------------------------------------------------------------- latest page

  /** What the phone gets back; `None`-like answers have no messages. */
  datatype Reply = Reply(messages: seq<Event>, cursor: int, latest: int, hasMore: bool)

  function OldestIsPastFirst(messages: seq<Event>): bool {
    messages != [] && messages[0].number > 1
  }

  /** `answer(k, since)` is the log service's k-th answer, were it asked from `since`. */
  ghost predicate Service(log: seq<Event>, limit: int, answer: (nat, int) -> Page) {
    IsLog(log) && forall k: nat, since: int :: Obeys(log, limit, since, answer(k, since))
  }

  /** A service that advances while it says there is more, and says there is none only
      when no message up to `upTo` is left. */
  ghost predicate Forthcoming(log: seq<Event>, upTo: int, answer: (nat, int) -> Page) {
    forall k: nat, since: int ::
      var page := answer(k, since);
      if page.hasMore then page.cursor > since else Messages(log, page.cursor, upTo) == []
  }

  /** Walking forward from `page`, the k-th answer so far, and trimming at every step. */
  function WalkForward(answer: (nat, int) -> Page, k: nat, page: Page, latest: int, limit: nat): Page
    decreases latest - page.cursor
  {
    if !page.hasMore || page.cursor >= latest then page
    else
      var more := answer(k, page.cursor);
      if more.cursor <= page.cursor then page
      else WalkForward(answer, k + 1, Page(LastN(page.messages + more.messages, limit), more.cursor, more.latest, more.hasMore), latest, limit)
  }

  method FetchLatestPage(answer: (nat, int) -> Page, latest: int, limit: int) returns (r: Reply)
    ensures latest <= 0 || limit <= 0 ==> r == Reply([], 0, latest, false)
    ensures latest > 0 && limit > 0 ==>
      var page := WalkForward(answer, 1, answer(0, Max(0, latest - limit)), latest, limit);
      && r.messages == page.messages && r.cursor == page.cursor
      && r.latest == (if page.latest != 0 then page.latest else latest)
      && (r.hasMore <==> r.messages != [] && r.messages[0].number > 1)
  {
    if latest <= 0 || limit <= 0 {
      return Reply([], 0, latest, false);
    }
    var start := Max(0, latest - limit);
    var page := answer(0, start);
    var k := 1;
    while page.hasMore && page.cursor < latest
      invariant k >= 1
      invariant WalkForward(answer, k, page, latest, limit) == WalkForward(answer, 1, answer(0, start), latest, limit)
      decreases latest - page.cursor
    {
      var more := answer(k, page.cursor);
      if more.cursor <= page.cursor {
        break;
      }
      var merged := page.messages + more.messages;
      page := Page(if |merged| > limit then merged[|merged| - limit..] else merged, more.cursor, more.latest, more.hasMore);
      k := k + 1;
    }
    r := Reply(page.messages, page.cursor, if page.latest != 0 then page.latest else latest, OldestIsPastFirst(page.messages));
  }

  /** Walking keeps the last `limit` messages of the range walked; a forthcoming service
      makes that range reach `latest`. */
  lemma {:induction false} WalkKeepsTail(log: seq<Event>, answer: (nat, int) -> Page, k: nat, start: int, page: Page, latest: int, limit: nat)
    requires Service(log, limit, answer)
    requires start <= page.cursor && page.messages == LastN(Messages(log, start, page.cursor), limit)
    ensures var last := WalkForward(answer, k, page, latest, limit);
            && last.cursor >= page.cursor && last.messages == LastN(Messages(log, start, last.cursor), limit)
    ensures Forthcoming(log, latest, answer) && (!page.hasMore ==> Messages(log, page.cursor, latest) == []) ==>
              var last := WalkForward(answer, k, page, latest, limit);
              last.cursor >= latest || Messages(log, last.cursor, latest) == []
    decreases latest - page.cursor
  {
    if page.hasMore && page.cursor < latest {
      var more := answer(k, page.cursor);
      assert Obeys(log, limit, page.cursor, more);
      if more.cursor > page.cursor {
        MessagesSplit(log, start, page.cursor, more.cursor);
        TrimOnceOrOften(Messages(log, start, page.cursor), more.messages, limit);
        var next := Page(LastN(page.messages + more.messages, limit), more.cursor, more.latest, more.hasMore);
        WalkKeepsTail(log, answer, k + 1, start, next, latest, limit);
      }
    }
  }

  /** The latest page is the last `limit` messages between its start and its cursor,
      whatever byte budgets do to the pages; from a forthcoming service these are the
      last `limit` messages up to `latest` (or further, where the log has grown). */
  lemma LatestPageIsTail(log: seq<Event>, answer: (nat, int) -> Page, latest: int, limit: int)
    requires latest > 0 && limit > 0 && Service(log, limit, answer)
    ensures var start := Max(0, latest - limit);
            var page := WalkForward(answer, 1, answer(0, start), latest, limit);
            && page.messages == LastN(Messages(log, start, page.cursor), limit)
            && (Forthcoming(log, latest, answer) ==> page.messages == LastN(Messages(log, start, Max(latest, page.cursor)), limit))
  {
    var start := Max(0, latest - limit);
    var first := answer(0, start);
    assert Obeys(log, limit, start, first);
    WalkKeepsTail(log, answer, 1, start, first, latest, limit);
    var page := WalkForward(answer, 1, first, latest, limit);
    if page.cursor < latest {
      MessagesSplit(log, start, page.cursor, latest);
    }
  }

  // ---------------------------------------------------------------- older pages

  /** Up to `rounds` log pages from `seen` on, keeping what is older than `before`. */
  function Collect(answer: (nat, int) -> Page, round: nat, seen: int, before: int, collected: seq<Event>): (seq<Event>, int)
    decreases MAX_ROUNDS - round
  {
    if round >= MAX_ROUNDS then (collected, seen)
    else
      var page := answer(round, seen);
      var more := collected + Older(page.messages, before);
      if page.cursor <= seen || page.cursor >= before - 1 || !page.hasMore then (more, page.cursor)
      else Collect(answer, round + 1, page.cursor, before, more)
  }

  /** The pages it asks for, in turn. */
  function Asked(answer: (nat, int) -> Page, round: nat, seen: int, before: int): seq<Page>
    decreases MAX_ROUNDS - round
  {
    if round >= MAX_ROUNDS then []
    else
      var page := answer(round, seen);
      if page.cursor <= seen || page.cursor >= before - 1 || !page.hasMore then [page]
      else [page] + Asked(answer, round + 1, page.cursor, before)
  }

  function OlderOfAll(pages: seq<Page>, before: int): seq<Event> {
    if pages == [] then [] else Older(pages[0].messages, before) + OlderOfAll(pages[1..], before)
  }

  /** The newest number told by the last page that tells one. */
  function LatestTold(pages: seq<Page>, latest: int): int {
    if pages == [] then latest
    else LatestTold(pages[1..], if pages[0].latest != 0 then pages[0].latest else latest)
  }

  /** Asking stops at the end of the window, when there is no more, or when a page does not move on. */
  ghost predicate StopsAt(pages: seq<Page>, k: nat, seen: int, before: int)
    requires k < |pages|
  {
    pages[k].cursor <= (if k == 0 then seen else pages[k - 1].cursor) || pages[k].cursor >= before - 1 || !pages[k].hasMore
  }

  /** At most 32 pages are asked for, and fewer only where asking stops. */
  lemma {:induction false} AskingStops(answer: (nat, int) -> Page, round: nat, seen: int, before: int)
    requires round <= MAX_ROUNDS
    ensures var pages := Asked(answer, round, seen, before);
            && |pages| <= MAX_ROUNDS - round
            && (forall k :: 0 <= k < |pages| - 1 ==> !StopsAt(pages, k, seen, before))
            && (|pages| == MAX_ROUNDS - round || StopsAt(pages, |pages| - 1, seen, before))
    decreases MAX_ROUNDS - round
  {
    if round < MAX_ROUNDS {
      var page := answer(round, seen);
      if !(page.cursor <= seen || page.cursor >= before - 1 || !page.hasMore) {
        var rest := Asked(answer, round + 1, page.cursor, before);
        AskingStops(answer, round + 1, page.cursor, before);
        StopsShift(page, rest, seen, before);
      }
    }
  }

  lemma StopsShift(page: Page, rest: seq<Page>, seen: int, before: int)
    ensures forall k :: 0 < k < |[page] + rest| ==> StopsAt([page] + rest, k, seen, before) == StopsAt(rest, k - 1, page.cursor, before)
  {
  }

  /** What is collected is what the pages asked for hold of the window. */
  lemma {:induction false} CollectAsks(answer: (nat, int) -> Page, round: nat, seen: int, before: int, collected: seq<Event>)
    requires round <= MAX_ROUNDS
    ensures var pages := Asked(answer, round, seen, before);
            Collect(answer, round, seen, before, collected)
            == (collected + OlderOfAll(pages, before), if pages == [] then seen else pages[|pages| - 1].cursor)
    decreases MAX_ROUNDS - round
  {
    if round == MAX_ROUNDS {
      assert collected + [] == collected;
    } else {
      var page := answer(round, seen);
      if page.cursor <= seen || page.cursor >= before - 1 || !page.hasMore {
        OlderOfAllCons(page, [], before, collected);
        assert [page] + [] == [page] && collected + Older(page.messages, before) + [] == collected + Older(page.messages, before);
      } else {
        var rest := Asked(answer, round + 1, page.cursor, before);
        CollectAsks(answer, round + 1, page.cursor, before, collected + Older(page.messages, before));
        OlderOfAllCons(page, rest, before, collected);
      }
    }
  }

  lemma OlderOfAllCons(page: Page, rest: seq<Page>, before: int, collected: seq<Event>)
    ensures (collected + Older(page.messages, before)) + OlderOfAll(rest, before) == collected + OlderOfAll([page] + rest, before)
  {
    assert ([page] + rest)[1..] == rest;
  }

  lemma {:induction false} LatestIsTold(pages: seq<Page>, latest: int)
    ensures var told := LatestTold(pages, latest);
            || (told == latest && forall k :: 0 <= k < |pages| ==> pages[k].latest == 0)
            || exists k :: 0 <= k < |pages| && IsLastTold(pages, k) && told == pages[k].latest
  {
    if pages != [] {
      var rest, next := pages[1..], if pages[0].latest != 0 then pages[0].latest else latest;
      LatestIsTold(rest, next);
      if forall k :: 0 <= k < |rest| ==> rest[k].latest == 0 {
        assert forall k :: 0 < k < |pages| ==> pages[k] == rest[k - 1];
        if pages[0].latest != 0 {
          assert IsLastTold(pages, 0);
        }
      } else {
        var k :| 0 <= k < |rest| && IsLastTold(rest, k) && LatestTold(rest, next) == rest[k].latest;
        assert forall j :: 0 < j < |pages| ==> pages[j] == rest[j - 1];
        assert IsLastTold(pages, k + 1);
      }
    }
  }

  ghost predicate IsLastTold(pages: seq<Page>, k: nat)
    requires k < |pages|
  {
    pages[k].latest != 0 && forall j :: k < j < |pages| ==> pages[j].latest == 0
  }

  function Older(messages: seq<Event>, before: int): seq<Event> {
    if messages == [] then []
    else (if messages[0].number < before then [messages[0]] else []) + Older(messages[1..], before)
  }

  method FetchOlderPage(answer: (nat, int) -> Page, before: int, limit: int) returns (r: Reply)
    ensures before <= 1 || limit <= 0 ==> r == Reply([], 0, 0, false)
    ensures before > 1 && limit > 0 ==>
      var (collected, cursor) := Collect(answer, 0, Max(0, before - 1 - limit), before, []);
      && r.messages == LastN(collected, limit) && r.cursor == cursor
      && r.latest == LatestTold(Asked(answer, 0, Max(0, before - 1 - limit), before), 0)
      && (r.hasMore <==> r.messages != [] && r.messages[0].number > 1)
  {
    if before <= 1 || limit <= 0 {
      return Reply([], 0, 0, false);
    }
    var start := Max(0, before - 1 - limit);
    var collected: seq<Event> := [];
    var seen, latest, cursor := start, 0, start;
    var round := 0;
    var stopped := false;
    while round < MAX_ROUNDS && !stopped
      invariant 0 <= round <= MAX_ROUNDS
      invariant !stopped ==> cursor == seen
      invariant LatestTold(Asked(answer, 0, start, before), 0) == if stopped then latest else LatestTold(Asked(answer, round, seen, before), latest)
      invariant Collect(answer, 0, start, before, []) == if stopped then (collected, cursor) else Collect(answer, round, seen, before, collected)
      decreases MAX_ROUNDS - round, !stopped
    {
      var page := answer(round, seen);
      if page.latest != 0 {
        latest := page.latest;
      }
      cursor := page.cursor;
      var kept := KeepOlder(page.messages, before);
      collected := collected + kept;
      if cursor <= seen {
        stopped := true;
      } else {
        seen := cursor;
        if seen >= before - 1 || !page.hasMore {
          stopped := true;
        }
      }
      round := round + 1;
    }
    var messages := LastN(collected, limit);
    r := Reply(messages, cursor, latest, OldestIsPastFirst(messages));
  }

  method KeepOlder(messages: seq<Event>, before: int) returns (kept: seq<Event>)
    ensures kept == Older(messages, before)
  {
    kept := [];
    for k := 0 to |messages|
      invariant kept + Older(messages[k..], before) == Older(messages, before)
    {
      if messages[k].number < before {
        kept := kept + [messages[k]];
      }
    }
  }

  lemma {:induction false} OlderOfRange(log: seq<Event>, lo: int, hi: int, before: int)
    requires IsLog(log)
    ensures Older(Messages(log, lo, hi), before) == Messages(log, lo, Least(hi, before - 1))
  {
    if log != [] {
      TailIsLog(log);
      OlderOfRange(log[1..], lo, hi, before);
      var rest := Messages(log[1..], lo, hi);
      if log[0].isMessage && lo < log[0].number <= hi {
        assert Messages(log, lo, hi) == [log[0]] + rest;
        assert Messages(log, lo, hi)[1..] == rest;
      } else {
        assert Messages(log, lo, hi) == rest;
      }
    }
  }

  /** The rounds gather the window from its start up to the cursor they end at; if they
      stop early, the service had no more. */
  lemma {:induction false} CollectGathers(log: seq<Event>, limit: int, answer: (nat, int) -> Page,
                                          round: nat, start: int, seen: int, before: int, collected: seq<Event>)
    requires Service(log, limit, answer)
    requires start <= seen < before - 1 && collected == Messages(log, start, seen)
    ensures var (got, cursor) := Collect(answer, round, seen, before, collected);
            && cursor >= seen && got == Messages(log, start, Least(cursor, before - 1))
            && (Forthcoming(log, before - 1, answer) && before - 1 - seen <= MAX_ROUNDS - round ==> got == Messages(log, start, before - 1))
    decreases MAX_ROUNDS - round
  {
    if round < MAX_ROUNDS {
      var page := answer(round, seen);
      assert Obeys(log, limit, seen, page);
      OlderOfRange(log, seen, page.cursor, before);
      MessagesSplit(log, start, seen, Least(page.cursor, before - 1));
      if page.cursor < before - 1 {
        MessagesSplit(log, start, page.cursor, before - 1);
      }
      if page.cursor > seen && page.cursor < before - 1 && page.hasMore {
        CollectGathers(log, limit, answer, round + 1, start, page.cursor, before, collected + Older(page.messages, before));
      }
    }
  }

  /** The messages of the window an older page is asked for. */
  function Window(log: seq<Event>, before: int, limit: int): seq<Event> {
    Messages(log, Max(0, before - 1 - limit), before - 1)
  }

  /** Whatever byte budgets do, a forthcoming service and a limit of at most 32 give the
      older page its whole window: one number per round is enough. */
  lemma OlderPageIsWhole(log: seq<Event>, answer: (nat, int) -> Page, before: int, limit: int)
    requires Service(log, limit, answer) && Forthcoming(log, before - 1, answer)
    requires before > 1 && 0 < limit <= MAX_ROUNDS
    ensures var (collected, _) := Collect(answer, 0, Max(0, before - 1 - limit), before, []);
            LastN(collected, limit) == Window(log, before, limit)
  {
    var start := Max(0, before - 1 - limit);
    NoMessagesBelow(log, start, start);
    CollectGathers(log, limit, answer, 0, start, start, before, []);
    MessagesExact(log, start, before - 1);
  }

  /** At any limit, what an older page lacks of its window is exactly the messages beyond
      the cursor it returns. */
  lemma OlderPageLacks(log: seq<Event>, answer: (nat, int) -> Page, before: int, limit: int)
    requires Service(log, limit, answer) && before > 1 && limit > 0
    ensures var (collected, cursor) := Collect(answer, 0, Max(0, before - 1 - limit), before, []);
            && LastN(collected, limit) + Messages(log, Least(cursor, before - 1), before - 1) == Window(log, before, limit)
  {
    var start := Max(0, before - 1 - limit);
    NoMessagesBelow(log, start, start);
    CollectGathers(log, limit, answer, 0, start, start, before, []);
    MessagesExact(log, start, before - 1);
    var (collected, cursor) := Collect(answer, 0, start, before, []);
    MessagesSplit(log, start, Least(cursor, before - 1), before - 1);
  }

  // ------------------------------------------------------------- chained pages

  /** Asking `n` more times, each time for what is older than the oldest message held;
      the pages read, oldest first, and the start of the last window. */
  function Chain(log: seq<Event>, before: int, limit: int, n: nat): (seq<Event>, int)
    decreases n
  {
    var page := Window(log, before, limit);
    var start := Max(0, before - 1 - limit);
    if n == 0 || page == [] then (page, start)
    else
      var (older, first) := Chain(log, page[0].number, limit, n - 1);
      (older + page, first)
  }

  /** Chained older pages neither overlap nor skip a message, down to the last window. */
  lemma {:induction false} ChainIsContiguous(log: seq<Event>, before: int, limit: int, n: nat)
    requires IsLog(log) && limit > 0 && before >= 1
    ensures var (read, first) := Chain(log, before, limit, n);
            first <= before - 1 && read == Messages(log, first, before - 1)
    decreases n
  {
    var start := Max(0, before - 1 - limit);
    var page := Window(log, before, limit);
    if n > 0 && page != [] {
      OldestOf(log, start, before - 1);
      var oldest := page[0].number;
      ChainIsContiguous(log, oldest, limit, n - 1);
      var (older, first) := Chain(log, oldest, limit, n - 1);
      MessagesSplit(log, first, oldest - 1, before - 1);
    }
  }

  /** The messages one request for older ones returns. */
  function OlderPage(answer: (nat, int) -> Page, before: int, limit: int): seq<Event> {
    if before <= 1 || limit <= 0 then []
    else LastN(Collect(answer, 0, Max(0, before - 1 - limit), before, []).0, limit)
  }

  /** The pages a phone reads by asking `n` more times, each time for what is older than the
      oldest message it holds; `answers(k)` is what the service answers when `k` are left. */
  function ReadBack(answers: nat -> (nat, int) -> Page, before: int, limit: int, n: nat): (seq<Event>, int)
    decreases n
  {
    var page := OlderPage(answers(n), before, limit);
    var start := Max(0, before - 1 - limit);
    if n == 0 || page == [] then (page, start)
    else
      var (older, first) := ReadBack(answers, page[0].number, limit, n - 1);
      (older + page, first)
  }

  ghost predicate Serves(log: seq<Event>, limit: int, upTo: int, answers: nat -> (nat, int) -> Page) {
    forall k :: ServesAt(log, limit, upTo, answers, k)
  }

  ghost predicate ServesAt(log: seq<Event>, limit: int, upTo: int, answers: nat -> (nat, int) -> Page, k: nat) {
    Service(log, limit, answers(k)) && Forthcoming(log, upTo, answers(k))
  }

  lemma NoMembers(s: seq<Event>)
    ensures (forall e :: e !in s) ==> s == []
  {
    if s != [] {
      assert s[0] in s;
    }
  }

  /** A service forthcoming up to a number is forthcoming below it. */
  lemma ServesBelow(log: seq<Event>, limit: int, upTo: int, lower: int, answers: nat -> (nat, int) -> Page)
    requires Serves(log, limit, upTo, answers) && lower <= upTo
    ensures Serves(log, limit, lower, answers)
  {
    forall k ensures ServesAt(log, limit, lower, answers, k) {
      assert ServesAt(log, limit, upTo, answers, k);
      forall round: nat, since: int
        ensures var page := answers(k)(round, since);
                if page.hasMore then page.cursor > since else Messages(log, page.cursor, lower) == []
      {
        var page := answers(k)(round, since);
        if !page.hasMore {
          MessagesAre(log, page.cursor, upTo);
          MessagesAre(log, page.cursor, lower);
          assert forall e :: e in Messages(log, page.cursor, lower) ==> e in Messages(log, page.cursor, upTo);
          NoMembers(Messages(log, page.cursor, lower));
        }
      }
    }
  }

  /** With a limit of at most 32, the pages really read chain as their windows do. */
  lemma {:induction false} ReadBackIsChain(log: seq<Event>, answers: nat -> (nat, int) -> Page, before: int, limit: int, n: nat)
    requires IsLog(log) && Serves(log, limit, before - 1, answers) && 0 < limit <= MAX_ROUNDS
    ensures ReadBack(answers, before, limit, n) == Chain(log, before, limit, n)
    decreases n
  {
    assert ServesAt(log, limit, before - 1, answers, n);
    var page := Window(log, before, limit);
    if before > 1 {
      OlderPageIsWhole(log, answers(n), before, limit);
    } else {
      NoMessagesBelow(log, 0, before - 1);
    }
    if n > 0 && page != [] {
      OldestOf(log, Max(0, before - 1 - limit), before - 1);
      ServesBelow(log, limit, before - 1, page[0].number - 1, answers);
      ReadBackIsChain(log, answers, page[0].number, limit, n - 1);
    }
  }

  /** Pages read back one after another, with a limit of at most 32 and whatever byte budgets
      do to each, neither overlap nor skip a message, down to the last window read. */
  lemma ReadBackIsContiguous(log: seq<Event>, answers: nat -> (nat, int) -> Page, before: int, limit: int, n: nat)
    requires IsLog(log) && Serves(log, limit, before - 1, answers) && 0 < limit <= MAX_ROUNDS && before >= 1
    ensures var (read, first) := ReadBack(answers, before, limit, n);
            first <= before - 1 && read == Messages(log, first, before - 1)
  {
    ReadBackIsChain(log, answers, before, limit, n);
    ChainIsContiguous(log, before, limit, n);
  }

  lemma {:induction false} SameAbove(log: seq<Event>, lo: int, lo': int, hi: int)
    requires forall e :: e in log ==> lo < e.number && lo' < e.number
    ensures Messages(log, lo, hi) == Messages(log, lo', hi)
  {
    if log != [] {
      assert log[0] in log;
      assert forall e :: e in log[1..] ==> e in log;
      SameAbove(log[1..], lo, lo', hi);
    }
  }

  /** A range starts with its oldest message: nothing of it lies before that. */
  lemma {:induction false} OldestOf(log: seq<Event>, lo: int, hi: int)
    requires IsLog(log) && Messages(log, lo, hi) != []
    ensures var oldest := Messages(log, lo, hi)[0].number;
            && 1 <= oldest && lo < oldest <= hi
            && Messages(log, oldest - 1, hi) == Messages(log, lo, hi)
  {
    TailIsLog(log);
    if log[0].isMessage && lo < log[0].number <= hi {
      SameAbove(log[1..], lo, log[0].number - 1, hi);
    } else {
      OldestOf(log[1..], lo, hi);
    }
  }

  // ------------------------------------------- beyond 32: the rounds run out first

  function AllMessages(n: nat): seq<Event> {
    seq(n, i => Event(i + 1, true, ""))
  }

  /** A service that always advances, by a single event per page. */
  function OneByOne(n: nat): (nat, int) -> Page {
    (k, since) => if since < 0 then Page([], 0, n, true)
                  else if since < n then Page([Event(since + 1, true, "")], since + 1, n, since + 1 < n)
                  else Page([], since, n, false)
  }

  lemma {:induction false} MessagesOfAll(n: nat, lo: int, hi: int)
    requires 0 <= lo <= hi <= n
    ensures Messages(AllMessages(n), lo, hi) == AllMessages(n)[lo..hi]
  {
    MessagesOfSlice(n, 0, lo, hi);
    assert AllMessages(n)[0..] == AllMessages(n);
  }

  lemma {:induction false} MessagesOfSlice(n: nat, from: nat, lo: int, hi: int)
    requires 0 <= from <= n && 0 <= lo <= hi <= n
    ensures Messages(AllMessages(n)[from..], lo, hi) == if hi <= from then [] else AllMessages(n)[Max(lo, from)..hi]
    decreases n - from
  {
    if from < n {
      MessagesOfSlice(n, from + 1, lo, hi);
      SliceStep(n, from, lo, hi);
    }
  }

  lemma SliceStep(n: nat, from: nat, lo: int, hi: int)
    requires from < n
    ensures var rest := Messages(AllMessages(n)[from + 1..], lo, hi);
            Messages(AllMessages(n)[from..], lo, hi) == if lo <= from < hi then [AllMessages(n)[from]] + rest else rest
  {
    var rest := AllMessages(n)[from..];
    assert rest[0].number == from + 1 && rest[0].isMessage && rest[1..] == AllMessages(n)[from + 1..];
  }

  lemma OneByOneIsService(n: nat, limit: int, before: int)
    requires limit > 0 && 1 < before <= n + 1
    ensures Service(AllMessages(n), limit, OneByOne(n)) && Forthcoming(AllMessages(n), before - 1, OneByOne(n))
  {
    var log, answer := AllMessages(n), OneByOne(n);
    assert IsLog(log);
    forall k: nat, since: int
      ensures Obeys(log, limit, since, answer(k, since))
      ensures !answer(k, since).hasMore ==> Messages(log, answer(k, since).cursor, before - 1) == []
    {
      var page := answer(k, since);
      NoMessagesBelow(log, since, since);
      if since < 0 {
        NoMessagesBelow(log, since, 0);
      } else if since < n {
        MessagesOfAll(n, since, since + 1);
      }
      if !page.hasMore {
        NoMessagesBelow(log, page.cursor, before - 1);
      }
    }
  }

  lemma {:induction false} CollectOneByOne(n: nat, round: nat, start: int, before: int, collected: seq<Event>)
    requires round <= MAX_ROUNDS && 0 <= start && start + MAX_ROUNDS < before - 1 <= n
    requires collected == AllMessages(n)[start..start + round]
    ensures Collect(OneByOne(n), round, start + round, before, collected) == (AllMessages(n)[start..start + MAX_ROUNDS], start + MAX_ROUNDS)
    decreases MAX_ROUNDS - round
  {
    if round < MAX_ROUNDS {
      var seen := start + round;
      var e := Event(seen + 1, true, "");
      assert Older([e], before) == [e];
      assert AllMessages(n)[start..seen] + [e] == AllMessages(n)[start..seen + 1];
      CollectOneByOne(n, round + 1, start, before, collected + [e]);
    }
  }

  /** Beyond a limit of 32 (the default is 50) the rounds can run out first: for every
      such limit a service that advances one event at a time leaves the page without the
      newest messages of its window, among them the one just before `before`, and the
      next older page asks for what precedes the page's oldest message. */
  lemma OlderPageSkipsBeyond32(n: nat, before: int, limit: int)
    requires limit > MAX_ROUNDS && 1 + limit <= before <= n + 1
    ensures Service(AllMessages(n), limit, OneByOne(n)) && Forthcoming(AllMessages(n), before - 1, OneByOne(n))
    ensures var start := before - 1 - limit;
            var (collected, _) := Collect(OneByOne(n), 0, start, before, []);
            && LastN(collected, limit) == AllMessages(n)[start..start + MAX_ROUNDS]
            && AllMessages(n)[before - 2] in Window(AllMessages(n), before, limit)
            && AllMessages(n)[before - 2] !in LastN(collected, limit)
  {
    var start := before - 1 - limit;
    OneByOneIsService(n, limit, before);
    CollectOneByOne(n, 0, start, before, []);
    MessagesOfAll(n, start, before - 1);
    var window := AllMessages(n)[start..before - 1];
    assert window[|window| - 1] == AllMessages(n)[before - 2];
  }
}
