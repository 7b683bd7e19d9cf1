/** Any number of observer ticks, seen from one bot: its snapshots are stretches of one
    growing log of completed turns, and what is emitted for it is worked out exactly. */
module CompletionRuns {
  import opened Wrappers
  import opened BotNotify

  /** A bot's completed turns, oldest first: distinct cursors, increasing times. */
  ghost predicate IsLog(log: seq<Turn>) {
    && (forall i :: 0 <= i < |log| ==> log[i].cursor != "")
    && (forall i, j :: 0 <= i < j < |log| ==> log[i].cursor != log[j].cursor && log[i].completedAt < log[j].completedAt)
  }

  /** The stretch of the log one tick shows; an empty one is a chat that could not be read. */
  datatype Sight = Sight(start: nat, end: nat)

  predicate Fits(s: Sight, log: seq<Turn>) {
    s.start <= s.end <= |log|
  }

  ghost predicate PlainName(name: string) {
    '|' !in name
  }

  /** The tick's rows show this bot as `s` says, under distinct names without `|`. */
  ghost predicate Shows(rows: seq<BotRow>, bot: string, log: seq<Turn>, s: Sight) {
    && Fits(s, log)
    && (forall i :: 0 <= i < |rows| ==> PlainName(rows[i].name))
    && (forall i, j :: 0 <= i < j < |rows| ==> rows[i].name != rows[j].name)
    && (forall i :: 0 <= i < |rows| && rows[i].name == bot ==> rows[i].turns == log[s.start..s.end])
    && ((forall i :: 0 <= i < |rows| ==> rows[i].name != bot) ==> s.start == s.end)
  }

  function EventsOf(events: seq<Completion>, bot: string): seq<Turn> {
    if events == [] then [] else
      var last := events[|events| - 1];
      EventsOf(events[..|events| - 1], bot) + (if last.bot == bot then [last.turn] else [])
  }

  function MarkerAt(log: seq<Turn>, p: nat): Marker
    requires p <= |log|
  {
    if p == 0 then UNMARKED else MarkerOf(log[p - 1])
  }

  /** The turns below position `p` are behind the marker, and no later one was ever seen. */
  ghost predicate Tracks(notified: map<string, Marker>, seen: seq<string>, bot: string, log: seq<Turn>, p: nat) {
    && p <= |log|
    && MarkerFor(notified, bot) == MarkerAt(log, p)
    && forall i :: p <= i < |log| ==> EventId(bot, log[i].cursor) !in seen
  }

  // ---------------------------------------------------------------- event ids

  lemma BarSplit(a: string, x: string, b: string, y: string)
    requires '|' !in a && '|' !in b && a + "|" + x == b + "|" + y
    ensures a == b && x == y
  {
    var s, t := a + "|" + x, b + "|" + y;
    assert s[|a|] == '|' && t[|b|] == '|';
    assert forall k :: 0 <= k < |a| ==> s[k] == a[k] && a[k] in a;
    assert forall k :: 0 <= k < |b| ==> t[k] == b[k] && b[k] in b;
    assert |a| == |b|;
    assert a == s[..|a|] && b == t[..|b|];
    assert x == s[|a| + 1..] && y == t[|b| + 1..];
  }

  /** Event ids tell bots and cursors apart as long as no bot's name has a `|` in it. */
  lemma EventIdInjective(a: string, x: string, b: string, y: string)
    requires PlainName(a) && PlainName(b) && EventId(a, x) == EventId(b, y)
    ensures a == b && x == y
  {
    var head := "bot_completion|";
    assert EventId(a, x) == head + (a + "|" + x) && EventId(b, y) == head + (b + "|" + y);
    assert (head + (a + "|" + x))[|head|..] == a + "|" + x;
    assert (head + (b + "|" + y))[|head|..] == b + "|" + y;
    BarSplit(a, x, b, y);
  }

  /** Two different bots can share an event id exactly when one's name is the other's, a `|`, and
      more; no other names ever clash. */
  lemma EventIdsClashIff(a: string, b: string)
    requires a != b
    ensures (exists x, y :: EventId(a, x) == EventId(b, y)) <==> a + "|" <= b || b + "|" <= a
  {
    forall x, y | EventId(a, x) == EventId(b, y) ensures a + "|" <= b || b + "|" <= a {
      ClashShape(a, x, b, y);
    }
    if a + "|" <= b {
      Clash(a, b);
    } else if b + "|" <= a {
      Clash(b, a);
    }
  }

  lemma ClashShape(a: string, x: string, b: string, y: string)
    requires a != b && EventId(a, x) == EventId(b, y)
    ensures a + "|" <= b || b + "|" <= a
  {
    var head := "bot_completion|";
    var s, t := EventId(a, x), EventId(b, y);
    assert s == head + (a + "|" + x) && t == head + (b + "|" + y);
    assert s[|head|..] == a + "|" + x && t[|head|..] == b + "|" + y;
    var u := a + "|" + x;
    assert u == b + "|" + y;
    assert u[..|a|] == a && u[..|b|] == b && u[|a|] == '|' && u[|b|] == '|';
    if |a| < |b| {
      assert b[..|a|] == a && b[|a|] == '|';
    } else if |b| < |a| {
      assert a[..|b|] == b && a[|b|] == '|';
    }
  }

  lemma Clash(a: string, b: string)
    requires a + "|" <= b
    ensures exists x, y :: EventId(a, x) == EventId(b, y)
  {
    var more := b[|a| + 1..];
    assert b == a + "|" + more;
    assert EventId(a, more + "|") == EventId(b, "");
  }

  // ------------------------------------------------------------ one bot's tick

  lemma SliceIsLog(log: seq<Turn>, s: Sight)
    requires IsLog(log) && Fits(s, log)
    ensures IsLog(log[s.start..s.end]) && WithCursor(log[s.start..s.end]) == log[s.start..s.end]
  {
    AllWithCursor(log[s.start..s.end]);
  }

  lemma {:induction false} AllWithCursor(turns: seq<Turn>)
    requires forall i :: 0 <= i < |turns| ==> turns[i].cursor != ""
    ensures WithCursor(turns) == turns
  {
    if turns != [] {
      assert forall i :: 0 <= i < |turns[1..]| ==> turns[1..][i] == turns[i + 1];
      AllWithCursor(turns[1..]);
      assert [turns[0]] + turns[1..] == turns;
    }
  }

  lemma {:induction false} IndexFinds(turns: seq<Turn>, k: nat)
    requires IsLog(turns) && k < |turns|
    ensures IndexOfCursor(turns, turns[k].cursor) == Some(k)
  {
    if k > 0 {
      assert forall i :: 0 <= i < |turns[1..]| ==> turns[1..][i] == turns[i + 1];
      IndexFinds(turns[1..], k - 1);
    }
  }

  lemma {:induction false} IndexAbsent(turns: seq<Turn>, cursor: string)
    requires forall i :: 0 <= i < |turns| ==> turns[i].cursor != cursor
    ensures IndexOfCursor(turns, cursor).None?
  {
    if turns != [] {
      assert forall i :: 0 <= i < |turns[1..]| ==> turns[1..][i] == turns[i + 1];
      IndexAbsent(turns[1..], cursor);
    }
  }

  lemma {:induction false} AllLater(turns: seq<Turn>, at: int)
    requires forall i :: 0 <= i < |turns| ==> turns[i].completedAt > at
    ensures LaterThan(turns, at) == turns
  {
    if turns != [] {
      assert forall i :: 0 <= i < |turns[1..]| ==> turns[1..][i] == turns[i + 1];
      AllLater(turns[1..], at);
      assert [turns[0]] + turns[1..] == turns;
    }
  }

  /** Whether the marker's turn is still shown or has scrolled off, what counts as new is
      what lies past the marker. */
  lemma NewerIsPastMarker(log: seq<Turn>, s: Sight, p: nat)
    requires IsLog(log) && Fits(s, log) && p <= |log| && (s.start < s.end ==> p <= s.end)
    ensures TurnsAfterCursor(log[s.start..s.end], MarkerAt(log, p)) == Piece(log, p, s)
  {
    var turns := log[s.start..s.end];
    SliceIsLog(log, s);
    if turns != [] && p > 0 {
      if s.start <= p - 1 {
        assert turns[p - 1 - s.start] == log[p - 1];
        IndexFinds(turns, p - 1 - s.start);
      } else {
        IndexAbsent(turns, log[p - 1].cursor);
        AllLater(turns, log[p - 1].completedAt);
      }
    }
  }

  lemma EventsOfAppend(events: seq<Completion>, e: Completion, bot: string)
    ensures EventsOf(events + [e], bot) == EventsOf(events, bot) + if e.bot == bot then [e.turn] else []
  {
    assert (events + [e])[..|events|] == events;
  }

  /** Turns none of which has been seen are all emitted, in order. */
  lemma {:induction false} EmitAll(w: Walk, bot: string, newer: seq<Turn>)
    requires PlainName(bot) && IsLog(newer)
    requires forall i :: 0 <= i < |newer| ==> EventId(bot, newer[i].cursor) !in w.seen
    ensures var out := Emit(w, bot, newer);
            && EventsOf(out.events, bot) == EventsOf(w.events, bot) + newer
            && (forall c :: EventId(bot, c) in out.seen ==> EventId(bot, c) in w.seen || exists i :: 0 <= i < |newer| && newer[i].cursor == c)
    decreases |newer|
  {
    if newer != [] {
      var id := EventId(bot, newer[0].cursor);
      var next := w.(seen := w.seen + [id], events := w.events + [Completion(bot, newer[0])]);
      var rest := newer[1..];
      assert forall i :: 0 <= i < |rest| ==> rest[i] == newer[i + 1];
      forall i | 0 <= i < |rest|
        ensures EventId(bot, rest[i].cursor) !in next.seen
      {
        if EventId(bot, rest[i].cursor) == id {
          EventIdInjective(bot, rest[i].cursor, bot, newer[0].cursor);
        }
      }
      EmitAll(next, bot, rest);
      EventsOfAppend(w.events, Completion(bot, newer[0]), bot);
      assert EventsOf(w.events, bot) + [newer[0]] + rest == EventsOf(w.events, bot) + newer;
      forall c | EventId(bot, c) in Emit(w, bot, newer).seen && EventId(bot, c) !in w.seen
        ensures exists i :: 0 <= i < |newer| && newer[i].cursor == c
      {
        if EventId(bot, c) in next.seen {
          EventIdInjective(bot, c, bot, newer[0].cursor);
        } else {
          var i :| 0 <= i < |rest| && rest[i].cursor == c;
          assert newer[i + 1].cursor == c;
        }
      }
    }
  }

  /** Another bot's turns leave this bot's events and ids alone. */
  lemma {:induction false} EmitOther(w: Walk, other: string, newer: seq<Turn>, bot: string)
    requires PlainName(other) && PlainName(bot) && other != bot
    ensures var out := Emit(w, other, newer);
            && EventsOf(out.events, bot) == EventsOf(w.events, bot)
            && forall c :: EventId(bot, c) in out.seen <==> EventId(bot, c) in w.seen
    decreases |newer|
  {
    if newer != [] {
      var id := EventId(other, newer[0].cursor);
      if id in w.seen {
        EmitOther(w, other, newer[1..], bot);
      } else {
        var next := w.(seen := w.seen + [id], events := w.events + [Completion(other, newer[0])]);
        EventsOfAppend(w.events, Completion(other, newer[0]), bot);
        forall c | EventId(bot, c) == id
          ensures false
        {
          EventIdInjective(bot, c, other, newer[0].cursor);
        }
        EmitOther(next, other, newer[1..], bot);
      }
    }
  }

  /** What a tick emits for the bot, and where it leaves the marker. */
  function Piece(log: seq<Turn>, p: nat, s: Sight): seq<Turn>
    requires Fits(s, log) && (s.start < s.end ==> p <= s.end)
  {
    if s.start == s.end then [] else log[Max(p, s.start)..s.end]
  }

  function After(p: nat, s: Sight): nat {
    if s.start < s.end then s.end else p
  }

  /** Emitting what lies past the marker leaves no later turn seen. */
  lemma EmitPiece(w: Walk, bot: string, log: seq<Turn>, p: nat, s: Sight)
    requires IsLog(log) && PlainName(bot) && Fits(s, log) && (s.start < s.end ==> p <= s.end)
    requires Tracks(w.notified, w.seen, bot, log, p)
    ensures var out := Emit(w, bot, Piece(log, p, s));
            && EventsOf(out.events, bot) == EventsOf(w.events, bot) + Piece(log, p, s)
            && forall i :: After(p, s) <= i < |log| ==> EventId(bot, log[i].cursor) !in out.seen
  {
    var newer := Piece(log, p, s);
    assert forall i :: 0 <= i < |newer| ==> newer[i] == log[Max(p, s.start) + i];
    EmitAll(w, bot, newer);
    var out := Emit(w, bot, newer);
    forall i | After(p, s) <= i < |log|
      ensures EventId(bot, log[i].cursor) !in out.seen
    {
      assert forall k :: 0 <= k < |newer| ==> newer[k].cursor != log[i].cursor;
    }
  }

  /** The bot's own row emits exactly what lies past its marker, and moves the marker. */
  lemma VisitOwn(w: Walk, bot: string, log: seq<Turn>, p: nat, s: Sight, row: BotRow)
    requires IsLog(log) && PlainName(bot) && bot != "" && Fits(s, log) && (s.start < s.end ==> p <= s.end)
    requires Tracks(w.notified, w.seen, bot, log, p)
    requires row == BotRow(bot, log[s.start..s.end])
    ensures var out := VisitRow(w, row);
            && EventsOf(out.events, bot) == EventsOf(w.events, bot) + Piece(log, p, s)
            && Tracks(out.notified, out.seen, bot, log, After(p, s))
  {
    SliceIsLog(log, s);
    NewerIsPastMarker(log, s, p);
    EmitPiece(w, bot, log, p, s);
    VisitIs(w, row, Piece(log, p, s));
    MarkerMoves(w.notified, bot, log, p, s);
  }

  lemma VisitIs(w: Walk, row: BotRow, newer: seq<Turn>)
    requires row.name != "" && WithCursor(row.turns) == row.turns
    requires TurnsAfterCursor(row.turns, MarkerFor(w.notified, row.name)) == newer
    ensures var out, emitted := VisitRow(w, row), Emit(w, row.name, newer);
            && out.events == emitted.events && out.seen == emitted.seen
            && out.notified == NotifiedAfter(w.notified, row.name, row.turns)
  {
  }

  lemma MarkerMoves(notified: map<string, Marker>, bot: string, log: seq<Turn>, p: nat, s: Sight)
    requires Fits(s, log) && p <= |log| && MarkerFor(notified, bot) == MarkerAt(log, p)
    ensures MarkerFor(NotifiedAfter(notified, bot, log[s.start..s.end]), bot) == MarkerAt(log, After(p, s))
  {
  }

  lemma VisitOther(w: Walk, row: BotRow, bot: string)
    requires PlainName(row.name) && PlainName(bot) && row.name != bot
    ensures var out := VisitRow(w, row);
            && EventsOf(out.events, bot) == EventsOf(w.events, bot)
            && MarkerFor(out.notified, bot) == MarkerFor(w.notified, bot)
            && forall c :: EventId(bot, c) in out.seen <==> EventId(bot, c) in w.seen
  {
    var newer := TurnsAfterCursor(WithCursor(row.turns), MarkerFor(w.notified, row.name));
    EmitOther(w, row.name, newer, bot);
    EmitKeepsNotified(w, row.name, newer);
  }

  lemma {:induction false} VisitAll(w: Walk, rows: seq<BotRow>, bot: string, log: seq<Turn>, p: nat, s: Sight)
    requires IsLog(log) && PlainName(bot) && bot != "" && (s.start < s.end ==> p <= s.end)
    requires Shows(rows, bot, log, s) && Tracks(w.notified, w.seen, bot, log, p)
    ensures var out := VisitRows(w, rows);
            && EventsOf(out.events, bot) == EventsOf(w.events, bot) + Piece(log, p, s)
            && Tracks(out.notified, out.seen, bot, log, After(p, s))
    decreases |rows|
  {
    if rows != [] {
      var rest := rows[1..];
      assert forall i :: 0 <= i < |rest| ==> rest[i] == rows[i + 1];
      if rows[0].name == bot {
        VisitOwn(w, bot, log, p, s, rows[0]);
        VisitAll(VisitRow(w, rows[0]), rest, bot, log, After(p, s), Sight(s.end, s.end));
      } else {
        VisitOther(w, rows[0], bot);
        if s.start != s.end {
          var i :| 0 <= i < |rows| && rows[i].name == bot;
          assert rest[i - 1].name == bot;
        }
        VisitAll(VisitRow(w, rows[0]), rest, bot, log, p, s);
      }
    }
  }

  /** One tick, whatever the other bots do and however much of the seen list has been
      dropped: the bot's turns past its marker that the tick shows, in order. */
  lemma TickEmits(state: State, rows: seq<BotRow>, bot: string, log: seq<Turn>, p: nat, s: Sight)
    requires IsLog(log) && PlainName(bot) && bot != "" && (s.start < s.end ==> p <= s.end)
    requires state.enabled && state.baselineDone
    requires Shows(rows, bot, log, s) && Tracks(state.notified, state.seen, bot, log, p)
    ensures var (events, next) := Discover(rows, state);
            && EventsOf(events, bot) == Piece(log, p, s)
            && Tracks(next.notified, next.seen, bot, log, After(p, s))
            && next.enabled && next.baselineDone
  {
    var w := Walk(state.notified, state.seen, []);
    VisitAll(w, rows, bot, log, p, s);
    var out := VisitRows(w, rows);
    assert forall id :: id in LastOf(out.seen) ==> id in out.seen;
  }

  // ----------------------------------------------------------------- many ticks

  function RunTicks(ticks: seq<seq<BotRow>>, state: State): (seq<Completion>, State)
    decreases |ticks|
  {
    if ticks == [] then ([], state)
    else
      var (events, next) := Discover(ticks[0], state);
      var (later, last) := RunTicks(ticks[1..], next);
      (events + later, last)
  }

  /** Each tick that shows the bot at all shows the log at least as far as the marker:
      the log only grows. */
  ghost predicate Growing(sights: seq<Sight>, log: seq<Turn>, p: nat)
    decreases |sights|
  {
    sights == [] ||
    (Fits(sights[0], log) && (sights[0].start < sights[0].end ==> p <= sights[0].end)
     && Growing(sights[1..], log, After(p, sights[0])))
  }

  ghost function Expected(sights: seq<Sight>, log: seq<Turn>, p: nat): seq<Turn>
    requires Growing(sights, log, p)
    decreases |sights|
  {
    if sights == [] then [] else Piece(log, p, sights[0]) + Expected(sights[1..], log, After(p, sights[0]))
  }

  lemma EventsOfConcat(a: seq<Completion>, b: seq<Completion>, bot: string)
    ensures EventsOf(a + b, bot) == EventsOf(a, bot) + EventsOf(b, bot)
  {
    if b == [] {
      assert a + b == a;
    } else {
      assert (a + b)[..|a + b| - 1] == a + b[..|b| - 1];
      EventsOfConcat(a, b[..|b| - 1], bot);
    }
  }

  /** Over any number of ticks the observer emits for a bot exactly the expected pieces
      of its log. */
  lemma {:induction false} RunEmits(ticks: seq<seq<BotRow>>, sights: seq<Sight>, state: State, bot: string, log: seq<Turn>, p: nat)
    requires IsLog(log) && PlainName(bot) && bot != "" && state.enabled && state.baselineDone
    requires |ticks| == |sights| && Growing(sights, log, p)
    requires forall k :: 0 <= k < |ticks| ==> Shows(ticks[k], bot, log, sights[k])
    requires Tracks(state.notified, state.seen, bot, log, p)
    ensures EventsOf(RunTicks(ticks, state).0, bot) == Expected(sights, log, p)
    decreases |ticks|
  {
    if ticks != [] {
      TickEmits(state, ticks[0], bot, log, p, sights[0]);
      var (events, next) := Discover(ticks[0], state);
      assert forall k :: 0 <= k < |ticks[1..]| ==> ticks[1..][k] == ticks[k + 1] && sights[1..][k] == sights[k + 1];
      RunEmits(ticks[1..], sights[1..], next, bot, log, After(p, sights[0]));
      EventsOfConcat(events, RunTicks(ticks[1..], next).0, bot);
    }
  }

  // --------------------------------------- which turns that is, and in what order

  /** A turn is emitted exactly when some tick shows it that no earlier tick, and not the
      baseline, had already looked past. */
  ghost predicate EmittedAt(sights: seq<Sight>, p: nat, k: nat, i: nat) {
    && k < |sights| && sights[k].start <= i < sights[k].end && p <= i
    && forall m :: 0 <= m < k && sights[m].start < sights[m].end ==> sights[m].end <= i
  }

  ghost predicate Ordered(turns: seq<Turn>) {
    forall i, j :: 0 <= i < j < |turns| ==> turns[i].completedAt < turns[j].completedAt
  }

  lemma {:induction false} ExpectedFrom(sights: seq<Sight>, log: seq<Turn>, p: nat, t: Turn)
    requires p <= |log| && Growing(sights, log, p) && t in Expected(sights, log, p)
    ensures exists n :: p <= n < |log| && log[n] == t
    decreases |sights|
  {
    var piece, q := Piece(log, p, sights[0]), After(p, sights[0]);
    if t in piece {
      var n :| 0 <= n < |piece| && piece[n] == t;
      assert log[Max(p, sights[0].start) + n] == t;
    } else {
      ExpectedFrom(sights[1..], log, q, t);
    }
  }

  lemma OrderedConcat(a: seq<Turn>, b: seq<Turn>, at: int)
    requires Ordered(a) && Ordered(b)
    requires (forall t :: t in a ==> t.completedAt <= at) && forall t :: t in b ==> at < t.completedAt
    ensures Ordered(a + b)
  {
  }

  /** Each emitted turn is emitted once, in completion order. */
  lemma {:induction false} ExpectedIsOrdered(sights: seq<Sight>, log: seq<Turn>, p: nat)
    requires IsLog(log) && p <= |log| && Growing(sights, log, p)
    ensures Ordered(Expected(sights, log, p))
    decreases |sights|
  {
    if sights != [] {
      var piece, q := Piece(log, p, sights[0]), After(p, sights[0]);
      var rest := Expected(sights[1..], log, q);
      ExpectedIsOrdered(sights[1..], log, q);
      if piece == [] {
        assert piece + rest == rest;
      } else {
        assert forall i :: 0 <= i < |piece| ==> piece[i] == log[Max(p, sights[0].start) + i];
        forall t | t in rest
          ensures log[q - 1].completedAt < t.completedAt
        {
          ExpectedFrom(sights[1..], log, q, t);
        }
        OrderedConcat(piece, rest, log[q - 1].completedAt);
      }
    }
  }

  /** What the later ticks emit, seen from the first. */
  lemma EmittedLater(sights: seq<Sight>, p: nat, k: nat, i: nat)
    requires sights != [] && (sights[0].start < sights[0].end ==> p <= sights[0].end)
    ensures EmittedAt(sights[1..], After(p, sights[0]), k, i) <==> EmittedAt(sights, p, k + 1, i)
  {
    var later := sights[1..];
    assert forall m :: 0 <= m < |later| ==> later[m] == sights[m + 1];
    if EmittedAt(later, After(p, sights[0]), k, i) {
      forall m | 0 <= m < k + 1 && sights[m].start < sights[m].end
        ensures sights[m].end <= i
      {
        assert m > 0 ==> sights[m] == later[m - 1];
      }
    }
  }

  lemma PieceHolds(log: seq<Turn>, p: nat, s: Sight, i: nat)
    requires IsLog(log) && Fits(s, log) && (s.start < s.end ==> p <= s.end) && i < |log|
    ensures log[i] in Piece(log, p, s) <==> s.start <= i < s.end && p <= i
  {
    var piece, from := Piece(log, p, s), Max(p, s.start);
    assert forall n :: 0 <= n < |piece| ==> piece[n] == log[from + n];
    if s.start <= i < s.end && p <= i {
      assert piece[i - from] == log[i];
    }
  }

  lemma {:induction false} ExpectedExactly(sights: seq<Sight>, log: seq<Turn>, p: nat, i: nat)
    requires IsLog(log) && p <= |log| && Growing(sights, log, p) && i < |log|
    ensures log[i] in Expected(sights, log, p) <==> exists k: nat :: EmittedAt(sights, p, k, i)
    decreases |sights|
  {
    if sights != [] {
      var q := After(p, sights[0]);
      ExpectedExactly(sights[1..], log, q, i);
      PieceHolds(log, p, sights[0], i);
      assert EmittedAt(sights, p, 0, i) <==> log[i] in Piece(log, p, sights[0]);
      if k: nat :| EmittedAt(sights, p, k, i) {
        if k > 0 {
          EmittedLater(sights, p, k - 1, i);
        }
      }
      if k: nat :| EmittedAt(sights[1..], q, k, i) {
        EmittedLater(sights, p, k, i);
      }
    }
  }

  /** Snapshots that only slide forward: none reaches back before where an earlier one
      started. */
  ghost predicate Sliding(sights: seq<Sight>) {
    forall m, k :: 0 <= m < k < |sights| && sights[m].start < sights[m].end && sights[k].start < sights[k].end ==>
      sights[m].start <= sights[k].start
  }

  lemma {:induction false} SlidingEmitted(sights: seq<Sight>, p: nat, k: nat, i: nat)
    requires Sliding(sights) && k < |sights| && sights[k].start <= i < sights[k].end && p <= i
    ensures exists n: nat :: EmittedAt(sights, p, n, i)
    decreases k
  {
    if m: nat :| m < k && sights[m].start < sights[m].end && i < sights[m].end {
      assert sights[m].start <= sights[k].start;
      SlidingEmitted(sights, p, m, i);
    } else {
      assert EmittedAt(sights, p, k, i);
    }
  }

  /** For every bot, any number of ticks, any other bots and any truncation of the seen
      list: what is emitted is in completion order and each turn once; a turn past the
      baseline is emitted exactly when the first tick to reach it shows it; and where
      snapshots only slide forward, exactly when any tick shows it. */
  lemma CompletionsEmitted(ticks: seq<seq<BotRow>>, sights: seq<Sight>, state: State, bot: string, log: seq<Turn>, p: nat, i: nat)
    requires IsLog(log) && PlainName(bot) && bot != "" && state.enabled && state.baselineDone
    requires |ticks| == |sights| && Growing(sights, log, p)
    requires forall k :: 0 <= k < |ticks| ==> Shows(ticks[k], bot, log, sights[k])
    requires Tracks(state.notified, state.seen, bot, log, p) && i < |log|
    ensures var emitted := EventsOf(RunTicks(ticks, state).0, bot);
            && Ordered(emitted)
            && (log[i] in emitted <==> exists k: nat :: EmittedAt(sights, p, k, i))
            && (Sliding(sights) ==> (log[i] in emitted <==> p <= i && exists k: nat :: k < |sights| && sights[k].start <= i < sights[k].end))
  {
    RunEmits(ticks, sights, state, bot, log, p);
    ExpectedIsOrdered(sights, log, p);
    ExpectedExactly(sights, log, p, i);
    if Sliding(sights) && p <= i && exists k: nat :: k < |sights| && sights[k].start <= i < sights[k].end {
      var k: nat :| k < |sights| && sights[k].start <= i < sights[k].end;
      SlidingEmitted(sights, p, k, i);
    }
    if exists k: nat :: EmittedAt(sights, p, k, i) {
      var k: nat :| EmittedAt(sights, p, k, i);
      assert sights[k].start <= i < sights[k].end;
    }
  }

  /** A snapshot that reaches back past an earlier one shows turns that are never emitted:
      being shown after the baseline is not enough. */
  lemma ReachingBackIsNotEmitted(log: seq<Turn>, sights: seq<Sight>)
    requires IsLog(log) && |log| == 2
    requires |sights| == 2 && sights[0] == Sight(1, 2) && sights[1] == Sight(0, 2)
    ensures Growing(sights, log, 0) && sights[1].start <= 0 < sights[1].end && log[0] !in Expected(sights, log, 0)
  {
    var tail := sights[1..];
    assert |tail[1..]| == 0;
    assert Piece(log, 0, sights[0]) == [log[1]];
    assert Piece(log, 2, tail[0]) == [];
    assert Expected(tail, log, 2) == [];
    assert Expected(sights, log, 0) == [log[1]];
  }

  // ----------------------------------------------------------------- baselines

  lemma {:induction false} BaselineMarks(rows: seq<BotRow>, bot: string, log: seq<Turn>, s: Sight)
    requires IsLog(log) && bot != "" && Shows(rows, bot, log, s)
    ensures MarkerFor(BaselineOf(rows), bot) == MarkerAt(log, if s.start < s.end then s.end else 0)
  {
    if rows != [] {
      var earlier, row := rows[..|rows| - 1], rows[|rows| - 1];
      assert forall k :: 0 <= k < |earlier| ==> earlier[k] == rows[k];
      if row.name == bot {
        BaselineAbsent(earlier, bot);
        if s.start < s.end {
          assert row.turns[|row.turns| - 1] == log[s.end - 1];
        }
      } else {
        if s.start < s.end {
          var k :| 0 <= k < |rows| && rows[k].name == bot;
          assert earlier[k].name == bot;
        }
        BaselineMarks(earlier, bot, log, s);
      }
    }
  }

  lemma BaselineAbsent(rows: seq<BotRow>, bot: string)
    requires forall k :: 0 <= k < |rows| ==> rows[k].name != bot
    ensures bot !in BaselineOf(rows)
  {
  }

  /** No turn from position `p` on has ever been announced. */
  ghost predicate SeenBelow(seen: seq<string>, bot: string, log: seq<Turn>, p: nat) {
    forall i :: p <= i < |log| ==> EventId(bot, log[i].cursor) !in seen
  }

  /** Opting in, for the first time or again, alerts for nothing the baseline shows: the
      marker starts behind the newest turn shown. */
  lemma BaselineTracks(rows: seq<BotRow>, state: State, bot: string, log: seq<Turn>, s: Sight, p: nat)
    requires IsLog(log) && bot != "" && Shows(rows, bot, log, s)
    requires SeenBelow(state.seen, bot, log, p) && s.start < s.end && p <= s.end
    ensures var next := EstablishBaseline(rows, state);
            Tracks(next.notified, next.seen, bot, log, s.end)
  {
    BaselineMarks(rows, bot, log, s);
  }

  /** The turns whose announcement is not among the ids remembered. */
  function Unseen(bot: string, turns: seq<Turn>, seen: seq<string>): seq<Turn> {
    if turns == [] then []
    else if EventId(bot, turns[0].cursor) in seen then Unseen(bot, turns[1..], seen)
    else [turns[0]] + Unseen(bot, turns[1..], seen)
  }

  lemma {:induction false} UnseenDepends(bot: string, turns: seq<Turn>, seen: seq<string>, other: seq<string>)
    requires forall i :: 0 <= i < |turns| ==> (EventId(bot, turns[i].cursor) in seen <==> EventId(bot, turns[i].cursor) in other)
    ensures Unseen(bot, turns, seen) == Unseen(bot, turns, other)
  {
    if turns != [] {
      assert forall i :: 0 <= i < |turns[1..]| ==> turns[1..][i] == turns[i + 1];
      UnseenDepends(bot, turns[1..], seen, other);
    }
  }

  /** Emitting announces the unseen turns in order, and remembers no others. */
  lemma {:induction false} EmitUnseen(w: Walk, bot: string, newer: seq<Turn>)
    requires PlainName(bot) && IsLog(newer)
    ensures var out := Emit(w, bot, newer);
            && EventsOf(out.events, bot) == EventsOf(w.events, bot) + Unseen(bot, newer, w.seen)
            && (forall c :: EventId(bot, c) in out.seen ==> EventId(bot, c) in w.seen || exists i :: 0 <= i < |newer| && newer[i].cursor == c)
    decreases |newer|
  {
    if newer != [] {
      var rest := newer[1..];
      assert forall i :: 0 <= i < |rest| ==> rest[i] == newer[i + 1];
      if EventId(bot, newer[0].cursor) in w.seen {
        EmitUnseen(w, bot, rest);
      } else {
        EmitFirst(w, bot, newer);
        var next := w.(seen := w.seen + [EventId(bot, newer[0].cursor)], events := w.events + [Completion(bot, newer[0])]);
        EmitUnseen(next, bot, rest);
        assert EventsOf(w.events, bot) + ([newer[0]] + Unseen(bot, rest, w.seen))
            == (EventsOf(w.events, bot) + [newer[0]]) + Unseen(bot, rest, w.seen);
        forall c | EventId(bot, c) in Emit(next, bot, rest).seen && EventId(bot, c) !in w.seen
          ensures exists i :: 0 <= i < |newer| && newer[i].cursor == c
        {
          if EventId(bot, c) in next.seen {
            EventIdInjective(bot, c, bot, newer[0].cursor);
          } else {
            var i :| 0 <= i < |rest| && rest[i].cursor == c;
            assert newer[i + 1].cursor == c;
          }
        }
      }
    }
  }

  /** What announcing the first turn changes for the rest: nothing but the event. */
  lemma EmitFirst(w: Walk, bot: string, newer: seq<Turn>)
    requires PlainName(bot) && IsLog(newer) && newer != []
    ensures var next := w.(seen := w.seen + [EventId(bot, newer[0].cursor)], events := w.events + [Completion(bot, newer[0])]);
            && EventsOf(next.events, bot) == EventsOf(w.events, bot) + [newer[0]]
            && Unseen(bot, newer[1..], next.seen) == Unseen(bot, newer[1..], w.seen)
  {
    var rest := newer[1..];
    EventsOfAppend(w.events, Completion(bot, newer[0]), bot);
    forall i | 0 <= i < |rest|
      ensures EventId(bot, rest[i].cursor) != EventId(bot, newer[0].cursor)
    {
      assert rest[i] == newer[i + 1];
      if EventId(bot, rest[i].cursor) == EventId(bot, newer[0].cursor) {
        EventIdInjective(bot, rest[i].cursor, bot, newer[0].cursor);
      }
    }
    UnseenDepends(bot, rest, w.seen + [EventId(bot, newer[0].cursor)], w.seen);
  }

  lemma NoneSeenPast(w: Walk, bot: string, log: seq<Turn>, s: Sight, p: nat)
    requires IsLog(log) && PlainName(bot) && Fits(s, log) && p <= s.end && SeenBelow(w.seen, bot, log, p)
    ensures SeenBelow(Emit(w, bot, log[s.start..s.end]).seen, bot, log, s.end)
  {
    var shown := log[s.start..s.end];
    SliceIsLog(log, s);
    EmitUnseen(w, bot, shown);
    assert forall i :: 0 <= i < |shown| ==> shown[i] == log[s.start + i];
    forall i | s.end <= i < |log|
      ensures EventId(bot, log[i].cursor) !in Emit(w, bot, shown).seen
    {
      assert forall k :: 0 <= k < |shown| ==> shown[k].cursor != log[i].cursor;
    }
  }

  lemma MarkerAtEnd(notified: map<string, Marker>, bot: string, log: seq<Turn>, s: Sight)
    requires Fits(s, log) && s.start < s.end
    ensures MarkerFor(NotifiedAfter(notified, bot, log[s.start..s.end]), bot) == MarkerAt(log, s.end)
  {
    var shown := log[s.start..s.end];
    assert shown[|shown| - 1] == log[s.end - 1];
  }

  /** The row of a bot whose marker holds nothing. */
  lemma VisitUnmarked(w: Walk, bot: string, log: seq<Turn>, s: Sight, p: nat)
    requires IsLog(log) && PlainName(bot) && bot != "" && Fits(s, log) && s.start < s.end && p <= s.end
    requires MarkerFor(w.notified, bot) == UNMARKED && SeenBelow(w.seen, bot, log, p)
    ensures var out := VisitRow(w, BotRow(bot, log[s.start..s.end]));
            && EventsOf(out.events, bot) == EventsOf(w.events, bot) + Unseen(bot, log[s.start..s.end], w.seen)
            && Tracks(out.notified, out.seen, bot, log, s.end)
  {
    var shown := log[s.start..s.end];
    SliceIsLog(log, s);
    VisitIs(w, BotRow(bot, shown), shown);
    EmitUnseen(w, bot, shown);
    NoneSeenPast(w, bot, log, s, p);
    MarkerAtEnd(w.notified, bot, log, s);
  }

  lemma {:induction false} VisitAllUnmarked(w: Walk, rows: seq<BotRow>, bot: string, log: seq<Turn>, s: Sight, p: nat)
    requires IsLog(log) && PlainName(bot) && bot != "" && Shows(rows, bot, log, s) && s.start < s.end && p <= s.end
    requires MarkerFor(w.notified, bot) == UNMARKED && SeenBelow(w.seen, bot, log, p)
    ensures var out := VisitRows(w, rows);
            && EventsOf(out.events, bot) == EventsOf(w.events, bot) + Unseen(bot, log[s.start..s.end], w.seen)
            && Tracks(out.notified, out.seen, bot, log, s.end)
    decreases |rows|
  {
    var k :| 0 <= k < |rows| && rows[k].name == bot;
    var rest := rows[1..];
    assert forall i :: 0 <= i < |rest| ==> rest[i] == rows[i + 1];
    if rows[0].name == bot {
      VisitUnmarked(w, bot, log, s, p);
      VisitAll(VisitRow(w, rows[0]), rest, bot, log, s.end, Sight(s.end, s.end));
    } else {
      VisitOther(w, rows[0], bot);
      assert rest[k - 1].name == bot;
      VisitAllUnmarked(VisitRow(w, rows[0]), rest, bot, log, s, p);
      UnseenDepends(bot, log[s.start..s.end], VisitRow(w, rows[0]).seen, w.seen);
    }
  }

  /** A baseline taken while the bot's chat could not be read is no baseline for it: the next
      tick that reads it announces everything it shows, history included, except the turns
      whose announcement is still remembered; after that the marker is in place. */
  lemma EmptyBaselineAnnounces(rows: seq<BotRow>, state: State, tick: seq<BotRow>, bot: string, log: seq<Turn>,
                               blank: Sight, s: Sight, p: nat)
    requires IsLog(log) && PlainName(bot) && bot != "" && SeenBelow(state.seen, bot, log, p)
    requires Shows(rows, bot, log, blank) && blank.start == blank.end
    requires Shows(tick, bot, log, s) && s.start < s.end && p <= s.end
    ensures var (events, next) := Discover(tick, EstablishBaseline(rows, state));
            && EventsOf(events, bot) == Unseen(bot, log[s.start..s.end], state.seen)
            && Tracks(next.notified, next.seen, bot, log, s.end)
  {
    BaselineMarks(rows, bot, log, blank);
    var base := EstablishBaseline(rows, state);
    var w := Walk(base.notified, base.seen, []);
    VisitAllUnmarked(w, tick, bot, log, s, p);
    assert forall id :: id in LastOf(VisitRows(w, tick).seen) ==> id in VisitRows(w, tick).seen;
  }

  /** For a first opt-in that is all of it. */
  lemma FirstEmptyBaselineAnnouncesAll(rows: seq<BotRow>, state: State, tick: seq<BotRow>, bot: string, log: seq<Turn>,
                                       blank: Sight, s: Sight)
    requires IsLog(log) && PlainName(bot) && bot != "" && state.seen == []
    requires Shows(rows, bot, log, blank) && blank.start == blank.end
    requires Shows(tick, bot, log, s) && s.start < s.end
    ensures EventsOf(Discover(tick, EstablishBaseline(rows, state)).0, bot) == log[s.start..s.end]
  {
    EmptyBaselineAnnounces(rows, state, tick, bot, log, blank, s, 0);
    AllUnseen(bot, log[s.start..s.end]);
  }

  lemma {:induction false} AllUnseen(bot: string, turns: seq<Turn>)
    ensures Unseen(bot, turns, []) == turns
  {
    if turns != [] {
      AllUnseen(bot, turns[1..]);
      assert [turns[0]] + turns[1..] == turns;
    }
  }
}
