/** The bot completion observer (bot_notify.py): polled snapshots of each bot's completed
    turns, a notified marker per bot, and a truncated list of event ids already seen. */
module BotNotify {
  import opened Wrappers

  const SEEN_LIMIT: nat := 200

  datatype Turn = Turn(cursor: string, completedAt: int)
  datatype BotRow = BotRow(name: string, turns: seq<Turn>)
  datatype Marker = Marker(cursor: Option<string>, completedAt: Option<int>)
  datatype State = State(enabled: bool, baselineDone: bool, notified: map<string, Marker>, seen: seq<string>)
  datatype Completion = Completion(bot: string, turn: Turn)

  const UNMARKED: Marker := Marker(None, None)

  /** What is hashed into an event id; the hash itself is taken to be injective. */
  function EventId(bot: string, cursor: string): string {
    "bot_completion|" + bot + "|" + cursor
  }

  function IndexOfCursor(turns: seq<Turn>, cursor: string): Option<nat> {
    if turns == [] then None
    else if turns[0].cursor == cursor then Some(0)
    else match IndexOfCursor(turns[1..], cursor)
      case None => None
      case Some(k) => Some(k + 1)
  }

  function LaterThan(turns: seq<Turn>, at: int): seq<Turn> {
    if turns == [] then []
    else (if turns[0].completedAt > at then [turns[0]] else []) + LaterThan(turns[1..], at)
  }

  function TurnsAfterCursor(turns: seq<Turn>, marker: Marker): seq<Turn> {
    if turns == [] then []
    else if marker.cursor.None? then turns
    else match IndexOfCursor(turns, marker.cursor.value)
      case Some(k) => if k < |turns| then turns[k + 1..] else []
      case None => if marker.completedAt.Some? then LaterThan(turns, marker.completedAt.value) else []
  }

  function WithCursor(turns: seq<Turn>): seq<Turn> {
    if turns == [] then []
    else (if turns[0].cursor != "" then [turns[0]] else []) + WithCursor(turns[1..])
  }

  function MarkerOf(turn: Turn): Marker {
    Marker(Some(turn.cursor), Some(turn.completedAt))
  }

  function MarkerFor(notified: map<string, Marker>, name: string): Marker {
    if name in notified then notified[name] else UNMARKED
  }

  function Larger(a: nat, b: nat): nat { if a > b then a else b }

  function LastOf(seen: seq<string>): seq<string> {
    if |seen| > SEEN_LIMIT then seen[|seen| - SEEN_LIMIT..] else seen
  }

  // ------------------------------------------------------- discovering, as folds

  /** The walk over one bot's fresh turns: events so far, and ids seen. */
  datatype Walk = Walk(notified: map<string, Marker>, seen: seq<string>, events: seq<Completion>)

  function Emit(w: Walk, name: string, newer: seq<Turn>): Walk
    decreases |newer|
  {
    if newer == [] then w
    else
      var id := EventId(name, newer[0].cursor);
      if id in w.seen then Emit(w, name, newer[1..])
      else Emit(w.(seen := w.seen + [id], events := w.events + [Completion(name, newer[0])]), name, newer[1..])
  }

  /** The marker moves to the newest turn shown; a bot met without turns is noted. */
  function NotifiedAfter(notified: map<string, Marker>, name: string, turns: seq<Turn>): map<string, Marker> {
    if turns != [] then notified[name := MarkerOf(turns[|turns| - 1])]
    else if name !in notified then notified[name := UNMARKED]
    else notified
  }

  function VisitRow(w: Walk, row: BotRow): Walk {
    if row.name == "" then w
    else
      var turns := WithCursor(row.turns);
      Emit(w, row.name, TurnsAfterCursor(turns, MarkerFor(w.notified, row.name))).(notified := NotifiedAfter(w.notified, row.name, turns))
  }

  function VisitRows(w: Walk, rows: seq<BotRow>): Walk
    decreases |rows|
  {
    if rows == [] then w else VisitRows(VisitRow(w, rows[0]), rows[1..])
  }

  function Discover(rows: seq<BotRow>, state: State): (seq<Completion>, State) {
    if !state.enabled || !state.baselineDone then ([], state)
    else
      var w := VisitRows(Walk(state.notified, state.seen, []), rows);
      (w.events, state.(notified := w.notified, seen := LastOf(w.seen)))
  }

  function BaselineMarker(row: BotRow): Marker {
    if row.turns != [] && row.turns[|row.turns| - 1].cursor != "" then MarkerOf(row.turns[|row.turns| - 1]) else UNMARKED
  }

  function BaselineOf(rows: seq<BotRow>): map<string, Marker> {
    if rows == [] then map[]
    else
      var earlier := BaselineOf(rows[..|rows| - 1]);
      var row := rows[|rows| - 1];
      if row.name == "" then earlier else earlier[row.name := BaselineMarker(row)]
  }

  function EstablishBaseline(rows: seq<BotRow>, state: State): State {
    state.(enabled := true, baselineDone := true, notified := BaselineOf(rows))
  }

  // ------------------------------------------------------------ the observer

  class Observer {
    /** The state file. */
    var stored: State

    constructor ()
      ensures stored == State(false, false, map[], [])
    {
      stored := State(false, false, map[], []);
    }

    static method BaselineMarkers(rows: seq<BotRow>) returns (notified: map<string, Marker>)
      ensures notified == BaselineOf(rows)
    {
      notified := map[];
      for k := 0 to |rows|
        invariant notified == BaselineOf(rows[..k])
      {
        assert rows[..k + 1][..k] == rows[..k];
        var row := rows[k];
        if row.name == "" {
          continue;
        }
        if row.turns != [] && row.turns[|row.turns| - 1].cursor != "" {
          notified := notified[row.name := MarkerOf(row.turns[|row.turns| - 1])];
        } else {
          notified := notified[row.name := UNMARKED];
        }
      }
      assert rows[..|rows|] == rows;
    }

    static method DiscoverCompletions(rows: seq<BotRow>, state: State) returns (events: seq<Completion>, next: State)
      ensures (events, next) == Discover(rows, state)
      ensures !state.enabled || !state.baselineDone ==> events == [] && next == state
      ensures next.enabled == state.enabled && next.baselineDone == state.baselineDone && |next.seen| <= Larger(|state.seen|, SEEN_LIMIT)
    {
      if !state.enabled || !state.baselineDone {
        return [], state;
      }
      var notified, seen := state.notified, state.seen;
      events := [];
      for k := 0 to |rows|
        invariant VisitRows(Walk(notified, seen, events), rows[k..]) == VisitRows(Walk(state.notified, state.seen, []), rows)
      {
        assert rows[k..][1..] == rows[k + 1..];
        var row := rows[k];
        if row.name == "" {
          continue;
        }
        var turns := WithCursor(row.turns);
        var newer := TurnsAfterCursor(turns, MarkerFor(notified, row.name));
        ghost var before := Walk(notified, seen, events);
        for j := 0 to |newer|
          invariant Emit(Walk(notified, seen, events), row.name, newer[j..]) == Emit(before, row.name, newer)
        {
          assert newer[j..][1..] == newer[j + 1..];
          var id := EventId(row.name, newer[j].cursor);
          if id in seen {
            continue;
          }
          events := events + [Completion(row.name, newer[j])];
          seen := seen + [id];
        }
        EmitKeepsNotified(before, row.name, newer);
        if turns != [] {
          notified := notified[row.name := MarkerOf(turns[|turns| - 1])];
        } else if row.name !in notified {
          notified := notified[row.name := UNMARKED];
        }
      }
      assert rows[|rows|..] == [];
      next := state.(notified := notified, seen := LastOf(seen));
    }

    /** One tick. Progress is stored before anything is emitted, so a crash or a failed
        push loses an alert rather than repeating it; without a key nothing is stored. */
    method ObserveOnce(rows: seq<BotRow>, hasKey: bool) returns (events: seq<Completion>)
      modifies this
      ensures !old(stored).enabled ==> events == [] && stored == old(stored)
      ensures old(stored).enabled && !old(stored).baselineDone ==>
        events == [] && stored == EstablishBaseline(rows, old(stored))
      ensures old(stored).enabled && old(stored).baselineDone ==>
        var (found, next) := Discover(rows, old(stored));
        if found != [] && !hasKey then events == [] && stored == old(stored) else events == found && stored == next
    {
      if !stored.enabled {
        return [];
      }
      if !stored.baselineDone {
        var markers := BaselineMarkers(rows);
        stored := stored.(enabled := true, baselineDone := true, notified := markers);
        return [];
      }
      var found, next := DiscoverCompletions(rows, stored);
      if found == [] {
        stored := next;
        return [];
      }
      if !hasKey {
        return [];
      }
      stored := next;
      return found;
    }

    /** Opting in takes a fresh baseline; opting out keeps what was notified. */
    method SetPreference(enabled: bool, rows: seq<BotRow>)
      modifies this
      ensures stored == if enabled && !old(stored).enabled then EstablishBaseline(rows, old(stored))
                        else old(stored).(enabled := enabled)
    {
      if enabled && !stored.enabled {
        var markers := BaselineMarkers(rows);
        stored := stored.(enabled := true, baselineDone := true, notified := markers);
      } else if !enabled {
        stored := stored.(enabled := false);
      }
    }
  }

  /** What is new to a marker, for turns in any order and at any times: with nothing marked all of it;
      behind the marked turn while that is still shown; and once it is not, what was completed
      strictly later. */
  lemma {:induction false} NewIsExact(turns: seq<Turn>, marker: Marker)
    ensures marker.cursor.None? ==> TurnsAfterCursor(turns, marker) == turns
    ensures forall k | 0 <= k < |turns| && Some(turns[k].cursor) == marker.cursor && (forall j :: 0 <= j < k ==> Some(turns[j].cursor) != marker.cursor) ::
              TurnsAfterCursor(turns, marker) == turns[k + 1..]
    ensures marker.cursor.Some? && (forall t :: t in turns ==> Some(t.cursor) != marker.cursor) ==>
              forall t :: t in TurnsAfterCursor(turns, marker) <==> t in turns && marker.completedAt.Some? && t.completedAt > marker.completedAt.value
  {
    if marker.cursor.Some? {
      forall k | 0 <= k < |turns| && Some(turns[k].cursor) == marker.cursor && (forall j :: 0 <= j < k ==> Some(turns[j].cursor) != marker.cursor)
        ensures IndexOfCursor(turns, marker.cursor.value) == Some(k)
      {
        FirstIndex(turns, marker.cursor.value, k);
      }
      if forall t :: t in turns ==> Some(t.cursor) != marker.cursor {
        NoIndex(turns, marker.cursor.value);
        if marker.completedAt.Some? {
          LaterIsLater(turns, marker.completedAt.value);
        }
      }
    }
  }

  lemma {:induction false} FirstIndex(turns: seq<Turn>, cursor: string, k: nat)
    requires k < |turns| && turns[k].cursor == cursor && forall j :: 0 <= j < k ==> turns[j].cursor != cursor
    ensures IndexOfCursor(turns, cursor) == Some(k)
  {
    if k > 0 {
      assert turns[0].cursor != cursor;
      assert forall j :: 0 <= j < |turns[1..]| ==> turns[1..][j] == turns[j + 1];
      FirstIndex(turns[1..], cursor, k - 1);
    }
  }

  lemma {:induction false} NoIndex(turns: seq<Turn>, cursor: string)
    requires forall t :: t in turns ==> t.cursor != cursor
    ensures IndexOfCursor(turns, cursor) == None
  {
    if turns != [] {
      assert turns[0] in turns;
      NoIndex(turns[1..], cursor);
    }
  }

  lemma {:induction false} LaterIsLater(turns: seq<Turn>, at: int)
    ensures forall t :: t in LaterThan(turns, at) <==> t in turns && t.completedAt > at
  {
    if turns != [] {
      LaterIsLater(turns[1..], at);
      assert forall t :: t in turns <==> t == turns[0] || t in turns[1..];
    }
  }

  lemma EmitKeepsNotified(w: Walk, name: string, newer: seq<Turn>)
    ensures Emit(w, name, newer).notified == w.notified
    decreases |newer|
  {
    if newer != [] && EventId(name, newer[0].cursor) !in w.seen {
      EmitKeepsNotified(w.(seen := w.seen + [EventId(name, newer[0].cursor)], events := w.events + [Completion(name, newer[0])]), name, newer[1..]);
    }
  }
}
