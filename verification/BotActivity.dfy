/** The activity snapshot the completion observer reads (bot_activity.py): which message rows are
    completed turns, and in what order they come. */
module BotActivity {
  import opened PyText
  import opened BotNotify
  import opened CompletionRuns

  /** A history row: its id ("" when it has none), its text and its time. */
  datatype MessageRow = MessageRow(role: string, hidden: bool, id: string, text: string, at: int)

  /** What a row must be to count, and all that is read off it. */
  ghost predicate Counts(row: MessageRow, t: Turn) {
    && Strip(row.role) == "assistant" && !row.hidden && row.text != ""
    && row.id != "" && t.cursor == row.id && t.completedAt == row.at
  }

  predicate Completed(row: MessageRow) {
    Strip(row.role) == "assistant" && !row.hidden && row.id != "" && row.text != ""
  }

  function TurnOf(row: MessageRow): Turn {
    Turn(row.id, row.at)
  }

  // ------------------------------------------------------------------ sorting

  ghost predicate StrictOrder<T(!new)>(less: (T, T) -> bool) {
    && (forall a :: !less(a, a))
    && (forall a, b, c :: less(a, b) && less(b, c) ==> less(a, c))
    && (forall a, b :: a != b ==> less(a, b) || less(b, a))
  }

  function Insert<T>(less: (T, T) -> bool, x: T, s: seq<T>): seq<T> {
    if s == [] then [x]
    else if less(s[0], x) then [s[0]] + Insert(less, x, s[1..])
    else [x] + s
  }

  /** `list.sort`, up to equal keys. */
  function Sorted<T>(less: (T, T) -> bool, s: seq<T>): seq<T> {
    if s == [] then [] else Insert(less, s[0], Sorted(less, s[1..]))
  }

  ghost predicate Ascending<T>(less: (T, T) -> bool, s: seq<T>) {
    forall i, j :: 0 <= i < j < |s| ==> less(s[i], s[j])
  }

  ghost predicate SameElements<T(!new)>(a: seq<T>, b: seq<T>) {
    forall x :: x in a <==> x in b
  }

  lemma AscendingCons<T(!new)>(less: (T, T) -> bool, x: T, s: seq<T>)
    requires Ascending(less, s) && forall y :: y in s ==> less(x, y)
    ensures Ascending(less, [x] + s)
  {
  }

  lemma {:induction false} InsertKeeps<T(!new)>(less: (T, T) -> bool, x: T, s: seq<T>)
    requires StrictOrder(less) && Ascending(less, s) && x !in s
    ensures Ascending(less, Insert(less, x, s))
    ensures forall y :: y in Insert(less, x, s) <==> y == x || y in s
  {
    if s != [] {
      assert s == [s[0]] + s[1..];
      if less(s[0], x) {
        InsertKeeps(less, x, s[1..]);
        AscendingCons(less, s[0], Insert(less, x, s[1..]));
      } else {
        AscendingCons(less, x, s);
      }
    }
  }

  ghost predicate AllDifferent<T>(s: seq<T>) {
    forall i, j :: 0 <= i < j < |s| ==> s[i] != s[j]
  }

  lemma {:induction false} SortedIsSorted<T(!new)>(less: (T, T) -> bool, s: seq<T>)
    requires StrictOrder(less) && AllDifferent(s)
    ensures Ascending(less, Sorted(less, s)) && SameElements(Sorted(less, s), s)
  {
    if s != [] {
      SortedIsSorted(less, s[1..]);
      assert s[0] !in s[1..];
      InsertKeeps(less, s[0], Sorted(less, s[1..]));
    }
  }

  lemma {:induction false} AscendingIsUnique<T(!new)>(less: (T, T) -> bool, a: seq<T>, b: seq<T>)
    requires StrictOrder(less) && Ascending(less, a) && Ascending(less, b) && SameElements(a, b)
    ensures a == b
  {
    SameEmptiness(a, b);
    if a != [] {
      assert a[0] in b && b != [] && b[0] in a;
      assert a[0] == b[0] by {
        var i :| 0 <= i < |b| && b[i] == a[0];
        var j :| 0 <= j < |a| && a[j] == b[0];
      }
      forall x ensures x in a[1..] <==> x in b[1..] {
        TailHolds(less, a, x);
        TailHolds(less, b, x);
      }
      AscendingIsUnique(less, a[1..], b[1..]);
      assert a == [a[0]] + a[1..] && b == [b[0]] + b[1..];
    }
  }

  lemma SameEmptiness<T(!new)>(a: seq<T>, b: seq<T>)
    requires SameElements(a, b)
    ensures a == [] <==> b == []
  {
    if a != [] {
      assert a[0] in b;
    }
    if b != [] {
      assert b[0] in a;
    }
  }

  lemma TailHolds<T(!new)>(less: (T, T) -> bool, s: seq<T>, x: T)
    requires StrictOrder(less) && Ascending(less, s) && s != []
    ensures x in s[1..] <==> x in s && x != s[0]
  {
    if x in s[1..] {
      var i :| 0 <= i < |s[1..]| && s[1..][i] == x;
      assert less(s[0], s[i + 1]);
    }
  }

  // ------------------------------------------------------------------ the key

  /** Python compares strings by code points, left to right. */
  predicate TextLess(a: string, b: string) {
    b != "" && (a == "" || a[0] < b[0] || (a[0] == b[0] && TextLess(a[1..], b[1..])))
  }

  lemma {:induction false} TextLessIsStrict(a: string, b: string, c: string)
    ensures !TextLess(a, a)
    ensures TextLess(a, b) && TextLess(b, c) ==> TextLess(a, c)
    ensures a != b ==> TextLess(a, b) || TextLess(b, a)
    decreases |a| + |b| + |c|
  {
    if a != "" {
      TextLessIsStrict(a[1..], if b != "" then b[1..] else b, if c != "" then c[1..] else c);
      assert a == [a[0]] + a[1..];
      assert b != "" ==> b == [b[0]] + b[1..];
    }
  }

  predicate Earlier(a: Turn, b: Turn) {
    a.completedAt < b.completedAt || (a.completedAt == b.completedAt && TextLess(a.cursor, b.cursor))
  }

  lemma EarlierIsStrict()
    ensures StrictOrder(Earlier)
  {
    forall a: Turn, b: Turn, c: Turn
      ensures !Earlier(a, a)
      ensures Earlier(a, b) && Earlier(b, c) ==> Earlier(a, c)
      ensures a != b ==> Earlier(a, b) || Earlier(b, a)
    {
      TextLessIsStrict(a.cursor, b.cursor, c.cursor);
    }
  }

  // ------------------------------------------------------------------ projecting

  predicate Met(turns: seq<Turn>, cursor: string) {
    exists t :: t in turns && t.cursor == cursor
  }

  /** The first completed row of each id, in row order. */
  function Collect(rows: seq<MessageRow>): seq<Turn> {
    if rows == [] then []
    else
      var earlier, row := Collect(rows[..|rows| - 1]), rows[|rows| - 1];
      if !Completed(row) || Met(earlier, row.id) then earlier else earlier + [TurnOf(row)]
  }

  method ProjectCompletedTurns(rows: seq<MessageRow>) returns (ordered: seq<Turn>)
    ensures ordered == Sorted(Earlier, Collect(rows))
  {
    var seen: set<string> := {};
    ordered := [];
    for k := 0 to |rows|
      invariant ordered == Collect(rows[..k])
      invariant forall c :: c in seen <==> Met(ordered, c)
    {
      assert rows[..k + 1][..k] == rows[..k];
      var row := rows[k];
      if Strip(row.role) != "assistant" || row.hidden || row.id == "" || row.text == "" || row.id in seen {
        continue;
      }
      seen := seen + {row.id};
      MetSnoc(ordered, TurnOf(row));
      ordered := ordered + [TurnOf(row)];
    }
    assert rows[..|rows|] == rows;
    ordered := Sorted(Earlier, ordered);
  }

  lemma MetSnoc(turns: seq<Turn>, t: Turn)
    ensures forall c :: Met(turns + [t], c) <==> Met(turns, c) || c == t.cursor
  {
    assert t in turns + [t];
    assert forall x :: x in turns + [t] <==> x in turns || x == t;
  }

  ghost predicate OneCursorEach(turns: seq<Turn>) {
    forall i, j :: 0 <= i < j < |turns| ==> turns[i].cursor != turns[j].cursor
  }

  ghost predicate CompletedAs(rows: seq<MessageRow>, cursor: string) {
    exists k: nat :: IsCompletedAs(rows, k, cursor)
  }

  ghost predicate IsCompletedAs(rows: seq<MessageRow>, k: nat, cursor: string) {
    k < |rows| && Completed(rows[k]) && rows[k].id == cursor
  }

  ghost predicate Holds(rows: seq<MessageRow>, k: nat, t: Turn) {
    k < |rows| && Completed(rows[k]) && TurnOf(rows[k]) == t
  }

  ghost predicate FirstToHold(rows: seq<MessageRow>, k: nat, t: Turn) {
    Holds(rows, k, t) && forall j :: 0 <= j < k ==> !IsCompletedAs(rows, j, t.cursor)
  }

  lemma {:induction false} CollectsCursors(rows: seq<MessageRow>, cursor: string)
    ensures Met(Collect(rows), cursor) <==> CompletedAs(rows, cursor)
  {
    if rows != [] {
      var init, row := rows[..|rows| - 1], rows[|rows| - 1];
      assert init + [row] == rows;
      CollectsCursors(init, cursor);
      CompletedSnoc(init, row, cursor);
      MetAfter(init, row, cursor);
    }
  }

  lemma SnocAt(init: seq<MessageRow>, row: MessageRow, k: nat, cursor: string)
    ensures IsCompletedAs(init + [row], k, cursor) <==>
              IsCompletedAs(init, k, cursor) || (k == |init| && Completed(row) && row.id == cursor)
  {
    assert k < |init| ==> (init + [row])[k] == init[k];
  }

  lemma CompletedSnoc(init: seq<MessageRow>, row: MessageRow, cursor: string)
    ensures CompletedAs(init + [row], cursor) <==> CompletedAs(init, cursor) || (Completed(row) && row.id == cursor)
  {
    forall k: nat ensures IsCompletedAs(init + [row], k, cursor) <==>
                            IsCompletedAs(init, k, cursor) || (k == |init| && Completed(row) && row.id == cursor)
    {
      SnocAt(init, row, k, cursor);
    }
    assert IsCompletedAs(init + [row], |init|, cursor) <==> Completed(row) && row.id == cursor;
  }

  lemma MetAfter(init: seq<MessageRow>, row: MessageRow, cursor: string)
    ensures Met(Collect(init + [row]), cursor) <==> Met(Collect(init), cursor) || (Completed(row) && row.id == cursor)
  {
    assert (init + [row])[..|init|] == init;
    MetSnoc(Collect(init), TurnOf(row));
  }

  lemma {:induction false} CollectsOnce(rows: seq<MessageRow>)
    ensures OneCursorEach(Collect(rows))
  {
    if rows != [] {
      var init, row := rows[..|rows| - 1], rows[|rows| - 1];
      CollectsOnce(init);
      if !Met(Collect(init), row.id) {
        forall i | 0 <= i < |Collect(init)| ensures Collect(init)[i].cursor != row.id {
          assert Collect(init)[i] in Collect(init);
        }
      }
    }
  }

  ghost predicate FirstToCount(rows: seq<MessageRow>, k: nat, t: Turn) {
    k < |rows| && Counts(rows[k], t) && forall j, u :: 0 <= j < k && Counts(rows[j], u) ==> u.cursor != t.cursor
  }

  lemma FirstMeans(rows: seq<MessageRow>, k: nat, t: Turn)
    ensures FirstToHold(rows, k, t) <==> FirstToCount(rows, k, t)
  {
    if FirstToCount(rows, k, t) {
      forall j | 0 <= j < k ensures !IsCompletedAs(rows, j, t.cursor) {
        assert Completed(rows[j]) ==> Counts(rows[j], TurnOf(rows[j]));
      }
    }
    if FirstToHold(rows, k, t) {
      forall j, u | 0 <= j < k && Counts(rows[j], u) ensures u.cursor != t.cursor {
        assert !IsCompletedAs(rows, j, t.cursor);
      }
    }
  }

  /** A turn is collected exactly when it is the first completed row of its id. */
  lemma {:induction false} CollectsFirsts(rows: seq<MessageRow>, t: Turn)
    ensures t in Collect(rows) <==> exists k: nat :: FirstToHold(rows, k, t)
  {
    if rows != [] {
      var init, row := rows[..|rows| - 1], rows[|rows| - 1];
      assert init + [row] == rows;
      CollectsFirsts(init, t);
      CollectsCursors(init, row.id);
      FirstsSnoc(init, row, t);
      CollectSnoc(init, row, t);
    }
  }

  lemma CollectSnoc(init: seq<MessageRow>, row: MessageRow, t: Turn)
    ensures t in Collect(init + [row]) <==>
              t in Collect(init) || (Completed(row) && TurnOf(row) == t && !Met(Collect(init), row.id))
  {
    assert (init + [row])[..|init|] == init;
  }

  lemma FirstAt(init: seq<MessageRow>, row: MessageRow, k: nat, t: Turn)
    ensures FirstToHold(init + [row], k, t) <==>
              || FirstToHold(init, k, t)
              || (k == |init| && Completed(row) && TurnOf(row) == t && !CompletedAs(init, t.cursor))
  {
    var rows := init + [row];
    assert k < |init| ==> rows[k] == init[k];
    forall j: nat | j < k && k <= |init| ensures IsCompletedAs(rows, j, t.cursor) <==> IsCompletedAs(init, j, t.cursor) {
      SnocAt(init, row, j, t.cursor);
    }
  }

  lemma FirstsSnoc(init: seq<MessageRow>, row: MessageRow, t: Turn)
    ensures (exists k: nat :: FirstToHold(init + [row], k, t)) <==>
              || (exists k: nat :: FirstToHold(init, k, t))
              || (Completed(row) && TurnOf(row) == t && !CompletedAs(init, t.cursor))
  {
    forall k: nat ensures FirstToHold(init + [row], k, t) <==>
                            || FirstToHold(init, k, t)
                            || (k == |init| && Completed(row) && TurnOf(row) == t && !CompletedAs(init, t.cursor))
    {
      FirstAt(init, row, k, t);
    }
    FirstAt(init, row, |init|, t);
  }

  // ------------------------------------------------------------------ the snapshot

  lemma OneCursorIsDifferent(turns: seq<Turn>)
    requires OneCursorEach(turns)
    ensures AllDifferent(turns)
  {
  }

  /** Oldest first, ids breaking ties, each id once, with the time of its first completed row. */
  lemma SnapshotIsExact(rows: seq<MessageRow>, t: Turn)
    ensures var turns := Sorted(Earlier, Collect(rows));
            && Ascending(Earlier, turns)
            && (t in turns <==> exists k: nat :: FirstToHold(rows, k, t))
            && (Met(turns, t.cursor) <==> CompletedAs(rows, t.cursor))
  {
    EarlierIsStrict();
    CollectsOnce(rows);
    OneCursorIsDifferent(Collect(rows));
    SortedIsSorted(Earlier, Collect(rows));
    CollectsFirsts(rows, t);
    CollectsCursors(rows, t.cursor);
  }

  /** A turn is in the projection exactly when its row counts and no row before it of its id does. */
  lemma ProjectsFirsts(rows: seq<MessageRow>, t: Turn)
    ensures t in Sorted(Earlier, Collect(rows)) <==> exists k: nat :: FirstToCount(rows, k, t)
  {
    SnapshotIsExact(rows, t);
    forall k: nat ensures FirstToHold(rows, k, t) <==> FirstToCount(rows, k, t) {
      FirstMeans(rows, k, t);
    }
  }

  /** The completed rows hold exactly these turns. */
  ghost predicate HoldsJust(rows: seq<MessageRow>, turns: seq<Turn>) {
    forall t :: t in turns <==> HeldSomewhere(rows, t)
  }

  ghost predicate HeldSomewhere(rows: seq<MessageRow>, t: Turn) {
    exists k: nat :: Holds(rows, k, t)
  }

  lemma SnapshotHolds(rows: seq<MessageRow>, stretch: seq<Turn>, t: Turn)
    requires OneCursorEach(stretch) && HoldsJust(rows, stretch)
    ensures t in Sorted(Earlier, Collect(rows)) <==> t in stretch
  {
    SnapshotIsExact(rows, t);
    if t in stretch {
      HeldFirst(rows, stretch, t);
    }
    if k: nat :| FirstToHold(rows, k, t) {
      assert Holds(rows, k, t);
      assert HeldSomewhere(rows, t);
    }
  }

  /** Whatever order the rows of a stretch of the log come in, and however often, the snapshot is
      that stretch: what the observer's runs assume of it. */
  lemma SnapshotIsStretch(rows: seq<MessageRow>, log: seq<Turn>, stretch: seq<Turn>, s: Sight)
    requires IsLog(log) && Fits(s, log) && stretch == log[s.start..s.end] && HoldsJust(rows, stretch)
    ensures Sorted(Earlier, Collect(rows)) == stretch
  {
    var turns := Sorted(Earlier, Collect(rows));
    forall t ensures t in turns <==> t in stretch {
      SnapshotHolds(rows, stretch, t);
    }
    EarlierIsStrict();
    SnapshotIsExact(rows, Turn("", 0));
    AscendingIsUnique(Earlier, turns, stretch);
  }

  lemma HeldFirst(rows: seq<MessageRow>, stretch: seq<Turn>, t: Turn)
    requires OneCursorEach(stretch) && t in stretch
    requires HoldsJust(rows, stretch)
    ensures exists k: nat :: FirstToHold(rows, k, t)
  {
    assert HeldSomewhere(rows, t);
    var k: nat :| Holds(rows, k, t);
    var first := FirstCompleted(rows, k);
    assert Holds(rows, first, TurnOf(rows[first]));
    assert HeldSomewhere(rows, TurnOf(rows[first]));
    assert FirstToHold(rows, first, t);
  }

  lemma FirstCompleted(rows: seq<MessageRow>, k: nat) returns (first: nat)
    requires k < |rows| && Completed(rows[k])
    ensures first <= k && Completed(rows[first]) && rows[first].id == rows[k].id
    ensures forall j :: 0 <= j < first ==> !IsCompletedAs(rows, j, rows[k].id)
  {
    if j: nat :| j < k && IsCompletedAs(rows, j, rows[k].id) {
      first := FirstCompleted(rows, j);
    } else {
      first := k;
    }
  }
}
