/** Phone chat ids, gateway threads and stored row ids (session_continue.py): what the
    phone is shown, where a send goes, and under which id history is looked up. */
module SessionContinue {
  import opened Wrappers
  import opened PyText

  const CONT_PREFIX: string := "cont_"
  const LOCAL_PREFIX: string := "local-"
  const BRIDGE: string := "hermes_bridge"
  const LOCAL: string := "local"

  datatype Row = Row(id: Option<string>, source: string, thread: Option<string>, forkedFrom: Option<string>, title: Option<string>)

  function ContinuationThread(id: string): string {
    CONT_PREFIX + id
  }

  predicate IsLocalPlatformId(id: Option<string>) {
    id.Some? && LOCAL_PREFIX <= id.value
  }

  /** Laptop-owned: by the asked id's prefix, or by the row found for it. A row of another id
      says nothing. */
  predicate IsLocalOwned(sid: Option<string>, row: Option<Row>): (owned: bool)
    ensures row.None? || (sid.Some? && row.value.id.Some? && row.value.id != sid) ==> (owned <==> IsLocalPlatformId(sid))
    ensures row.Some? && (sid.None? || row.value.id.None? || row.value.id == sid) ==>
              (owned <==> IsLocalPlatformId(sid) || IsLocalPlatformId(row.value.id) || row.value.source == LOCAL)
  {
    if IsLocalPlatformId(sid) then true
    else if row.None? then false
    else if sid.Some? && row.value.id.Some? && row.value.id != sid then false
    else IsLocalPlatformId(row.value.id) || row.value.source == LOCAL
  }

  /** A foreign session the phone continued: its origin was re-stamped to the bridge. */
  predicate IsContinued(row: Row) {
    row.source == BRIDGE && row.id.Some? && row.thread == Some(ContinuationThread(row.id.value))
  }

  predicate IsForeign(row: Row) {
    row.source != BRIDGE || IsContinued(row)
  }

  function ForeignIds(rows: seq<Row>): set<Option<string>> {
    set row | row in rows && IsForeign(row) :: row.id
  }

  predicate Truthy(s: Option<string>) { s.Some? && s.value != "" }

  predicate HasThread(row: Row) {
    row.thread.Some? && Strip(row.thread.value) != ""
  }

  // ---------------------------------------------------------------- routing

  function RowWithId(rows: seq<Row>, sid: string): Option<Row> {
    if rows == [] then None
    else if rows[0].id == Some(sid) then Some(rows[0])
    else RowWithId(rows[1..], sid)
  }

  function ThreadOfMatch(row: Row, sid: string, foreign: set<Option<string>>): Option<string> {
    if HasThread(row) then Some(Strip(row.thread.value))
    else if Truthy(row.forkedFrom) || row.thread in foreign then Some(sid)
    else None
  }

  /** The bridge rows in order: the first one with this id or this thread decides. */
  function ThreadAmong(rows: seq<Row>, sid: string, foreign: set<Option<string>>): Option<string> {
    if rows == [] then Some(sid)
    else if rows[0].source == BRIDGE && rows[0].id == Some(sid) then ThreadOfMatch(rows[0], sid, foreign)
    else if rows[0].source == BRIDGE && rows[0].thread == Some(sid) then Some(sid)
    else ThreadAmong(rows[1..], sid, foreign)
  }

  function BridgeThreadId(sid: Option<string>, rows: seq<Row>): Option<string> {
    if !Truthy(sid) || IsLocalOwned(sid, RowWithId(rows, sid.value)) then None
    else if sid in ForeignIds(rows) then Some(ContinuationThread(sid.value))
    else ThreadAmong(rows, sid.value, ForeignIds(rows))
  }

  // ---------------------------------------------------------------- history

  function RowForThread(rows: seq<Row>, sid: string): string {
    if rows == [] then sid
    else if rows[0].source == BRIDGE && rows[0].thread == Some(sid) && Truthy(rows[0].id) then rows[0].id.value
    else RowForThread(rows[1..], sid)
  }

  function ResolveMessageSessionId(sid: string, rows: seq<Row>): string {
    if RowWithId(rows, sid).Some? then sid else RowForThread(rows, sid)
  }

  // ---------------------------------------------------------------- listing

  function TitleOfFork(row: Row, thread: string, rows: seq<Row>): string {
    var original := RowWithId(rows, thread);
    "\U{21AA} " + (if Truthy(row.title) then row.title.value
                   else if original.None? then thread
                   else if original.value.title.Some? then original.value.title.value
                   else "None")
  }

  /** How one row is shown, or None for the placeholder of a continuation. */
  function Present(row: Row, rows: seq<Row>): Option<Row> {
    if IsLocalOwned(row.id, Some(row)) then
      var cleared := row.id.Some? && row.thread == Some(ContinuationThread(row.id.value));
      Some(row.(source := LOCAL, thread := if cleared then None else row.thread))
    else if IsContinued(row) then Some(row)
    else if row.source == BRIDGE && row.thread.Some? && CONT_PREFIX <= row.thread.value then None
    else if row.source == BRIDGE && HasThread(row) then
      if row.thread in ForeignIds(rows) then
        Some(row.(forkedFrom := row.thread, title := Some(TitleOfFork(row, row.thread.value, rows))))
      else Some(row.(id := Some(Strip(row.thread.value))))
    else Some(row)
  }

  function Presented(part: seq<Row>, rows: seq<Row>): seq<Row> {
    if part == [] then []
    else
      Presented(part[..|part| - 1], rows) + Listed(Present(part[|part| - 1], rows))
  }

  function Listed(shown: Option<Row>): seq<Row> {
    if shown.Some? then [shown.value] else []
  }

  /** The first row of each id. */
  function Firsts(rows: seq<Row>): seq<Row> {
    if rows == [] then []
    else
      var earlier := rows[..|rows| - 1];
      var last := rows[|rows| - 1];
      Firsts(earlier) + if exists i :: 0 <= i < |earlier| && earlier[i].id == last.id then [] else [last]
  }

  lemma PresentedSnoc(part: seq<Row>, row: Row, rows: seq<Row>)
    ensures Presented(part + [row], rows) == Presented(part, rows) + Listed(Present(row, rows))
  {
    assert (part + [row])[..|part|] == part;
  }

  predicate Seen(rows: seq<Row>, id: Option<string>) {
    exists i :: 0 <= i < |rows| && rows[i].id == id
  }

  lemma SeenSnoc(rows: seq<Row>, row: Row, id: Option<string>)
    ensures Seen(rows + [row], id) <==> Seen(rows, id) || row.id == id
    ensures Firsts(rows + [row]) == Firsts(rows) + if Seen(rows, row.id) then [] else [row]
  {
    var longer := rows + [row];
    assert longer[..|rows|] == rows && longer[|rows|] == row;
    if Seen(rows, id) {
      var i :| 0 <= i < |rows| && rows[i].id == id;
      assert longer[i].id == id;
    }
  }

  /** The second pass: only the first row of each id. */
  method DropRepeats(sessions: seq<Row>) returns (listed: seq<Row>)
    ensures listed == Firsts(sessions)
  {
    var seen: set<Option<string>> := {};
    listed := [];
    for k := 0 to |sessions|
      invariant listed == Firsts(sessions[..k])
      invariant forall id :: id in seen <==> Seen(sessions[..k], id)
    {
      assert sessions[..k] + [sessions[k]] == sessions[..k + 1];
      forall id ensures Seen(sessions[..k + 1], id) <==> id in seen || sessions[k].id == id {
        SeenSnoc(sessions[..k], sessions[k], id);
      }
      SeenSnoc(sessions[..k], sessions[k], None);
      if sessions[k].id !in seen {
        listed := listed + [sessions[k]];
      }
      seen := seen + {sessions[k].id};
    }
    assert sessions[..|sessions|] == sessions;
  }

  method RewriteListedSessions(rows: seq<Row>) returns (listed: seq<Row>)
    ensures listed == Firsts(Presented(rows, rows))
  {
    var sessions: seq<Row> := [];
    for k := 0 to |rows|
      invariant sessions == Presented(rows[..k], rows)
    {
      PresentedSnoc(rows[..k], rows[k], rows);
      assert rows[..k] + [rows[k]] == rows[..k + 1];
      sessions := sessions + Listed(Present(rows[k], rows));
    }
    assert rows[..|rows|] == rows;
    listed := DropRepeats(sessions);
  }

  // ------------------------------------------- any id, whatever the rows look like

  /** The first row with this id. */
  ghost predicate FirstWithId(rows: seq<Row>, i: nat, sid: string) {
    && i < |rows| && rows[i].id == Some(sid)
    && forall j :: 0 <= j < i ==> rows[j].id != Some(sid)
  }

  /** The laptop owns the id: by its prefix, or by the source of the first row with it. */
  ghost predicate LaptopOwns(rows: seq<Row>, sid: string) {
    LOCAL_PREFIX <= sid || exists i: nat :: FirstWithId(rows, i, sid) && rows[i].source == LOCAL
  }

  /** A bridge row that has the id as its own or as its thread. */
  predicate Carries(row: Row, sid: string) {
    row.source == BRIDGE && (row.id == Some(sid) || row.thread == Some(sid))
  }

  ghost predicate FirstCarrying(rows: seq<Row>, i: nat, sid: string) {
    && i < |rows| && Carries(rows[i], sid)
    && forall j :: 0 <= j < i ==> !Carries(rows[j], sid)
  }

  lemma {:induction false} RowWithIdIsFirst(rows: seq<Row>, i: nat, sid: string)
    requires FirstWithId(rows, i, sid)
    ensures RowWithId(rows, sid) == Some(rows[i])
  {
    if i > 0 {
      assert rows[0].id != Some(sid);
      assert forall k :: 0 <= k < |rows[1..]| ==> rows[1..][k] == rows[k + 1];
      RowWithIdIsFirst(rows[1..], i - 1, sid);
    }
  }

  lemma FirstRowWithId(rows: seq<Row>, sid: string, i: nat) returns (first: nat)
    requires i < |rows| && rows[i].id == Some(sid)
    ensures FirstWithId(rows, first, sid)
  {
    if k: nat :| k < i && rows[k].id == Some(sid) {
      first := FirstRowWithId(rows, sid, k);
    } else {
      first := i;
    }
  }

  lemma LaptopOwnsIff(rows: seq<Row>, sid: string)
    ensures IsLocalOwned(Some(sid), RowWithId(rows, sid)) <==> LaptopOwns(rows, sid)
  {
    RowWithIdAbsent(rows, sid);
    if i: nat :| i < |rows| && rows[i].id == Some(sid) {
      var first := FirstRowWithId(rows, sid, i);
      RowWithIdIsFirst(rows, first, sid);
      assert forall k: nat :: FirstWithId(rows, k, sid) ==> k == first;
    }
  }

  lemma {:induction false} ThreadAmongFirst(rows: seq<Row>, i: nat, sid: string, foreign: set<Option<string>>)
    requires FirstCarrying(rows, i, sid)
    ensures ThreadAmong(rows, sid, foreign) == if rows[i].id == Some(sid) then ThreadOfMatch(rows[i], sid, foreign) else Some(sid)
  {
    if i > 0 {
      assert !Carries(rows[0], sid);
      assert forall k :: 0 <= k < |rows[1..]| ==> rows[1..][k] == rows[k + 1];
      ThreadAmongFirst(rows[1..], i - 1, sid, foreign);
    }
  }

  lemma {:induction false} ThreadAmongNone(rows: seq<Row>, sid: string, foreign: set<Option<string>>)
    requires forall k :: 0 <= k < |rows| ==> !Carries(rows[k], sid)
    ensures ThreadAmong(rows, sid, foreign) == Some(sid)
  {
    if rows != [] {
      assert !Carries(rows[0], sid);
      assert forall k :: 0 <= k < |rows[1..]| ==> rows[1..][k] == rows[k + 1];
      ThreadAmongNone(rows[1..], sid, foreign);
    }
  }

  lemma FirstToCarry(rows: seq<Row>, sid: string, i: nat) returns (first: nat)
    requires i < |rows| && Carries(rows[i], sid)
    ensures FirstCarrying(rows, first, sid)
  {
    if k: nat :| k < i && Carries(rows[k], sid) {
      first := FirstToCarry(rows, sid, k);
    } else {
      first := i;
    }
  }

  /** A new chat keeps its id: an id that no row and no bridge thread has yet is sent to under
      itself, and its history is looked up under itself, unless it looks like a laptop's. */
  lemma NewChatKeepsItsId(rows: seq<Row>, sid: string)
    requires forall k :: 0 <= k < |rows| ==> rows[k].id != Some(sid) && !Carries(rows[k], sid)
    ensures BridgeThreadId(Some(sid), rows) == if sid == "" || LOCAL_PREFIX <= sid then None else Some(sid)
    ensures ResolveMessageSessionId(sid, rows) == sid
  {
    RowWithIdAbsent(rows, sid);
    ThreadAmongNone(rows, sid, ForeignIds(rows));
    RowForThreadAbsent(rows, sid);
  }

  /** A bare legacy row: no thread, no fork. */
  predicate IsBare(row: Row, rows: seq<Row>) {
    !HasThread(row) && !Truthy(row.forkedFrom) && row.thread !in ForeignIds(rows)
  }

  /** For any rows at all, a send goes into the shared legacy session exactly if its id is blank,
      the laptop's, or, when no foreign row has it, that of a bare row the search comes to first. */
  lemma UnroutedIff(rows: seq<Row>, sid: string)
    ensures BridgeThreadId(Some(sid), rows).None? <==>
              || sid == "" || LaptopOwns(rows, sid)
              || (Some(sid) !in ForeignIds(rows)
                  && exists i: nat :: FirstCarrying(rows, i, sid) && rows[i].id == Some(sid) && IsBare(rows[i], rows))
  {
    LaptopOwnsIff(rows, sid);
    if i: nat :| i < |rows| && Carries(rows[i], sid) {
      var first := FirstToCarry(rows, sid, i);
      ThreadAmongFirst(rows, first, sid, ForeignIds(rows));
      assert forall k: nat :: FirstCarrying(rows, k, sid) ==> k == first;
    } else {
      ThreadAmongNone(rows, sid, ForeignIds(rows));
    }
  }

  /** Any other send goes to the id's `cont_` thread if a foreign row has the id, to the trimmed
      thread of the first bridge row about it if that is its own row and has one, and else to the
      id itself. */
  lemma RoutedTo(rows: seq<Row>, sid: string)
    requires BridgeThreadId(Some(sid), rows).Some?
    ensures var thread := BridgeThreadId(Some(sid), rows).value;
            if Some(sid) in ForeignIds(rows) then thread == "cont_" + sid
            else || (thread == sid && forall i: nat | FirstCarrying(rows, i, sid) :: rows[i].id != Some(sid) || !HasThread(rows[i]))
                 || exists i: nat :: FirstCarrying(rows, i, sid) && rows[i].id == Some(sid) && HasThread(rows[i]) && thread == Strip(rows[i].thread.value)
  {
    if i: nat :| i < |rows| && Carries(rows[i], sid) {
      var first := FirstToCarry(rows, sid, i);
      ThreadAmongFirst(rows, first, sid, ForeignIds(rows));
      assert forall k: nat :: FirstCarrying(rows, k, sid) ==> k == first;
    } else {
      ThreadAmongNone(rows, sid, ForeignIds(rows));
    }
  }

  /** A bridge row that stores the history of a thread. */
  predicate Stores(row: Row, thread: string) {
    row.source == BRIDGE && row.thread == Some(thread) && Truthy(row.id)
  }

  lemma {:induction false} RowForThreadAbsent(rows: seq<Row>, sid: string)
    requires forall k :: 0 <= k < |rows| ==> !Stores(rows[k], sid)
    ensures RowForThread(rows, sid) == sid
  {
    if rows != [] {
      assert !Stores(rows[0], sid);
      assert forall k :: 0 <= k < |rows[1..]| ==> rows[1..][k] == rows[k + 1];
      RowForThreadAbsent(rows[1..], sid);
    }
  }

  lemma {:induction false} RowForThreadFirst(rows: seq<Row>, sid: string, i: nat)
    requires i < |rows| && Stores(rows[i], sid) && forall k :: 0 <= k < i ==> !Stores(rows[k], sid)
    ensures RowForThread(rows, sid) == rows[i].id.value
  {
    if i > 0 {
      assert !Stores(rows[0], sid);
      assert forall k :: 0 <= k < |rows[1..]| ==> rows[1..][k] == rows[k + 1];
      RowForThreadFirst(rows[1..], sid, i - 1);
    }
  }

  /** For any rows at all: history is looked up under the id itself if a row has it or no bridge
      row stores it, and else under the id of the first bridge row that does. */
  lemma HistorySought(rows: seq<Row>, sid: string)
    ensures (exists i :: 0 <= i < |rows| && rows[i].id == Some(sid)) || (forall i :: 0 <= i < |rows| ==> !Stores(rows[i], sid))
            ==> ResolveMessageSessionId(sid, rows) == sid
    ensures forall i | 0 <= i < |rows| && Stores(rows[i], sid) && (forall k :: 0 <= k < i ==> !Stores(rows[k], sid)) ::
              (forall k :: 0 <= k < |rows| ==> rows[k].id != Some(sid)) ==> Some(ResolveMessageSessionId(sid, rows)) == rows[i].id
  {
    RowWithIdAbsent(rows, sid);
    if forall i :: 0 <= i < |rows| ==> !Stores(rows[i], sid) {
      RowForThreadAbsent(rows, sid);
    }
    forall i | 0 <= i < |rows| && Stores(rows[i], sid) && (forall k :: 0 <= k < i ==> !Stores(rows[k], sid))
      ensures Some(RowForThread(rows, sid)) == rows[i].id
    {
      RowForThreadFirst(rows, sid, i);
    }
  }

  // ------------------------------------------------- the three functions agree

  /** A bridge row that is neither foreign nor laptop-owned. */
  predicate IsOwnBridgeRow(row: Row) {
    row.source == BRIDGE && !IsContinued(row) && !IsLocalOwned(row.id, Some(row))
  }

  /** A bridge chat the phone knows by its thread. */
  predicate IsChat(row: Row, rows: seq<Row>) {
    && IsOwnBridgeRow(row) && HasThread(row)
    && !(CONT_PREFIX <= row.thread.value)
    && row.thread !in ForeignIds(rows)
  }

  ghost predicate UniqueIds(rows: seq<Row>) {
    && (forall i :: 0 <= i < |rows| ==> Truthy(rows[i].id))
    && (forall i, j :: 0 <= i < j < |rows| ==> rows[i].id != rows[j].id)
  }

  /** What the gateway's own rows look like: ids are unique and non-empty, stored threads
      are trimmed, and no thread but a foreign id is another row's id. */
  ghost predicate WellFormed(rows: seq<Row>) {
    && UniqueIds(rows)
    && (forall i | 0 <= i < |rows| && rows[i].thread.Some? :: Strip(rows[i].thread.value) == rows[i].thread.value)
    && (forall i, j | 0 <= i < |rows| && 0 <= j < |rows| && i != j :: BridgeThread(rows[i], rows) ==> rows[i].thread != rows[j].id)
  }

  /** A bridge row with a thread that is no foreign session's id. */
  predicate BridgeThread(row: Row, rows: seq<Row>) {
    row.source == BRIDGE && HasThread(row) && row.thread !in ForeignIds(rows)
  }

  /** Where a send into a row belongs. */
  function OwnThread(row: Row): Option<string>
    requires row.id.Some?
  {
    if IsLocalOwned(row.id, Some(row)) then None
    else if IsForeign(row) then Some(ContinuationThread(row.id.value))
    else if HasThread(row) then Some(Strip(row.thread.value))
    else if Truthy(row.forkedFrom) then row.id
    else None
  }

  lemma RowWithIdFinds(rows: seq<Row>, i: nat)
    requires i < |rows| && UniqueIds(rows)
    ensures RowWithId(rows, rows[i].id.value) == Some(rows[i])
  {
    if i > 0 {
      var tail := rows[1..];
      assert forall k :: 0 <= k < |tail| ==> tail[k] == rows[k + 1];
      RowWithIdFinds(tail, i - 1);
    }
  }

  lemma RowWithIdAbsent(rows: seq<Row>, sid: string)
    ensures RowWithId(rows, sid).None? <==> forall i :: 0 <= i < |rows| ==> rows[i].id != Some(sid)
    ensures RowWithId(rows, sid).Some? ==> RowWithId(rows, sid).value in rows && RowWithId(rows, sid).value.id == Some(sid)
  {
    if rows != [] && rows[0].id != Some(sid) {
      RowWithIdAbsent(rows[1..], sid);
      assert forall i :: 0 < i < |rows| ==> rows[i] == rows[1..][i - 1];
    }
  }

  lemma ForeignIdIff(rows: seq<Row>, i: nat)
    requires i < |rows| && UniqueIds(rows)
    ensures rows[i].id in ForeignIds(rows) <==> IsForeign(rows[i])
  {
    if rows[i].id in ForeignIds(rows) {
      var row :| row in rows && IsForeign(row) && row.id == rows[i].id;
      var j :| 0 <= j < |rows| && rows[j] == row;
      assert i == j;
    }
  }

  lemma TrimmedThread(row: Row, t: string, sid: string, foreign: set<Option<string>>)
    requires row.thread == Some(t) && t != "" && Strip(t) == t
    ensures HasThread(row) && ThreadOfMatch(row, sid, foreign) == Some(t)
  {
  }

  /** Searching for a chat's thread ends at a row of that thread. */
  lemma {:induction false} ThreadAmongChat(rows: seq<Row>, t: string, foreign: set<Option<string>>, i: nat)
    requires i < |rows| && rows[i].source == BRIDGE && rows[i].thread == Some(t)
    requires forall k :: 0 <= k < |rows| && rows[k].id == Some(t) ==> ThreadOfMatch(rows[k], t, foreign) == Some(t)
    ensures ThreadAmong(rows, t, foreign) == Some(t)
  {
    var first := rows[0];
    if first.source == BRIDGE && first.id == Some(t) {
      assert ThreadOfMatch(first, t, foreign) == Some(t);
    } else if !(first.source == BRIDGE && first.thread == Some(t)) {
      var tail := rows[1..];
      assert forall k :: 0 <= k < |tail| ==> tail[k] == rows[k + 1];
      ThreadAmongChat(tail, t, foreign, i - 1);
    }
  }

  /** Searching for a row's own id ends at that row. */
  lemma {:induction false} ThreadAmongRow(rows: seq<Row>, foreign: set<Option<string>>, i: nat)
    requires i < |rows| && rows[i].source == BRIDGE && rows[i].id.Some?
    requires forall k :: 0 <= k < i ==> rows[k].id != rows[i].id && !(rows[k].source == BRIDGE && rows[k].thread == rows[i].id)
    ensures ThreadAmong(rows, rows[i].id.value, foreign) == ThreadOfMatch(rows[i], rows[i].id.value, foreign)
  {
    if i > 0 {
      assert forall k :: 0 <= k < |rows[1..]| ==> rows[1..][k] == rows[k + 1];
      assert rows[0].id != rows[i].id;
      ThreadAmongRow(rows[1..], foreign, i - 1);
    }
  }

  /** Sending to the id a row is listed under routes to that row's own thread: its
      `cont_` thread if foreign, no thread if laptop-owned or a legacy bare row. The one
      exception is a chat whose thread looks like a laptop id, and it always fails. */
  lemma SendRoutesToOwnThread(rows: seq<Row>, i: nat)
    requires WellFormed(rows) && i < |rows| && Present(rows[i], rows).Some?
    ensures BridgeThreadId(Present(rows[i], rows).value.id, rows) == OwnThread(rows[i])
       <==> !(IsChat(rows[i], rows) && IsLocalPlatformId(rows[i].thread))
  {
    var row := rows[i];
    RowWithIdFinds(rows, i);
    ForeignIdIff(rows, i);
    if IsOwnBridgeRow(row) {
      if IsChat(row, rows) {
        ChatRoutes(rows, i);
      } else {
        OwnRowRoutes(rows, i);
      }
    }
  }

  lemma ChatRoutes(rows: seq<Row>, i: nat)
    requires WellFormed(rows) && i < |rows| && IsChat(rows[i], rows)
    ensures Present(rows[i], rows).Some? && Present(rows[i], rows).value.id == rows[i].thread
    ensures BridgeThreadId(rows[i].thread, rows) == if IsLocalPlatformId(rows[i].thread) then None else rows[i].thread
  {
    var t := rows[i].thread.value;
    assert forall k :: 0 <= k < |rows| && rows[k].id == Some(t) ==> k == i;
    RowWithIdAbsent(rows, t);
    TrimmedThread(rows[i], t, t, ForeignIds(rows));
    ThreadAmongChat(rows, t, ForeignIds(rows), i);
  }

  lemma OwnRowRoutes(rows: seq<Row>, i: nat)
    requires WellFormed(rows) && i < |rows| && IsOwnBridgeRow(rows[i]) && !IsChat(rows[i], rows)
    requires Present(rows[i], rows).Some?
    ensures Present(rows[i], rows).value.id == rows[i].id
    ensures BridgeThreadId(rows[i].id, rows) == OwnThread(rows[i])
  {
    var row := rows[i];
    RowWithIdFinds(rows, i);
    ForeignIdIff(rows, i);
    forall k | 0 <= k < i
      ensures rows[k].id != row.id && !(rows[k].source == BRIDGE && rows[k].thread == row.id)
    {
      if rows[k].source == BRIDGE && rows[k].thread == row.id {
        assert BridgeThread(rows[k], rows);
      }
    }
    ThreadAmongRow(rows, ForeignIds(rows), i);
  }

  /** A listed row keeps the first place its id has among the presented rows. */
  ghost predicate FirstOf(rows: seq<Row>, i: nat) {
    && i < |rows| && Present(rows[i], rows).Some?
    && forall j | 0 <= j < i && Present(rows[j], rows).Some? :: Present(rows[j], rows).value.id != Present(rows[i], rows).value.id
  }

  /** A bridge row that the laptop owns and that carries this thread. */
  predicate LaptopCarries(row: Row, thread: Option<string>) {
    row.source == BRIDGE && row.thread == thread && IsLocalOwned(row.id, Some(row))
  }

  /** A chat listed under its thread, after a laptop-owned bridge row of the same thread. */
  ghost predicate Shadowed(rows: seq<Row>, i: nat)
    requires i < |rows|
  {
    && IsChat(rows[i], rows) && rows[i].id != rows[i].thread
    && exists j :: 0 <= j < i && LaptopCarries(rows[j], rows[i].thread)
  }

  /** A chat is listed under its thread, every other row under its own id. */
  lemma ListedUnder(rows: seq<Row>, i: nat)
    requires WellFormed(rows) && i < |rows| && Present(rows[i], rows).Some?
    ensures Present(rows[i], rows).value.id == if IsChat(rows[i], rows) then rows[i].thread else rows[i].id
  {
    RowListedUnder(rows[i], rows);
  }

  lemma RowListedUnder(row: Row, rows: seq<Row>)
    requires Present(row, rows).Some? && (row.thread.Some? ==> Strip(row.thread.value) == row.thread.value)
    ensures Present(row, rows).value.id == if IsChat(row, rows) then row.thread else row.id
  {
  }

  /** Looking history up under the id a row is listed by finds the row's stored id, exactly
      when no laptop-owned bridge row before it carries its thread. */
  lemma HistoryFindsStoredIdIff(rows: seq<Row>, i: nat)
    requires WellFormed(rows) && FirstOf(rows, i)
    ensures Present(rows[i], rows).value.id.Some?
    ensures Some(ResolveMessageSessionId(Present(rows[i], rows).value.id.value, rows)) == rows[i].id
       <==> !Shadowed(rows, i)
  {
    ListedUnder(rows, i);
    if IsChat(rows[i], rows) && rows[i].id != rows[i].thread {
      ChatHistory(rows, i);
    } else {
      RowWithIdFinds(rows, i);
    }
  }

  /** Before a chat that is listed first under its thread, only laptop-owned bridge rows can
      carry that thread. */
  lemma EarlierCarrier(rows: seq<Row>, i: nat, j: nat)
    requires WellFormed(rows) && FirstOf(rows, i) && IsChat(rows[i], rows) && j < i
    ensures rows[j].source == BRIDGE && rows[j].thread == rows[i].thread <==> LaptopCarries(rows[j], rows[i].thread)
  {
    ListedUnder(rows, i);
    if Present(rows[j], rows).Some? {
      ListedUnder(rows, j);
    }
  }

  lemma ChatHistory(rows: seq<Row>, i: nat)
    requires WellFormed(rows) && FirstOf(rows, i) && IsChat(rows[i], rows) && rows[i].id != rows[i].thread
    ensures ResolveMessageSessionId(rows[i].thread.value, rows) == rows[i].id.value <==> !Shadowed(rows, i)
  {
    var t := rows[i].thread.value;
    RowWithIdAbsent(rows, t);
    assert BridgeThread(rows[i], rows);
    forall j: nat | j < i
      ensures rows[j].source == BRIDGE && rows[j].thread == Some(t) <==> LaptopCarries(rows[j], Some(t))
    {
      EarlierCarrier(rows, i, j);
    }
    var j := FirstCarrier(rows, t, i);
    RowForThreadFinds(rows, t, j);
    assert j != i ==> LaptopCarries(rows[j], rows[i].thread) && rows[j].id != rows[i].id;
  }

  /** The first bridge row of the thread, at `i` at the latest. */
  lemma FirstCarrier(rows: seq<Row>, t: string, i: nat) returns (j: nat)
    requires i < |rows| && rows[i].source == BRIDGE && rows[i].thread == Some(t)
    ensures j <= i && rows[j].source == BRIDGE && rows[j].thread == Some(t)
    ensures forall k :: 0 <= k < j ==> !(rows[k].source == BRIDGE && rows[k].thread == Some(t))
  {
    if k: nat :| k < i && rows[k].source == BRIDGE && rows[k].thread == Some(t) {
      j := FirstCarrier(rows, t, k);
    } else {
      j := i;
    }
  }

  lemma {:induction false} RowForThreadFinds(rows: seq<Row>, t: string, i: nat)
    requires i < |rows| && rows[i].source == BRIDGE && rows[i].thread == Some(t) && Truthy(rows[i].id)
    requires forall j :: 0 <= j < i ==> !(rows[j].source == BRIDGE && rows[j].thread == Some(t))
    ensures RowForThread(rows, t) == rows[i].id.value
  {
    if i > 0 {
      assert forall k :: 0 <= k < |rows[1..]| ==> rows[1..][k] == rows[k + 1];
      RowForThreadFinds(rows[1..], t, i - 1);
    }
  }

  lemma PresentedFrom(part: seq<Row>, rows: seq<Row>, k: nat) returns (i: nat)
    requires k < |Presented(part, rows)|
    ensures i < |part| && Present(part[i], rows) == Some(Presented(part, rows)[k])
    ensures forall j | 0 <= j < i && Present(part[j], rows).Some? :: exists m | 0 <= m < k :: Presented(part, rows)[m] == Present(part[j], rows).value
  {
    var earlier := part[..|part| - 1];
    if k < |Presented(earlier, rows)| {
      i := PresentedFrom(earlier, rows, k);
      forall j | 0 <= j < i && Present(part[j], rows).Some?
        ensures exists m | 0 <= m < k :: Presented(part, rows)[m] == Present(part[j], rows).value
      {
        assert earlier[j] == part[j];
        var m :| 0 <= m < k && Presented(earlier, rows)[m] == Present(earlier[j], rows).value;
        assert Presented(part, rows)[m] == Presented(earlier, rows)[m];
      }
    } else {
      i := |part| - 1;
      forall j | 0 <= j < i && Present(part[j], rows).Some?
        ensures exists m | 0 <= m < k :: Presented(part, rows)[m] == Present(part[j], rows).value
      {
        var m := PresentedAt(earlier, rows, j);
        assert Presented(part, rows)[m] == Presented(earlier, rows)[m];
      }
    }
  }

  lemma PresentedAt(part: seq<Row>, rows: seq<Row>, j: nat) returns (m: nat)
    requires j < |part| && Present(part[j], rows).Some?
    ensures m < |Presented(part, rows)| && Presented(part, rows)[m] == Present(part[j], rows).value
  {
    if j == |part| - 1 {
      m := |Presented(part[..j], rows)|;
    } else {
      m := PresentedAt(part[..|part| - 1], rows, j);
    }
  }

  /** `Firsts` keeps the first row of each id and only that, in order. */
  lemma FirstsAreFirst(rows: seq<Row>, k: nat) returns (i: nat)
    requires k < |Firsts(rows)|
    ensures i < |rows| && Firsts(rows)[k] == rows[i] && forall j :: 0 <= j < i ==> rows[j].id != rows[i].id
  {
    var earlier := rows[..|rows| - 1];
    if k < |Firsts(earlier)| {
      i := FirstsAreFirst(earlier, k);
    } else {
      i := |rows| - 1;
      assert forall j :: 0 <= j < i ==> earlier[j] == rows[j];
    }
  }

  lemma FirstsUnique(rows: seq<Row>)
    ensures forall j, k :: 0 <= j < k < |Firsts(rows)| ==> Firsts(rows)[j].id != Firsts(rows)[k].id
    ensures forall row :: row in Firsts(rows) ==> row in rows
  {
    if rows != [] {
      var earlier := rows[..|rows| - 1];
      FirstsUnique(earlier);
      assert forall row :: row in earlier ==> row in rows;
      if |Firsts(rows)| > |Firsts(earlier)| {
        forall j | 0 <= j < |Firsts(earlier)|
          ensures Firsts(earlier)[j].id != rows[|rows| - 1].id
        {
          assert Firsts(earlier)[j] in earlier;
        }
      }
    }
  }

  lemma FirstsCover(rows: seq<Row>, i: nat)
    requires i < |rows|
    ensures exists k | 0 <= k < |Firsts(rows)| :: Firsts(rows)[k].id == rows[i].id
  {
    var earlier := rows[..|rows| - 1];
    if i < |rows| - 1 {
      FirstsCover(earlier, i);
      var k :| 0 <= k < |Firsts(earlier)| && Firsts(earlier)[k].id == earlier[i].id;
      assert Firsts(rows)[k].id == rows[i].id;
    } else if exists j :: 0 <= j < |earlier| && earlier[j].id == rows[i].id {
      var j :| 0 <= j < |earlier| && earlier[j].id == rows[i].id;
      FirstsCover(earlier, j);
      var k :| 0 <= k < |Firsts(earlier)| && Firsts(earlier)[k].id == earlier[j].id;
      assert Firsts(rows)[k].id == rows[i].id;
    } else {
      assert Firsts(rows)[|Firsts(earlier)|] == rows[i];
    }
  }

  /** For every list of rows: the listed ids are unique and cover every row that is
      shown; each listed row comes from one stored row, history asked for under its
      listed id is that row's unless it is shadowed, and a send under it reaches that
      row's own thread unless it is a chat whose thread looks like a laptop id. */
  lemma ListingAgrees(rows: seq<Row>, k: nat) returns (i: nat)
    requires WellFormed(rows) && k < |Firsts(Presented(rows, rows))|
    ensures forall a, b :: 0 <= a < b < |Firsts(Presented(rows, rows))| ==>
              Firsts(Presented(rows, rows))[a].id != Firsts(Presented(rows, rows))[b].id
    ensures i < |rows| && Present(rows[i], rows) == Some(Firsts(Presented(rows, rows))[k])
    ensures var id := Firsts(Presented(rows, rows))[k].id;
            && id.Some?
            && (Some(ResolveMessageSessionId(id.value, rows)) == rows[i].id <==> !Shadowed(rows, i))
            && (BridgeThreadId(id, rows) == OwnThread(rows[i]) <==> !(IsChat(rows[i], rows) && IsLocalPlatformId(rows[i].thread)))
  {
    var shown := Presented(rows, rows);
    FirstsUnique(shown);
    var m := FirstsAreFirst(shown, k);
    i := PresentedFrom(rows, rows, m);
    forall j | 0 <= j < i && Present(rows[j], rows).Some?
      ensures Present(rows[j], rows).value.id != Present(rows[i], rows).value.id
    {
      var n :| 0 <= n < m && shown[n] == Present(rows[j], rows).value;
    }
    HistoryFindsStoredIdIff(rows, i);
    SendRoutesToOwnThread(rows, i);
  }

  ghost predicate Increasing(at: seq<nat>) {
    forall a, b :: 0 <= a < b < |at| ==> at[a] < at[b]
  }

  /** What `show` makes of the items, without those it makes nothing of. */
  ghost function Collected<T, U>(show: T -> Option<U>, items: seq<T>): seq<U> {
    if items == [] then []
    else
      var earlier, last := Collected(show, items[..|items| - 1]), show(items[|items| - 1]);
      if last.Some? then earlier + [last.value] else earlier
  }

  /** The positions of the items something is made of, in order. */
  lemma {:induction false} CollectedPositions<T, U>(show: T -> Option<U>, items: seq<T>) returns (at: seq<nat>)
    ensures Increasing(at) && |at| == |Collected(show, items)|
    ensures forall k :: 0 <= k < |at| ==> at[k] < |items| && show(items[at[k]]) == Some(Collected(show, items)[k])
    ensures forall i: nat | i < |items| && show(items[i]).Some? :: i in at
  {
    at := [];
    if items != [] {
      var n := |items| - 1;
      at := CollectedPositions(show, items[..n]);
      if show(items[n]).Some? {
        var earlier := at;
        at := at + [n];
        assert at[|earlier|] == n;
        assert forall i: nat :: i in earlier ==> i in at;
      }
    }
  }

  lemma {:induction false} PresentedIsCollected(part: seq<Row>, rows: seq<Row>, show: Row -> Option<Row>)
    requires forall row :: show(row) == Present(row, rows)
    ensures Presented(part, rows) == Collected(show, part)
  {
    if part != [] {
      PresentedIsCollected(part[..|part| - 1], rows, show);
      assert show(part[|part| - 1]) == Present(part[|part| - 1], rows);
    }
  }

  lemma PresentedPositions(rows: seq<Row>) returns (at: seq<nat>)
    ensures ShownPositions(rows, at)
  {
    var show := (row: Row) => Present(row, rows);
    PresentedIsCollected(rows, rows, show);
    at := CollectedPositions(show, rows);
    assert forall i: nat | i < |rows| :: show(rows[i]) == Present(rows[i], rows);
  }

  ghost predicate IsFirst(rows: seq<Row>, i: nat) {
    i < |rows| && forall j :: 0 <= j < i ==> rows[j].id != rows[i].id
  }

  lemma IsFirstSnoc(earlier: seq<Row>, row: Row, i: nat)
    ensures IsFirst(earlier + [row], i) <==> IsFirst(earlier, i) || (i == |earlier| && !Seen(earlier, row.id))
  {
    var rows := earlier + [row];
    assert forall j :: 0 <= j < |earlier| ==> rows[j] == earlier[j];
    if i == |earlier| && Seen(earlier, row.id) {
      var j :| 0 <= j < |earlier| && earlier[j].id == row.id;
      assert rows[j].id == rows[i].id;
    }
  }

  /** These are the positions of the first rows, and these the rows. */
  ghost predicate FirstPositions(rows: seq<Row>, firsts: seq<Row>, at: seq<nat>) {
    && Increasing(at) && |at| == |firsts|
    && (forall k :: 0 <= k < |at| ==> IsFirst(rows, at[k]) && rows[at[k]] == firsts[k])
    && forall i: nat | IsFirst(rows, i) :: i in at
  }

  lemma RepeatKeepsPositions(earlier: seq<Row>, row: Row, firsts: seq<Row>, at: seq<nat>)
    requires FirstPositions(earlier, firsts, at) && Seen(earlier, row.id)
    ensures FirstPositions(earlier + [row], firsts, at)
  {
    forall i: nat ensures IsFirst(earlier + [row], i) <==> IsFirst(earlier, i) {
      IsFirstSnoc(earlier, row, i);
    }
  }

  lemma NewAddsPosition(earlier: seq<Row>, row: Row, firsts: seq<Row>, at: seq<nat>)
    requires FirstPositions(earlier, firsts, at) && !Seen(earlier, row.id)
    ensures FirstPositions(earlier + [row], firsts + [row], at + [|earlier|])
  {
    var n := |earlier|;
    var longer := at + [n];
    forall i: nat ensures IsFirst(earlier + [row], i) <==> IsFirst(earlier, i) || i == n {
      IsFirstSnoc(earlier, row, i);
    }
    forall i: nat | IsFirst(earlier + [row], i) ensures i in longer {
      if i == n {
        assert longer[|at|] == n;
      } else {
        assert i in at;
      }
    }
    forall k | 0 <= k < |longer|
      ensures IsFirst(earlier + [row], longer[k]) && (earlier + [row])[longer[k]] == (firsts + [row])[k]
    {
      if k < |at| {
        assert IsFirst(earlier, at[k]) && earlier[at[k]] == firsts[k];
      }
    }
  }

  /** The positions of the rows whose id is new, in order. */
  lemma {:induction false} FirstsPositions(rows: seq<Row>) returns (at: seq<nat>)
    ensures FirstPositions(rows, Firsts(rows), at)
  {
    at := [];
    if rows != [] {
      var n := |rows| - 1;
      var earlier, row := rows[..n], rows[n];
      assert earlier + [row] == rows;
      at := FirstsPositions(earlier);
      SeenSnoc(earlier, row, row.id);
      if Seen(earlier, row.id) {
        RepeatKeepsPositions(earlier, row, Firsts(earlier), at);
        assert Firsts(earlier) + [] == Firsts(earlier);
      } else {
        NewAddsPosition(earlier, row, Firsts(earlier), at);
        at := at + [n];
      }
    }
  }

  /** A bridge row that is neither the laptop's nor continued, and whose thread is a foreign id. */
  predicate IsLegacyFork(row: Row, rows: seq<Row>) {
    IsOwnBridgeRow(row) && HasThread(row) && row.thread in ForeignIds(rows)
  }

  /** The laptop's: by the id's prefix or by the source. */
  predicate IsLaptopRow(row: Row) {
    IsLocalPlatformId(row.id) || row.source == LOCAL
  }

  /** What a legacy fork is titled: by itself, else by the first row it was forked from. */
  ghost predicate TitledFork(row: Row, title: Option<string>, rows: seq<Row>)
    requires row.thread.Some?
  {
    if Truthy(row.title) then title == Some("\U{21AA} " + row.title.value)
    else exists i: nat :: FirstWithId(rows, i, row.thread.value)
           && title == Some("\U{21AA} " + if rows[i].title.Some? then rows[i].title.value else "None")
  }

  /** How a stored row is shown, field by field. */
  ghost predicate ShownAs(row: Row, shown: Row, rows: seq<Row>) {
    && shown.id == (if IsOwnBridgeRow(row) && HasThread(row) && !IsLegacyFork(row, rows) then Some(Strip(row.thread.value)) else row.id)
    && shown.source == (if IsLaptopRow(row) then LOCAL else row.source)
    && shown.thread == (if IsLaptopRow(row) && row.id.Some? && row.thread == Some("cont_" + row.id.value) then None else row.thread)
    && shown.forkedFrom == (if IsLegacyFork(row, rows) then row.thread else row.forkedFrom)
    && (if IsLegacyFork(row, rows) then TitledFork(row, shown.title, rows) else shown.title == row.title)
  }

  /** The placeholder of a continuation, which is not shown. */
  predicate IsPlaceholder(row: Row) {
    row.source == BRIDGE && !IsLaptopRow(row) && !IsContinued(row) && row.thread.Some? && CONT_PREFIX <= row.thread.value
  }

  lemma PresentShows(row: Row, rows: seq<Row>)
    ensures Present(row, rows).None? <==> IsPlaceholder(row)
    ensures Present(row, rows).Some? ==> ShownAs(row, Present(row, rows).value, rows)
  {
    if IsLegacyFork(row, rows) {
      var original :| original in rows && IsForeign(original) && original.id == row.thread;
      var k :| 0 <= k < |rows| && rows[k] == original;
      var i := FirstRowWithId(rows, row.thread.value, k);
      RowWithIdIsFirst(rows, i, row.thread.value);
    }
  }

  /** For any rows at all, the list the phone gets: from increasing positions of the stored rows,
      every field as it should be, and a position is among them exactly if its row is no
      placeholder and no shown row before it has the id it is shown under. */
  lemma ListingIsExact(rows: seq<Row>) returns (at: seq<nat>)
    ensures Increasing(at) && |at| == |Firsts(Presented(rows, rows))|
    ensures forall k :: 0 <= k < |at| ==> at[k] < |rows| && ShownAs(rows[at[k]], Firsts(Presented(rows, rows))[k], rows)
    ensures forall i: nat :: i in at <==> i < |rows| && !IsPlaceholder(rows[i]) && FirstOf(rows, i)
  {
    var shown := Presented(rows, rows);
    var p := PresentedPositions(rows);
    var f := FirstsPositions(shown);
    at := seq(|f|, k requires 0 <= k < |f| => p[f[k]]);
    forall k | 0 <= k < |at|
      ensures at[k] < |rows| && ShownAs(rows[at[k]], Firsts(shown)[k], rows) && !IsPlaceholder(rows[at[k]]) && FirstOf(rows, at[k])
    {
      PresentShows(rows[at[k]], rows);
      FirstShown(rows, p, f[k]);
    }
    forall i: nat | i < |rows| && FirstOf(rows, i)
      ensures i in at
    {
      var m := PositionOf(p, i);
      FirstShown(rows, p, m);
      var k := PositionOf(f, m);
      assert at[k] == i;
    }
    forall i: nat | FirstOf(rows, i) ensures !IsPlaceholder(rows[i]) {
      PresentShows(rows[i], rows);
    }
  }

  lemma PositionOf(at: seq<nat>, i: nat) returns (k: nat)
    requires i in at
    ensures k < |at| && at[k] == i
  {
    k :| k < |at| && at[k] == i;
  }

  ghost predicate ShownPositions(rows: seq<Row>, p: seq<nat>) {
    var shown := Presented(rows, rows);
    && Increasing(p) && |p| == |shown|
    && (forall k :: 0 <= k < |p| ==> p[k] < |rows| && Present(rows[p[k]], rows) == Some(shown[k]))
    && forall i: nat | i < |rows| && Present(rows[i], rows).Some? :: i in p
  }

  lemma FirstShown(rows: seq<Row>, p: seq<nat>, m: nat)
    requires ShownPositions(rows, p) && m < |p|
    ensures IsFirst(Presented(rows, rows), m) <==> FirstOf(rows, p[m])
  {
    var shown := Presented(rows, rows);
    if IsFirst(shown, m) {
      forall j | 0 <= j < p[m] && Present(rows[j], rows).Some?
        ensures Present(rows[j], rows).value.id != shown[m].id
      {
        var n := PositionOf(p, j);
        assert n < m;
      }
    } else {
      var j :| 0 <= j < m && shown[j].id == shown[m].id;
      assert p[j] < p[m];
    }
  }

  /** Rows of plain threads: bridge rows of the thread `t`, which is no continuation's. */
  ghost predicate PlainRows(rows: seq<Row>, t: string) {
    && t != "" && Strip(t) == t && !(CONT_PREFIX <= t)
    && forall i :: 0 <= i < |rows| ==> rows[i].source == BRIDGE && rows[i].thread == Some(t) && rows[i].id != Some(t)
  }

  lemma PlainRowsAreOurs(rows: seq<Row>, t: string)
    requires PlainRows(rows, t) && UniqueIds(rows)
    ensures WellFormed(rows) && ForeignIds(rows) == {}
    ensures forall i :: 0 <= i < |rows| ==> !IsForeign(rows[i]) && (IsChat(rows[i], rows) <==> !IsLocalPlatformId(rows[i].id))
  {
    forall i | 0 <= i < |rows| ensures !IsForeign(rows[i]) {
      assert rows[i].id.Some? ==> CONT_PREFIX <= ContinuationThread(rows[i].id.value);
    }
  }

  /** A laptop-owned bridge row before a chat of the same thread takes the chat's history:
      the chat is listed under the thread, and history under it is the laptop row's. */
  lemma LaptopRowTakesHistory(rows: seq<Row>, t: string)
    requires PlainRows(rows, t) && UniqueIds(rows) && |rows| == 2
    requires IsLocalPlatformId(rows[0].id) && !IsLocalPlatformId(rows[1].id)
    ensures WellFormed(rows) && FirstOf(rows, 1) && Shadowed(rows, 1)
    ensures Present(rows[1], rows).value.id == Some(t) && Some(ResolveMessageSessionId(t, rows)) == rows[0].id != rows[1].id
  {
    PlainRowsAreOurs(rows, t);
    ListedUnder(rows, 0);
    ListedUnder(rows, 1);
    assert LaptopCarries(rows[0], rows[1].thread);
    RowWithIdAbsent(rows, t);
  }

  lemma OneLetterIsPlain(t: string)
    requires |t| == 1 && !IsSpace(t[0])
    ensures Strip(t) == t && !(CONT_PREFIX <= t) && !(LOCAL_PREFIX <= t)
  {
    StripFixed(t);
  }

  /** Two such rows, `local-1` and `s1` of the thread `t`: the chat is listed as `t`, and its
      history is sought under `local-1`. */
  lemma LaptopRowExample(rows: seq<Row>, t: string)
    requires |t| == 1 && t[0] == 't' && |rows| == 2
    requires rows[0].id == Some("local-1") && rows[1].id == Some("s1")
    requires forall i :: 0 <= i < |rows| ==> rows[i].source == BRIDGE && rows[i].thread == Some(t)
    ensures WellFormed(rows) && FirstOf(rows, 1) && Present(rows[1], rows).value.id == Some(t)
    ensures ResolveMessageSessionId(t, rows) == "local-1"
  {
    OneLetterIsPlain(t);
    assert |"local-1"| == 7 && "local-1"[..6] == LOCAL_PREFIX && |"s1"| == 2;
    LaptopRowTakesHistory(rows, t);
  }

  /** A chat whose thread starts with the laptop prefix is refused its thread. */
  lemma LaptopLikeChatIsUnrouted(rows: seq<Row>, t: string)
    requires PlainRows(rows, t) && UniqueIds(rows) && |rows| == 1
    requires !IsLocalPlatformId(rows[0].id) && LOCAL_PREFIX <= t
    ensures WellFormed(rows) && Present(rows[0], rows).Some? && Present(rows[0], rows).value.id == Some(t)
    ensures BridgeThreadId(Some(t), rows) == None && OwnThread(rows[0]) == Some(t)
  {
    PlainRowsAreOurs(rows, t);
    ListedUnder(rows, 0);
  }

  lemma EveryShownRowIsListed(rows: seq<Row>, i: nat)
    requires i < |rows| && Present(rows[i], rows).Some?
    ensures exists k | 0 <= k < |Firsts(Presented(rows, rows))| ::
              Firsts(Presented(rows, rows))[k].id == Present(rows[i], rows).value.id
  {
    var m := PresentedAt(rows, rows, i);
    FirstsCover(Presented(rows, rows), m);
  }

  /** A foreign session's continuation thread is never the thread of a listed bridge row. */
  lemma ContinuationNeverCollides(rows: seq<Row>, i: nat, foreign: string)
    requires i < |rows| && Present(rows[i], rows).Some? && IsOwnBridgeRow(rows[i])
    ensures rows[i].thread != Some(ContinuationThread(foreign))
  {
  }

  // --------------------------------------------------- stamps and key switches

  predicate IsContinuationThread(thread: string) {
    CONT_PREFIX <= thread && |thread| > |CONT_PREFIX|
  }

  function StampPhoneSessionId(thread: string, mapped: map<string, string>): string {
    if thread in mapped && mapped[thread] != "" then mapped[thread]
    else if IsContinuationThread(thread) then thread[|CONT_PREFIX|..]
    else thread
  }

  /** What any thread is stamped with: the session the map has for it, else the id a `cont_` thread was
      made of, else the thread itself, a bare `cont_` included. */
  lemma StampIsExact(thread: string, mapped: map<string, string>)
    ensures var stamp := StampPhoneSessionId(thread, mapped);
            if thread in mapped && mapped[thread] != "" then stamp == mapped[thread]
            else || (stamp != "" && thread == "cont_" + stamp)
                 || (stamp == thread && forall id :: id != "" ==> thread != "cont_" + id)
  {
    forall id | id != "" ensures thread == "cont_" + id ==> IsContinuationThread(thread) && thread[|CONT_PREFIX|..] == id {
    }
  }

  /** Replies carry the phone's own session where the map still has one for their thread. After
      a restart has emptied it, those to a continued session still carry the foreign id the phone
      sent to, and a chat's the id it is listed under. */
  lemma StampUndoesContinuation(rows: seq<Row>, i: nat, mapped: map<string, string>)
    requires WellFormed(rows) && i < |rows| && OwnThread(rows[i]).Some?
    ensures var thread := OwnThread(rows[i]).value;
            var stamp := Some(StampPhoneSessionId(thread, mapped));
            if thread in mapped && mapped[thread] != "" then stamp == Some(mapped[thread])
            else (IsForeign(rows[i]) ==> stamp == rows[i].id) && (IsChat(rows[i], rows) ==> stamp == Present(rows[i], rows).value.id)
  {
    if IsForeign(rows[i]) {
      StampOfContinuation(rows[i].id.value, mapped);
    }
  }

  lemma StampOfContinuation(id: string, mapped: map<string, string>)
    requires id != ""
    ensures var thread := ContinuationThread(id);
            StampPhoneSessionId(thread, mapped) == if thread in mapped && mapped[thread] != "" then mapped[thread] else id
  {
  }

  function IndexOf(lineage: seq<string>, id: string): nat
    requires id in lineage
    ensures IndexOf(lineage, id) < |lineage| && lineage[IndexOf(lineage, id)] == id
    ensures forall j :: 0 <= j < IndexOf(lineage, id) ==> lineage[j] != id
  {
    if lineage[0] == id then 0 else 1 + IndexOf(lineage[1..], id)
  }

  function ContinuationSwitchTarget(current: string, listed: string, tip: Option<string>, lineage: seq<string>): Option<string> {
    if Truthy(tip) then
      if current == tip.value then None
      else if current in lineage && current == lineage[|lineage| - 1] then None
      else if current in lineage && tip.value in lineage && IndexOf(lineage, current) > IndexOf(lineage, tip.value) then None
      else tip
    else if current == listed || current in lineage then None
    else Some(listed)
  }

  /** A key is switched at most once and only forward: never off the lineage's end,
      never back along it, and a second request finds nothing to do. It stays exactly if it
      is right already, or in the lineage with nothing newer known to go to. */
  lemma SwitchOnlyForward(current: string, listed: string, tip: Option<string>, lineage: seq<string>)
    ensures var target := ContinuationSwitchTarget(current, listed, tip, lineage);
            target.Some? ==>
              && target == (if Truthy(tip) then tip else Some(listed)) && target != Some(current)
              && ContinuationSwitchTarget(target.value, listed, tip, lineage).None?
              && (current in lineage ==> Truthy(tip) && current != lineage[|lineage| - 1])
              && (current in lineage && target.value in lineage ==> IndexOf(lineage, current) < IndexOf(lineage, target.value))
    ensures ContinuationSwitchTarget(current, listed, tip, lineage).None? <==>
              || current == (if Truthy(tip) then tip.value else listed)
              || (current in lineage
                  && (!Truthy(tip) || current == lineage[|lineage| - 1]
                      || (tip.value in lineage && IndexOf(lineage, current) > IndexOf(lineage, tip.value))))
  {
  }
}
