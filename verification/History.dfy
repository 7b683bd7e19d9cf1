/** The session history as the phone sees it (adapter.py): which raw rows become bubbles, whose
    reasoning they carry, and why paging by raw offsets shows every bubble once. */
module History {
  import opened Wrappers
  import opened PyText
  import opened Reading

  /** A stored row; missing text fields are "". */
  datatype Row = Row(
    id: string, role: string, content: string, displayKind: Option<string>, displayContent: string,
    reasoning: string, toolCalls: bool, compressedSummary: bool)

  /** The text patterns a user row is matched against. */
  datatype Texts = Texts(
    withoutHandoff: string -> string, outOfBand: string -> Option<string>, describeSkill: string -> Option<string>)

  const IMPORTANT := "[IMPORTANT:"
  const SYSTEM := "[System:"

  /** What a user row shows; "" when it is not shown. */
  function UserText(t: Texts, row: Row): string {
    var content := t.withoutHandoff(row.content);
    if t.outOfBand(content).Some? then Strip(t.outOfBand(content).value)
    else if row.displayKind == Some("steer") then row.displayContent
    else if row.displayKind.Some? then ""
    else if t.describeSkill(content).Some? then t.describeSkill(content).value
    else if IMPORTANT <= content || SYSTEM <= content then ""
    else content
  }

  /** What a raw row is to the phone: nothing, a user's bubble, a reply that only called tools and
      leaves its reasoning behind ("" when it has none), or a reply with text. */
  datatype Item = Hidden | Said(row: Row) | Called(reasoning: string) | Replied(row: Row)

  function ItemOf(t: Texts, row: Row): Item {
    if row.role == "user" then
      (if UserText(t, row) == "" then Hidden else Said(row.(content := UserText(t, row))))
    else if row.role != "assistant" || row.compressedSummary || row.displayKind !in {None, Some("steer")} then Hidden
    else if Strip(row.content) != "" then Replied(row)
    else if row.toolCalls then Called(row.reasoning)
    else Hidden
  }

  function ItemsOf(t: Texts, rows: seq<Row>): (items: seq<Item>)
    ensures |items| == |rows|
  {
    seq(|rows|, i requires 0 <= i < |rows| => ItemOf(t, rows[i]))
  }

  /** A reply shown with the reasoning that waited for it. */
  function Merged(row: Row, waiting: seq<string>): Row {
    if waiting == [] then row else row.(reasoning := Strip(Paragraphs(waiting + [row.reasoning])))
  }

  function Shown(item: Item, waiting: seq<string>): seq<Row> {
    match item
    case Said(row) => [row]
    case Replied(row) => [Merged(row, waiting)]
    case _ => []
  }

  function Kept(item: Item, waiting: seq<string>): seq<string> {
    match item
    case Called(reasoning) => if reasoning != "" then waiting + [reasoning] else waiting
    case Replied(_) => []
    case _ => waiting
  }

  /** The reasoning still waiting after these rows. */
  function Waiting(items: seq<Item>, waiting: seq<string>): seq<string> {
    if items == [] then waiting else Waiting(items[1..], Kept(items[0], waiting))
  }

  function Render(items: seq<Item>, waiting: seq<string>): seq<Row> {
    if items == [] then [] else Shown(items[0], waiting) + Render(items[1..], Kept(items[0], waiting))
  }

  function Project(t: Texts, rows: seq<Row>): seq<Row> {
    Render(ItemsOf(t, rows), [])
  }

  lemma RenderStep(items: seq<Item>, k: nat, waiting: seq<string>)
    requires k < |items|
    ensures Render(items[k..], waiting) == Shown(items[k], waiting) + Render(items[k + 1..], Kept(items[k], waiting))
  {
    assert items[k..][1..] == items[k + 1..];
  }

  /** The text a user row is shown with: a message sent out of band, a steer's display text, a skill's
      description, or what was typed; rows of another kind and the system's own have none. */
  predicate UserSees(t: Texts, row: Row, text: string) {
    var typed := t.withoutHandoff(row.content);
    var aside, skill := t.outOfBand(typed), t.describeSkill(typed);
    var plain := aside.None? && row.displayKind.None? && skill.None?;
    || (aside.Some? && text == Strip(aside.value))
    || (aside.None? && row.displayKind == Some("steer") && text == row.displayContent)
    || (aside.None? && row.displayKind !in {None, Some("steer")} && text == "")
    || (aside.None? && row.displayKind.None? && skill == Some(text))
    || (plain && (IMPORTANT <= typed || SYSTEM <= typed) && text == "")
    || (plain && !(IMPORTANT <= typed) && !(SYSTEM <= typed) && text == typed)
  }

  lemma MergedIsRead(row: Row, waiting: seq<string>)
    ensures Merged(row, waiting).(reasoning := row.reasoning) == row
    ensures Letters(Merged(row, waiting).reasoning) == ReadAll(Letters, waiting) + Letters(row.reasoning)
    ensures AllFit(IsPiece, waiting) && FitsText(IsPiece, row.reasoning) ==>
              Pieces(Merged(row, waiting).reasoning) == waiting + if row.reasoning == "" then [] else [row.reasoning]
  {
    LettersReadable();
    MergedReads(row, waiting, Letters, AnyText);
    if AllFit(IsPiece, waiting) && FitsText(IsPiece, row.reasoning) {
      PiecesReadable();
      MergedReads(row, waiting, Pieces, IsPiece);
      ReadAllPieces(waiting);
      if row.reasoning != "" {
        ReadAllPieces([row.reasoning]);
      }
    }
  }

  /** What a row adds to the list, and what waits after it, given what waited before. */
  ghost predicate RowShows(t: Texts, row: Row, waiting: seq<string>, shown: seq<Row>, kept: seq<string>) {
    if IsReply(row) then
      && kept == [] && |shown| == 1 && shown[0].(reasoning := row.reasoning) == row
      && Letters(shown[0].reasoning) == ReadAll(Letters, waiting) + Letters(row.reasoning)
      && (AllFit(IsPiece, waiting) && FitsText(IsPiece, row.reasoning) ==>
            Pieces(shown[0].reasoning) == waiting + if row.reasoning == "" then [] else [row.reasoning])
    else if IsCall(row) then shown == [] && kept == waiting + if row.reasoning == "" then [] else [row.reasoning]
    else if row.role == "user" then
      kept == waiting && forall text :: UserSees(t, row, text) ==> shown == if text == "" then [] else [row.(content := text)]
    else shown == [] && kept == waiting
  }

  /** A reply is shown with every field but its reasoning, which is what waited and then its own; a
      tool-call row leaves its reasoning; a user row shows its text; nothing else is shown. */
  lemma RowIsShown(t: Texts, row: Row, waiting: seq<string>)
    ensures RowShows(t, row, waiting, Shown(ItemOf(t, row), waiting), Kept(ItemOf(t, row), waiting))
  {
    if IsReply(row) {
      MergedIsRead(row, waiting);
    } else if row.role == "user" {
      UserTextIsSeen(t, row);
    }
  }

  lemma UserTextIsSeen(t: Texts, row: Row)
    ensures forall text :: UserSees(t, row, text) <==> text == UserText(t, row)
  {
  }

  /** One row: what it shows, and the reasoning waiting after it. */
  method ProjectRow(t: Texts, original: Row, deferred: seq<string>) returns (shown: seq<Row>, kept: seq<string>)
    ensures shown == Shown(ItemOf(t, original), deferred) && kept == Kept(ItemOf(t, original), deferred)
    ensures RowShows(t, original, deferred, shown, kept)
  {
    RowIsShown(t, original, deferred);
    var row := original;
    shown, kept := [], deferred;
    if row.role == "user" {
      row := row.(content := UserText(t, row));
      if row.content == "" {
        return;
      }
    } else if row.role == "assistant" {
      if row.compressedSummary || row.displayKind !in {None, Some("steer")} {
        return;
      }
      if row.toolCalls && Strip(row.content) == "" {
        if row.reasoning != "" {
          kept := deferred + [row.reasoning];
        }
        return;
      }
      if Strip(row.content) == "" {
        return;
      }
      if deferred != [] {
        row := row.(reasoning := Strip(Paragraphs(deferred + [row.reasoning])));
        kept := [];
      }
    } else {
      return;
    }
    shown := [row];
  }

  method ProjectSessionMessages(t: Texts, messages: seq<Row>) returns (projected: seq<Row>)
    ensures projected == Project(t, messages)
  {
    projected := [];
    var deferred: seq<string> := [];
    ghost var items := ItemsOf(t, messages);
    for k := 0 to |messages|
      invariant projected + Render(items[k..], deferred) == Project(t, messages)
    {
      RenderStep(items, k, deferred);
      Regroup(projected, Shown(items[k], deferred), Render(items[k + 1..], Kept(items[k], deferred)));
      var shown;
      shown, deferred := ProjectRow(t, messages[k], deferred);
      projected := projected + shown;
    }
  }

  // ------------------------------------------------------------------ order and paging

  /** The rows without their reasoning: what the phone shows as bubbles. */
  function Bubbles(rows: seq<Row>): (r: seq<Row>)
    ensures |r| == |rows|
  {
    seq(|rows|, i requires 0 <= i < |rows| => rows[i].(reasoning := ""))
  }

  lemma BubblesConcat(a: seq<Row>, b: seq<Row>)
    ensures Bubbles(a + b) == Bubbles(a) + Bubbles(b)
  {
  }

  lemma ItemsConcat(t: Texts, a: seq<Row>, b: seq<Row>)
    ensures ItemsOf(t, a + b) == ItemsOf(t, a) + ItemsOf(t, b)
  {
  }

  lemma {:induction false} RenderConcat(a: seq<Item>, b: seq<Item>, waiting: seq<string>)
    ensures Render(a + b, waiting) == Render(a, waiting) + Render(b, Waiting(a, waiting))
    ensures Waiting(a + b, waiting) == Waiting(b, Waiting(a, waiting))
    decreases |a|
  {
    if a == [] {
      assert a + b == b;
    } else {
      var kept := Kept(a[0], waiting);
      RenderConcat(a[1..], b, kept);
      assert (a + b)[1..] == a[1..] + b;
    }
  }

  lemma {:induction false} BubblesIgnoreWaiting(items: seq<Item>, waiting: seq<string>, other: seq<string>)
    ensures Bubbles(Render(items, waiting)) == Bubbles(Render(items, other))
    decreases |items|
  {
    if items != [] {
      var kept, differs := Kept(items[0], waiting), Kept(items[0], other);
      BubblesIgnoreWaiting(items[1..], kept, differs);
      BubblesConcat(Shown(items[0], waiting), Render(items[1..], kept));
      BubblesConcat(Shown(items[0], other), Render(items[1..], differs));
    }
  }

  /** Cutting the raw rows anywhere cuts the bubbles, and shows none twice and none less. */
  lemma BubblesOfParts(t: Texts, a: seq<Row>, b: seq<Row>)
    ensures Bubbles(Project(t, a + b)) == Bubbles(Project(t, a)) + Bubbles(Project(t, b))
  {
    ItemsConcat(t, a, b);
    RenderConcat(ItemsOf(t, a), ItemsOf(t, b), []);
    BubblesIgnoreWaiting(ItemsOf(t, b), Waiting(ItemsOf(t, a), []), []);
    BubblesConcat(Project(t, a), Render(ItemsOf(t, b), Waiting(ItemsOf(t, a), [])));
  }

  /** A page of raw rows: ten for each the phone asked for, at most 500. */
  function RawLimit(limit: nat): nat {
    if limit * 10 < 500 then limit * 10 else 500
  }

  /** Where a page that starts at an offset ends, among `n` rows. */
  function Next(n: nat, offset: nat, count: nat): (next: nat)
    requires offset <= n
    ensures offset <= next <= n
    ensures count > 0 && offset < n ==> next > offset
  {
    if offset + count < n then offset + count else n
  }

  /** The page the session store returns, counting from the oldest or from the latest row. */
  function Page<T>(rows: seq<T>, offset: nat, count: nat, latest: bool): (page: seq<T>)
    requires offset <= |rows|
    ensures offset + |page| == Next(|rows|, offset, count)
  {
    var next := Next(|rows|, offset, count);
    if latest then rows[|rows| - next..|rows| - offset] else rows[offset..next]
  }

  /** All pages of a phone that reads `counts[0]`, `counts[1]`, … raw rows in turn, moving its offset
      by the rows each page reports, and puts what they show in order. */
  function Scrolled<T, U>(show: seq<T> -> seq<U>, rows: seq<T>, counts: seq<nat>, offset: nat, latest: bool): seq<U>
    requires offset <= |rows|
    decreases |counts|
  {
    if counts == [] then []
    else
      var page := Page(rows, offset, counts[0], latest);
      var rest := Scrolled(show, rows, counts[1..], offset + |page|, latest);
      if latest then rest + show(page) else show(page) + rest
  }

  /** The offset the phone ends up at. */
  function Reached(n: nat, counts: seq<nat>, offset: nat): (end: nat)
    requires offset <= n
    ensures offset <= end <= n
    decreases |counts|
  {
    if counts == [] then offset else Reached(n, counts[1..], Next(n, offset, counts[0]))
  }

  /** Every page that asks for something moves on, so enough of them reach the end. */
  lemma {:induction false} PagesReachEnd(n: nat, counts: seq<nat>, offset: nat)
    requires offset <= n && |counts| >= n - offset
    requires forall k :: 0 <= k < |counts| ==> counts[k] > 0
    ensures Reached(n, counts, offset) == n
    decreases |counts|
  {
    if counts != [] {
      PagesReachEnd(n, counts[1..], Next(n, offset, counts[0]));
    }
  }

  ghost predicate Splits<T(!new), U(!new)>(show: seq<T> -> seq<U>) {
    forall a, b :: SplitsAt(show, a, b)
  }

  ghost predicate SplitsAt<T, U>(show: seq<T> -> seq<U>, a: seq<T>, b: seq<T>) {
    show(a + b) == show(a) + show(b)
  }

  lemma ShowSlices<T(!new), U(!new)>(show: seq<T> -> seq<U>, rows: seq<T>, i: nat, j: nat, k: nat)
    requires Splits(show) && i <= j <= k <= |rows|
    ensures show(rows[i..k]) == show(rows[i..j]) + show(rows[j..k])
    ensures i == k ==> show(rows[i..k]) == []
  {
    assert SplitsAt(show, rows[i..j], rows[j..k]);
    assert rows[i..j] + rows[j..k] == rows[i..k];
    if i == k {
      var none := rows[i..k];
      assert SplitsAt(show, none, none) && none + none == none;
      assert |show(none)| == |show(none)| + |show(none)|;
    }
  }

  lemma {:induction false} ScrollBack<T(!new), U(!new)>(show: seq<T> -> seq<U>, rows: seq<T>, counts: seq<nat>, offset: nat)
    requires Splits(show) && offset <= |rows|
    ensures Scrolled(show, rows, counts, offset, true)
         == show(rows[|rows| - Reached(|rows|, counts, offset)..|rows| - offset])
    decreases |counts|
  {
    var n := |rows|;
    if counts == [] {
      ShowSlices(show, rows, n - offset, n - offset, n - offset);
    } else {
      var next := Next(n, offset, counts[0]);
      ScrollBack(show, rows, counts[1..], next);
      ShowSlices(show, rows, n - Reached(n, counts[1..], next), n - next, n - offset);
    }
  }

  lemma {:induction false} ScrollForward<T(!new), U(!new)>(show: seq<T> -> seq<U>, rows: seq<T>, counts: seq<nat>, offset: nat)
    requires Splits(show) && offset <= |rows|
    ensures Scrolled(show, rows, counts, offset, false) == show(rows[offset..Reached(|rows|, counts, offset)])
    decreases |counts|
  {
    var n := |rows|;
    if counts == [] {
      ShowSlices(show, rows, offset, offset, offset);
    } else {
      var next := Next(n, offset, counts[0]);
      ScrollForward(show, rows, counts[1..], next);
      ShowSlices(show, rows, offset, next, Reached(n, counts[1..], next));
    }
  }

  /** A page's bubbles. */
  function Show(t: Texts): seq<Row> -> seq<Row> {
    (page: seq<Row>) => Bubbles(Project(t, page))
  }

  lemma ShowSplits(t: Texts)
    ensures Splits(Show(t))
  {
    forall a, b ensures SplitsAt(Show(t), a, b) {
      BubblesOfParts(t, a, b);
    }
  }

  function RawLimits(limits: seq<nat>): seq<nat> {
    seq(|limits|, i requires 0 <= i < |limits| => RawLimit(limits[i]))
  }

  ghost predicate ShowsWalked<T, U>(show: seq<T> -> seq<U>, rows: seq<T>, counts: seq<nat>) {
    var end := Reached(|rows|, counts, 0);
    && Scrolled(show, rows, counts, 0, true) == show(rows[|rows| - end..])
    && Scrolled(show, rows, counts, 0, false) == show(rows[..end])
  }

  lemma PagesShowWalked<T(!new), U(!new)>(show: seq<T> -> seq<U>, rows: seq<T>, counts: seq<nat>)
    requires Splits(show)
    ensures ShowsWalked(show, rows, counts)
  {
    var end := Reached(|rows|, counts, 0);
    ScrollBack(show, rows, counts, 0);
    ScrollForward(show, rows, counts, 0);
    assert rows[|rows| - end..|rows| - 0] == rows[|rows| - end..] && rows[0..end] == rows[..end];
  }

  /** Scrolling through pages of any sizes, from either end, shows exactly the bubbles of the raw
      rows walked over, each once and in order. */
  lemma PagesShowSession(t: Texts, rows: seq<Row>, limits: seq<nat>)
    ensures ShowsWalked(Show(t), rows, RawLimits(limits))
  {
    ShowSplits(t);
    PagesShowWalked(Show(t), rows, RawLimits(limits));
  }

  // ------------------------------------------------------------------ reasoning

  /** An assistant row that may be shown. */
  predicate Speaks(row: Row) {
    row.role == "assistant" && !row.compressedSummary && (row.displayKind == None || row.displayKind == Some("steer"))
  }

  predicate IsReply(row: Row) {
    Speaks(row) && Strip(row.content) != ""
  }

  /** A row that only called tools. */
  predicate IsCall(row: Row) {
    Speaks(row) && row.toolCalls && Strip(row.content) == ""
  }

  /** What is read off one row's reasoning, if it counts. */
  function Own<T>(read: string -> seq<T>, row: Row): seq<T> {
    if IsReply(row) || IsCall(row) then read(row.reasoning) else []
  }

  function OwnBy<T>(read: string -> seq<T>): Row -> seq<T> {
    (row: Row) => Own(read, row)
  }

  /** What all entries hold, in order. */
  function Gathered<R, T>(own: R -> seq<T>, rows: seq<R>): seq<T> {
    if rows == [] then [] else Gathered(own, rows[..|rows| - 1]) + own(rows[|rows| - 1])
  }

  /** What the entries behind the last one that ends it hold. */
  function GatheredSince<R, T>(ends: R -> bool, own: R -> seq<T>, rows: seq<R>): seq<T> {
    if rows == [] || ends(rows[|rows| - 1]) then []
    else GatheredSince(ends, own, rows[..|rows| - 1]) + own(rows[|rows| - 1])
  }

  /** What is read off the reasoning of all raw rows, in order. */
  function AllReasoning<T>(read: string -> seq<T>, rows: seq<Row>): seq<T> {
    Gathered(OwnBy(read), rows)
  }

  /** What is read off the reasoning of the rows since the last reply. */
  function SinceReply<T>(read: string -> seq<T>, rows: seq<Row>): seq<T> {
    GatheredSince(IsReply, OwnBy(read), rows)
  }

  predicate Spoken(row: Row) { row.role == "assistant" }

  /** What is read off the reasoning of the replies that are shown. */
  function ShownReasoning<T>(read: string -> seq<T>, shown: seq<Row>): seq<T> {
    if shown == [] then []
    else
      var earlier, last := ShownReasoning(read, shown[..|shown| - 1]), shown[|shown| - 1];
      if Spoken(last) then earlier + read(last.reasoning) else earlier
  }

  // The same of items.

  function OwnOf<T>(read: string -> seq<T>, item: Item): seq<T> {
    match item
    case Replied(row) => read(row.reasoning)
    case Called(reasoning) => read(reasoning)
    case _ => []
  }

  function OwnOfBy<T>(read: string -> seq<T>): Item -> seq<T> {
    (item: Item) => OwnOf(read, item)
  }

  predicate IsReplied(item: Item) { item.Replied? }

  function ItemsReasoning<T>(read: string -> seq<T>, items: seq<Item>): seq<T> {
    Gathered(OwnOfBy(read), items)
  }

  function ItemsSince<T>(read: string -> seq<T>, items: seq<Item>): seq<T> {
    GatheredSince(IsReplied, OwnOfBy(read), items)
  }

  predicate FitsText(fit: string -> bool, text: string) { text == "" || fit(text) }

  predicate ItemFits(fit: string -> bool, item: Item) {
    match item
    case Replied(row) => FitsText(fit, row.reasoning) && Spoken(row)
    case Called(reasoning) => FitsText(fit, reasoning)
    case Said(row) => !Spoken(row)
    case Hidden => true
  }

  ghost predicate ItemsFit(fit: string -> bool, items: seq<Item>) {
    forall k :: 0 <= k < |items| ==> ItemFits(fit, items[k])
  }

  ghost predicate RowsFit(fit: string -> bool, rows: seq<Row>) {
    forall k :: 0 <= k < |rows| ==> FitsText(fit, rows[k].reasoning)
  }

  /** The item says of the row all that reading needs. */
  ghost predicate StandsFor<T>(item: Item, row: Row, read: string -> seq<T>, fit: string -> bool) {
    && (item.Replied? <==> IsReply(row))
    && (item.Replied? ==> item.row == row)
    && OwnOf(read, item) == Own(read, row)
    && ItemFits(fit, item)
  }

  lemma ItemStands<T>(t: Texts, row: Row, read: string -> seq<T>, fit: string -> bool)
    requires FitsText(fit, row.reasoning)
    ensures StandsFor(ItemOf(t, row), row, read, fit)
  {
  }

  lemma {:induction false} SameGathered<R, S, T>(ends: R -> bool, own: R -> seq<T>, rows: seq<R>, closes: S -> bool, holds: S -> seq<T>, items: seq<S>)
    requires |rows| == |items|
    requires forall k :: 0 <= k < |rows| ==> ends(rows[k]) == closes(items[k]) && own(rows[k]) == holds(items[k])
    ensures Gathered(own, rows) == Gathered(holds, items)
    ensures GatheredSince(ends, own, rows) == GatheredSince(closes, holds, items)
  {
    if rows != [] {
      var n := |rows| - 1;
      SameGathered(ends, own, rows[..n], closes, holds, items[..n]);
    }
  }

  lemma ItemsRead<T>(t: Texts, rows: seq<Row>, read: string -> seq<T>, fit: string -> bool)
    requires RowsFit(fit, rows)
    ensures ItemsReasoning(read, ItemsOf(t, rows)) == AllReasoning(read, rows)
    ensures ItemsSince(read, ItemsOf(t, rows)) == SinceReply(read, rows)
    ensures ItemsFit(fit, ItemsOf(t, rows))
  {
    var items := ItemsOf(t, rows);
    forall k | 0 <= k < |rows| ensures StandsFor(items[k], rows[k], read, fit) {
      ItemStands(t, rows[k], read, fit);
    }
    forall k | 0 <= k < |rows|
      ensures IsReply(rows[k]) == IsReplied(items[k]) && OwnBy(read)(rows[k]) == OwnOfBy(read)(items[k])
    {
      assert StandsFor(items[k], rows[k], read, fit);
    }
    SameGathered(IsReply, OwnBy(read), rows, IsReplied, OwnOfBy(read), items);
  }

  lemma {:induction false} ReadAllSnoc<T>(read: string -> seq<T>, texts: seq<string>, last: string)
    ensures ReadAll(read, texts + [last]) == ReadAll(read, texts) + read(last)
  {
    if texts == [] {
      assert texts + [last] == [last];
      assert read(last) + [] == [] + read(last);
    } else {
      assert (texts + [last])[1..] == texts[1..] + [last];
      ReadAllSnoc(read, texts[1..], last);
      Regroup(read(texts[0]), ReadAll(read, texts[1..]), read(last));
    }
  }

  /** One more item: what it shows and what waits after it. */
  lemma RenderSnoc(items: seq<Item>, item: Item)
    ensures Render(items + [item], []) == Render(items, []) + Shown(item, Waiting(items, []))
    ensures Waiting(items + [item], []) == Kept(item, Waiting(items, []))
  {
    RenderConcat(items, [item], []);
    assert [item][1..] == [];
    var waiting := Waiting(items, []);
    assert Render([item], waiting) == Shown(item, waiting) + [];
  }

  lemma KeptReads<T>(item: Item, waiting: seq<string>, read: string -> seq<T>, fit: string -> bool)
    requires read("") == [] && AllFit(fit, waiting) && ItemFits(fit, item)
    ensures AllFit(fit, Kept(item, waiting))
    ensures ReadAll(read, Kept(item, waiting)) == if item.Replied? then [] else ReadAll(read, waiting) + OwnOf(read, item)
  {
    if item.Called? {
      ReadAllSnoc(read, waiting, item.reasoning);
    }
  }

  /** What waits is the reasoning since the last reply. */
  lemma {:induction false} WaitingReads<T(!new)>(items: seq<Item>, read: string -> seq<T>, fit: string -> bool)
    requires read("") == [] && ItemsFit(fit, items)
    ensures ReadAll(read, Waiting(items, [])) == ItemsSince(read, items)
    ensures AllFit(fit, Waiting(items, []))
  {
    if items != [] {
      var n := |items| - 1;
      var earlier, item := items[..n], items[n];
      assert earlier + [item] == items;
      assert forall k :: 0 <= k < n ==> earlier[k] == items[k];
      WaitingReads(earlier, read, fit);
      RenderSnoc(earlier, item);
      KeptReads(item, Waiting(earlier, []), read, fit);
    }
  }

  /** A reply keeps every other field, and its reasoning reads as what waited and then its own. */
  lemma MergedReads<T(!new)>(row: Row, waiting: seq<string>, read: string -> seq<T>, fit: string -> bool)
    requires Readable(read, fit) && AllFit(fit, waiting) && FitsText(fit, row.reasoning)
    ensures ShowsReply(read, Merged(row, waiting), row, ReadAll(read, waiting))
  {
    if waiting != [] {
      assert ReadsJoined(read, waiting, row.reasoning);
    } else {
      assert [] + read(row.reasoning) == read(row.reasoning);
    }
  }

  /** The reply as it is shown: its own fields, and reasoning that reads as `before` and then its own. */
  ghost predicate ShowsReply<T>(read: string -> seq<T>, shown: Row, row: Row, before: seq<T>) {
    shown.(reasoning := row.reasoning) == row && read(shown.reasoning) == before + read(row.reasoning)
  }

  lemma ReplyAmongItems<T(!new)>(before: seq<Item>, reply: Row, after: seq<Item>, read: string -> seq<T>, fit: string -> bool)
    requires Readable(read, fit) && ItemsFit(fit, before) && FitsText(fit, reply.reasoning)
    ensures var n := |Render(before, [])|;
            exists row :: Render((before + [Replied(reply)]) + after, []) == Render(before, []) + [row] + Render(after, [])
                          && ShowsReply(read, row, reply, ItemsSince(read, before))
  {
    var waiting := Waiting(before, []);
    WaitingReads(before, read, fit);
    MergedReads(reply, waiting, read, fit);
    RenderSnoc(before, Replied(reply));
    RenderConcat(before + [Replied(reply)], after, []);
  }

  function Told<T>(read: string -> seq<T>, more: seq<Row>): seq<T> {
    if more != [] && Spoken(more[0]) then read(more[0].reasoning) else []
  }

  lemma {:induction false} ShownReasoningConcat<T>(read: string -> seq<T>, shown: seq<Row>, more: seq<Row>)
    requires |more| <= 1
    ensures ShownReasoning(read, shown + more) == ShownReasoning(read, shown) + Told(read, more)
  {
    if more == [] {
      assert shown + more == shown;
    } else {
      assert (shown + more)[..|shown|] == shown;
    }
  }

  /** What an item's bubble carries, read off it. */
  lemma ShownReads<T(!new)>(item: Item, waiting: seq<string>, read: string -> seq<T>, fit: string -> bool)
    requires Readable(read, fit) && AllFit(fit, waiting) && ItemFits(fit, item)
    ensures |Shown(item, waiting)| <= 1
    ensures Told(read, Shown(item, waiting)) == if item.Replied? then ReadAll(read, waiting) + OwnOf(read, item) else []
  {
    if item.Replied? {
      MergedReads(item.row, waiting, read, fit);
    }
  }

  lemma SinceSnoc<T>(read: string -> seq<T>, items: seq<Item>, item: Item)
    ensures ItemsReasoning(read, items + [item]) == ItemsReasoning(read, items) + OwnOf(read, item)
    ensures ItemsSince(read, items + [item]) == if item.Replied? then [] else ItemsSince(read, items) + OwnOf(read, item)
  {
    assert (items + [item])[..|items|] == items;
  }

  ghost predicate AllAccounted<T>(read: string -> seq<T>, items: seq<Item>) {
    ShownReasoning(read, Render(items, [])) + ItemsSince(read, items) == ItemsReasoning(read, items)
  }

  /** What one more item tells is what waited and its own, or it waits. */
  lemma Accounts<T>(read: string -> seq<T>, shown: seq<Row>, more: seq<Row>, since: seq<T>, own: seq<T>, replied: bool)
    requires |more| <= 1 && Told(read, more) == if replied then since + own else []
    ensures ShownReasoning(read, shown + more) + (if replied then [] else since + own) == (ShownReasoning(read, shown) + since) + own
  {
    ShownReasoningConcat(read, shown, more);
    Regroup(ShownReasoning(read, shown), since, own);
  }

  lemma AccountedSnoc<T(!new)>(items: seq<Item>, item: Item, read: string -> seq<T>, fit: string -> bool)
    requires Readable(read, fit) && ItemsFit(fit, items) && ItemFits(fit, item) && AllAccounted(read, items)
    ensures AllAccounted(read, items + [item])
  {
    WaitingReads(items, read, fit);
    RenderSnoc(items, item);
    ShownReads(item, Waiting(items, []), read, fit);
    SinceSnoc(read, items, item);
    Accounts(read, Render(items, []), Shown(item, Waiting(items, [])), ItemsSince(read, items), OwnOf(read, item), item.Replied?);
  }

  lemma {:induction false} ReasoningAccounted<T(!new)>(items: seq<Item>, read: string -> seq<T>, fit: string -> bool)
    requires Readable(read, fit) && ItemsFit(fit, items)
    ensures AllAccounted(read, items)
  {
    if items != [] {
      var n := |items| - 1;
      assert items[..n] + [items[n]] == items;
      assert forall k :: 0 <= k < n ==> items[..n][k] == items[k];
      ReasoningAccounted(items[..n], read, fit);
      AccountedSnoc(items[..n], items[n], read, fit);
    }
  }

  // Back to raw rows.

  /** A reply among any rows comes after what the rows before it show, and what follows it is shown as
      if it stood alone. */
  lemma ReplyIsShown<T(!new)>(t: Texts, before: seq<Row>, reply: Row, after: seq<Row>, read: string -> seq<T>, fit: string -> bool)
    requires IsReply(reply) && Readable(read, fit) && RowsFit(fit, before) && FitsText(fit, reply.reasoning)
    ensures var shown, n := Project(t, before + [reply] + after), |Project(t, before)|;
            && |shown| > n && shown[..n] == Project(t, before) && shown[n + 1..] == Project(t, after)
            && ShowsReply(read, shown[n], reply, SinceReply(read, before))
  {
    ItemsRead(t, before, read, fit);
    ItemStands(t, reply, read, fit);
    ReplyAmongItems(ItemsOf(t, before), reply, ItemsOf(t, after), read, fit);
    ItemsConcat(t, before, [reply]);
    ItemsConcat(t, before + [reply], after);
    assert ItemsOf(t, [reply]) == [Replied(reply)];
  }

  /** Rows whose reasoning, where they have any, is one piece each. */
  ghost predicate InPieces(rows: seq<Row>) {
    RowsFit(IsPiece, rows)
  }

  lemma AnyFits(rows: seq<Row>)
    ensures RowsFit(AnyText, rows)
  {
  }

  /** Wherever a reply stands, every other field of it is shown as stored, and its reasoning is, letter
      for letter, that of the tool-call rows since the previous reply and then its own; where those
      are single pieces, it is cut by blank lines into exactly those pieces. */
  lemma ReasoningReachesNextReply(t: Texts, before: seq<Row>, reply: Row, after: seq<Row>)
    requires IsReply(reply)
    ensures var shown, n := Project(t, before + [reply] + after), |Project(t, before)|;
            && |shown| > n && shown[..n] == Project(t, before) && shown[n + 1..] == Project(t, after)
            && shown[n].(reasoning := reply.reasoning) == reply
            && Letters(shown[n].reasoning) == SinceReply(Letters, before) + Letters(reply.reasoning)
            && (InPieces(before) && (reply.reasoning == "" || IsPiece(reply.reasoning)) ==>
                  Pieces(shown[n].reasoning) == SinceReply(Pieces, before) + Pieces(reply.reasoning))
  {
    LettersReadable();
    AnyFits(before);
    ReplyIsShown(t, before, reply, after, Letters, AnyText);
    if InPieces(before) && (reply.reasoning == "" || IsPiece(reply.reasoning)) {
      PiecesReadable();
      ReplyIsShown(t, before, reply, after, Pieces, IsPiece);
    }
  }

  /** No reasoning is lost, doubled or reordered: what the shown replies carry, and then what the rows
      since the last reply hold, is that of all the rows; letter for letter, and piece by piece. */
  lemma ReasoningConserved(t: Texts, rows: seq<Row>)
    ensures ShownReasoning(Letters, Project(t, rows)) + SinceReply(Letters, rows) == AllReasoning(Letters, rows)
    ensures InPieces(rows) ==> ShownReasoning(Pieces, Project(t, rows)) + SinceReply(Pieces, rows) == AllReasoning(Pieces, rows)
  {
    LettersReadable();
    AnyFits(rows);
    ItemsRead(t, rows, Letters, AnyText);
    ReasoningAccounted(ItemsOf(t, rows), Letters, AnyText);
    if InPieces(rows) {
      PiecesReadable();
      ItemsRead(t, rows, Pieces, IsPiece);
      ReasoningAccounted(ItemsOf(t, rows), Pieces, IsPiece);
    }
  }

  // Page boundaries.

  /** A tool-call row with reasoning. */
  predicate LeavesReasoning(row: Row) {
    IsCall(row) && row.reasoning != ""
  }

  /** Nothing since the last row that ends the wait starts one. */
  predicate Quiet<T>(ends: T -> bool, starts: T -> bool, rows: seq<T>) {
    rows == [] || ends(rows[|rows| - 1]) || (!starts(rows[|rows| - 1]) && Quiet(ends, starts, rows[..|rows| - 1]))
  }

  /** No row since the last reply leaves reasoning. */
  predicate NothingWaits(rows: seq<Row>) {
    Quiet(IsReply, LeavesReasoning, rows)
  }

  ghost predicate KeepsLike<T>(ends: T -> bool, starts: T -> bool, item: Item, row: T) {
    forall waiting :: Kept(item, waiting) == [] <==> ends(row) || (!starts(row) && waiting == [])
  }

  lemma ItemKeepsLike(t: Texts, row: Row)
    ensures KeepsLike(IsReply, LeavesReasoning, ItemOf(t, row), row)
  {
  }

  lemma {:induction false} QuietIff<T>(ends: T -> bool, starts: T -> bool, rows: seq<T>, items: seq<Item>)
    requires |items| == |rows| && forall k :: 0 <= k < |rows| ==> KeepsLike(ends, starts, items[k], rows[k])
    ensures Quiet(ends, starts, rows) <==> Waiting(items, []) == []
  {
    if rows != [] {
      var n := |rows| - 1;
      QuietIff(ends, starts, rows[..n], items[..n]);
      assert items[..n] + [items[n]] == items;
      RenderSnoc(items[..n], items[n]);
      assert KeepsLike(ends, starts, items[n], rows[n]);
    }
  }

  /** A page boundary with nothing waiting is invisible, reasoning and all. */
  lemma CleanBoundary(t: Texts, a: seq<Row>, b: seq<Row>)
    requires NothingWaits(a)
    ensures Project(t, a + b) == Project(t, a) + Project(t, b)
  {
    forall k | 0 <= k < |a| ensures KeepsLike(IsReply, LeavesReasoning, ItemsOf(t, a)[k], a[k]) {
      ItemKeepsLike(t, a[k]);
    }
    QuietIff(IsReply, LeavesReasoning, a, ItemsOf(t, a));
    ItemsConcat(t, a, b);
    RenderConcat(ItemsOf(t, a), ItemsOf(t, b), []);
  }

  ghost predicate NoReply(rows: seq<Row>) {
    forall k :: 0 <= k < |rows| ==> !IsReply(rows[k])
  }

  lemma {:induction false} NoReplyShowsSame(items: seq<Item>, waiting: seq<string>, other: seq<string>)
    requires forall k :: 0 <= k < |items| ==> !items[k].Replied?
    ensures Render(items, waiting) == Render(items, other)
    decreases |items|
  {
    if items != [] {
      assert !items[0].Replied?;
      NoReplyShowsSame(items[1..], Kept(items[0], waiting), Kept(items[0], other));
    }
  }

  lemma NoReplySplits(t: Texts, a: seq<Row>, calls: seq<Row>)
    requires NoReply(calls)
    ensures Project(t, a + calls) == Project(t, a) + Project(t, calls)
  {
    var items := ItemsOf(t, calls);
    forall k | 0 <= k < |items| ensures !items[k].Replied? {
      ItemStands(t, calls[k], Letters, AnyText);
    }
    ItemsConcat(t, a, calls);
    RenderConcat(ItemsOf(t, a), items, []);
    NoReplyShowsSame(items, Waiting(ItemsOf(t, a), []), []);
  }

  lemma {:induction false} SinceConcat<R, T>(ends: R -> bool, own: R -> seq<T>, a: seq<R>, b: seq<R>)
    requires forall k :: 0 <= k < |b| ==> !ends(b[k])
    ensures GatheredSince(ends, own, a + b) == GatheredSince(ends, own, a) + GatheredSince(ends, own, b)
  {
    if b == [] {
      assert a + b == a;
    } else {
      var n := |b| - 1;
      assert (a + b)[..|a + b| - 1] == a + b[..n];
      SinceConcat(ends, own, a, b[..n]);
      Regroup(GatheredSince(ends, own, a), GatheredSince(ends, own, b[..n]), own(b[n]));
    }
  }

  /** Any other boundary changes one field of one bubble: the first reply behind it lacks, on the page
      that starts there, what the page before left waiting. */
  lemma BoundaryCostsOneReply(t: Texts, a: seq<Row>, calls: seq<Row>, reply: Row, after: seq<Row>)
    requires NoReply(calls) && IsReply(reply)
    ensures var whole, parts := Project(t, (a + calls) + [reply] + after), Project(t, a) + Project(t, calls + [reply] + after);
            var n := |Project(t, a + calls)|;
            && n < |whole| == |parts|
            && (forall k :: 0 <= k < |whole| && k != n ==> whole[k] == parts[k])
            && parts[n].(reasoning := whole[n].reasoning) == whole[n]
            && Letters(whole[n].reasoning) == SinceReply(Letters, a) + Letters(parts[n].reasoning)
  {
    ReasoningReachesNextReply(t, a + calls, reply, after);
    ReasoningReachesNextReply(t, calls, reply, after);
    NoReplySplits(t, a, calls);
    SinceConcat(IsReply, OwnBy(Letters), a, calls);
    Regroup(SinceReply(Letters, a), SinceReply(Letters, calls), Letters(reply.reasoning));
    OneDiffers(Project(t, a), Project(t, calls), Project(t, after),
               Project(t, (a + calls) + [reply] + after), Project(t, calls + [reply] + after));
  }

  lemma OneDiffers<T>(here: seq<T>, front: seq<T>, back: seq<T>, whole: seq<T>, page: seq<T>)
    requires |whole| > |here + front| && whole[..|here + front|] == here + front && whole[|here + front| + 1..] == back
    requires |page| > |front| && page[..|front|] == front && page[|front| + 1..] == back
    ensures |whole| == |here + page| && (here + page)[|here + front|] == page[|front|]
    ensures forall k :: 0 <= k < |whole| && k != |here + front| ==> whole[k] == (here + page)[k]
  {
    var n := |here + front|;
    assert |whole| == n + 1 + |back| && |page| == |front| + 1 + |back|;
    forall k | 0 <= k < |whole| && k != n ensures whole[k] == (here + page)[k] {
      if k < n {
        assert whole[k] == (here + front)[k];
        assert k >= |here| ==> page[k - |here|] == page[..|front|][k - |here|];
      } else {
        assert whole[k] == back[k - n - 1] && page[k - |here|] == back[k - n - 1];
      }
    }
  }

  lemma Regroup<T>(a: seq<T>, b: seq<T>, c: seq<T>)
    ensures a + (b + c) == (a + b) + c
  {
  }
}
