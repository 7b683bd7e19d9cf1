/** `@handle` mentions in room messages (bot_rooms.py): the scanner and the printer.
    Python's `casefold` is the parameter `fold`: nothing is assumed of it. */
module Mentions {
  import opened PyText

  /** ASCII alphanumerics, and the four letters a case-insensitive `[A-Za-z]` also matches. */
  predicate IsStart(c: char) {
    || '0' <= c <= '9' || 'A' <= c <= 'Z' || 'a' <= c <= 'z'
    || c == '\U{0130}' || c == '\U{0131}' || c == '\U{017F}' || c == '\U{212A}'
  }

  predicate IsBody(c: char) {
    IsStart(c) || c == '.' || c == '_' || c == ':' || c == '-'
  }

  /** A name the scanner reads back whole. */
  predicate HandleShaped(h: string) {
    h != "" && IsStart(h[0]) && forall i :: 0 <= i < |h| ==> IsBody(h[i])
  }

  // ----------------------------------------------------------------- scanning

  function BodyLength(s: string): (n: nat)
    ensures n <= |s| && forall i :: 0 <= i < n ==> IsBody(s[i])
    ensures n < |s| ==> !IsBody(s[n])
  {
    if s != "" && IsBody(s[0]) then 1 + BodyLength(s[1..]) else 0
  }

  /** Every match of `@` followed by a handle, left to right. */
  function Matches(s: string): seq<string>
    decreases |s|
  {
    if s == "" then []
    else if s[0] == '@' && |s| > 1 && IsStart(s[1]) then
      var n := BodyLength(s[1..]);
      [s[1..1 + n]] + Matches(s[1 + n..])
    else Matches(s[1..])
  }

  /** The first handle of each folded spelling not yet in `seen`. */
  function Distinct(fold: string -> string, handles: seq<string>, seen: set<string>): seq<string> {
    if handles == [] then []
    else if fold(handles[0]) in seen then Distinct(fold, handles[1..], seen)
    else [handles[0]] + Distinct(fold, handles[1..], seen + {fold(handles[0])})
  }

  function Folds(fold: string -> string, handles: seq<string>): set<string> {
    if handles == [] then {} else {fold(handles[0])} + Folds(fold, handles[1..])
  }

  function Scan(fold: string -> string, text: string): seq<string> {
    Distinct(fold, Matches(text), {})
  }

  method MentionHandlesInText(fold: string -> string, text: string) returns (found: seq<string>)
    ensures found == Scan(fold, text)
  {
    found := [];
    var seen: set<string> := {};
    var rest := text;
    while rest != ""
      invariant found + Distinct(fold, Matches(rest), seen) == Scan(fold, text)
      decreases |rest|
    {
      if rest[0] == '@' && |rest| > 1 && IsStart(rest[1]) {
        var n := BodyLength(rest[1..]);
        var handle := rest[1..1 + n];
        MatchesAtMention(rest);
        rest := rest[1 + n..];
        if fold(handle) in seen {
          continue;
        }
        found := found + [handle];
        seen := seen + {fold(handle)};
      } else {
        rest := rest[1..];
      }
    }
  }

  lemma MatchesAtMention(s: string)
    requires |s| > 1 && s[0] == '@' && IsStart(s[1])
    ensures var n := BodyLength(s[1..]);
            n > 0 && Matches(s) == [s[1..1 + n]] + Matches(s[1 + n..]) && Matches(s)[1..] == Matches(s[1 + n..])
  {
  }

  // ------------------------------------------------------- what a scan finds

  /** A mention starts at a position. */
  predicate StartsAt(s: string, i: nat) {
    i + 1 < |s| && s[i] == '@' && IsStart(s[i + 1])
  }

  /** The handle behind a position: as long as it can be. */
  predicate LongestAt(s: string, i: nat, h: string) {
    && h != "" && i + 1 + |h| <= |s| && s[i + 1..i + 1 + |h|] == h
    && (forall k :: 0 <= k < |h| ==> IsBody(h[k]))
    && (i + 1 + |h| < |s| ==> !IsBody(s[i + 1 + |h|]))
  }

  ghost predicate Increasing(at: seq<nat>) {
    forall a, b :: 0 <= a < b < |at| ==> at[a] < at[b]
  }

  function Shifted(at: seq<nat>, d: nat): seq<nat> {
    seq(|at|, k requires 0 <= k < |at| => at[k] + d)
  }

  /** The matches are those of a text, at these positions: every start is one. */
  ghost predicate FoundAt(s: string, at: seq<nat>, handles: seq<string>) {
    && Increasing(at) && |at| == |handles|
    && (forall i: nat :: i in at <==> StartsAt(s, i))
    && forall k :: 0 <= k < |at| ==> LongestAt(s, at[k], handles[k])
  }

  /** The scanner finds a mention at every `@` before a start character, and the longest handle there;
      nothing else is one. No handle holds an `@`, so no match hides another. */
  lemma {:induction false} MatchesAreExact(s: string) returns (at: seq<nat>)
    ensures FoundAt(s, at, Matches(s))
    decreases |s|
  {
    if s == "" {
      at := [];
    } else if StartsAt(s, 0) {
      var n := BodyLength(s[1..]);
      MatchesAtMention(s);
      var rest := MatchesAreExact(s[1 + n..]);
      at := FoundFirst(s, n, rest, Matches(s[1 + n..]));
    } else {
      var rest := MatchesAreExact(s[1..]);
      at := FoundLater(s, rest, Matches(s[1..]));
    }
  }

  lemma ShiftedIn(at: seq<nat>, d: nat, i: nat)
    ensures i in Shifted(at, d) <==> i >= d && i - d in at
  {
    if i >= d && i - d in at {
      var k :| 0 <= k < |at| && at[k] == i - d;
      assert Shifted(at, d)[k] == i;
    }
  }

  lemma StartsShift(s: string, d: nat, i: nat)
    requires d <= |s|
    ensures StartsAt(s, d + i) <==> StartsAt(s[d..], i)
  {
  }

  lemma LongestShift(s: string, d: nat, i: nat, h: string)
    requires d <= |s| && LongestAt(s[d..], i, h)
    ensures LongestAt(s, d + i, h)
  {
    assert s[d..][i + 1..i + 1 + |h|] == s[d + i + 1..d + i + 1 + |h|];
  }

  /** What is found from `d` on is found there in the whole text. */
  lemma FoundBehind(s: string, d: nat, rest: seq<nat>, handles: seq<string>) returns (at: seq<nat>)
    requires d <= |s| && FoundAt(s[d..], rest, handles)
    ensures Increasing(at) && |at| == |handles|
    ensures forall i: nat :: i in at <==> i >= d && StartsAt(s, i)
    ensures forall k :: 0 <= k < |at| ==> LongestAt(s, at[k], handles[k])
  {
    at := Shifted(rest, d);
    forall i: nat ensures i in at <==> i >= d && StartsAt(s, i) {
      ShiftedIn(rest, d, i);
      if i >= d {
        StartsShift(s, d, i - d);
      }
    }
    forall k | 0 <= k < |at| ensures LongestAt(s, at[k], handles[k]) {
      LongestShift(s, d, rest[k], handles[k]);
    }
  }

  lemma LongestFirst(s: string)
    requires StartsAt(s, 0)
    ensures var n := BodyLength(s[1..]); n > 0 && LongestAt(s, 0, s[1..1 + n]) && forall i :: 0 < i <= n ==> !StartsAt(s, i)
  {
    var n := BodyLength(s[1..]);
    forall i | 0 < i <= n ensures !StartsAt(s, i) && IsBody(s[i]) {
      assert s[i] == s[1..][i - 1];
    }
  }

  lemma FoundFirst(s: string, n: nat, rest: seq<nat>, handles: seq<string>) returns (at: seq<nat>)
    requires StartsAt(s, 0) && n == BodyLength(s[1..]) && FoundAt(s[1 + n..], rest, handles)
    ensures FoundAt(s, at, [s[1..1 + n]] + handles)
  {
    LongestFirst(s);
    var later := FoundBehind(s, 1 + n, rest, handles);
    FoundAhead(s, s[1..1 + n], 1 + n, later, handles);
    at := [0] + later;
  }

  lemma FoundAhead(s: string, h: string, d: nat, later: seq<nat>, handles: seq<string>)
    requires StartsAt(s, 0) && LongestAt(s, 0, h) && d > 0 && forall i :: 0 < i < d ==> !StartsAt(s, i)
    requires Increasing(later) && |later| == |handles| && forall i: nat :: i in later <==> i >= d && StartsAt(s, i)
    requires forall k :: 0 <= k < |later| ==> LongestAt(s, later[k], handles[k])
    ensures FoundAt(s, [0] + later, [h] + handles)
  {
    var at := [0] + later;
    forall i: nat ensures i in at <==> StartsAt(s, i) {
      assert i in at <==> i == 0 || i in later;
    }
    forall a, b | 0 <= a < b < |at| ensures at[a] < at[b] {
      assert at[b] == later[b - 1] && later[b - 1] in later;
      assert a > 0 ==> at[a] == later[a - 1];
    }
    forall k | 0 <= k < |at| ensures LongestAt(s, at[k], ([h] + handles)[k]) {
      assert k > 0 ==> at[k] == later[k - 1] && ([h] + handles)[k] == handles[k - 1];
    }
  }

  lemma FoundLater(s: string, rest: seq<nat>, handles: seq<string>) returns (at: seq<nat>)
    requires s != "" && !StartsAt(s, 0) && FoundAt(s[1..], rest, handles)
    ensures FoundAt(s, at, handles)
  {
    at := FoundBehind(s, 1, rest, handles);
  }

  /** A handle whose spelling is new. */
  ghost predicate IsNew(fold: string -> string, handles: seq<string>, seen: set<string>, i: nat) {
    && i < |handles| && fold(handles[i]) !in seen
    && forall j :: 0 <= j < i ==> fold(handles[j]) != fold(handles[i])
  }

  /** Deduplication keeps, in order, exactly the handles whose spelling is new. */
  lemma {:induction false} DistinctIsExact(fold: string -> string, handles: seq<string>, seen: set<string>) returns (at: seq<nat>)
    ensures Increasing(at) && |at| == |Distinct(fold, handles, seen)|
    ensures forall k :: 0 <= k < |at| ==> at[k] < |handles| && Distinct(fold, handles, seen)[k] == handles[at[k]]
    ensures forall i: nat :: i in at <==> IsNew(fold, handles, seen, i)
    decreases |handles|
  {
    at := [];
    if handles != [] {
      var tail := handles[1..];
      var isNew := fold(handles[0]) !in seen;
      var rest := DistinctIsExact(fold, tail, if isNew then seen + {fold(handles[0])} else seen);
      at := (if isNew then [0] else []) + Shifted(rest, 1);
      forall i: nat ensures i in at <==> IsNew(fold, handles, seen, i) {
        ShiftedIn(rest, 1, i);
        if i > 0 {
          NewInTail(fold, handles, seen, i);
        }
      }
    }
  }

  lemma NewInTail(fold: string -> string, handles: seq<string>, seen: set<string>, i: nat)
    requires 0 < i && handles != []
    ensures IsNew(fold, handles, seen, i)
       <==> IsNew(fold, handles[1..], if fold(handles[0]) !in seen then seen + {fold(handles[0])} else seen, i - 1)
  {
    if i < |handles| {
      assert forall j :: 0 <= j < i - 1 ==> handles[1..][j] == handles[j + 1];
      assert handles[1..][i - 1] == handles[i];
      if forall j :: 0 <= j < i - 1 ==> fold(handles[1..][j]) != fold(handles[i]) {
        assert forall j :: 0 < j < i ==> fold(handles[j]) == fold(handles[1..][j - 1]);
      }
    }
  }

  // ----------------------------------------------------------------- printing

  function Missing(fold: string -> string, handles: seq<string>, existing: set<string>): seq<string> {
    if handles == [] then []
    else (if fold(handles[0]) in existing then [] else [handles[0]]) + Missing(fold, handles[1..], existing)
  }

  /** `" ".join(f"@{h}" ...)`. */
  function Printed(handles: seq<string>): string {
    if handles == [] then ""
    else if |handles| == 1 then "@" + handles[0]
    else "@" + handles[0] + " " + Printed(handles[1..])
  }

  function EnsureMentionText(fold: string -> string, text: string, handles: seq<string>): string {
    var missing := Missing(fold, handles, Folds(fold, Scan(fold, text)));
    if missing == [] then text
    else
      var body := Strip(text);
      if body != "" then Strip(Printed(missing) + " " + body) else Printed(missing)
  }

  // ------------------------------------------------- scanning what was printed

  lemma BodyLengthOf(h: string, rest: string)
    requires forall i :: 0 <= i < |h| ==> IsBody(h[i])
    requires rest != "" ==> !IsBody(rest[0])
    ensures BodyLength(h + rest) == |h|
  {
    var s := h + rest;
    assert forall i :: 0 <= i < |h| ==> s[i] == h[i];
    assert rest != "" ==> s[|h|] == rest[0];
  }

  /** A printed handle is read back whole. */
  lemma MatchesOne(h: string, rest: string)
    requires HandleShaped(h) && (rest != "" ==> !IsBody(rest[0]))
    ensures Matches("@" + h + rest) == [h] + Matches(rest)
  {
    var s := "@" + h + rest;
    assert s[1..] == h + rest;
    BodyLengthOf(h, rest);
    assert s[1..1 + |h|] == h && s[1 + |h|..] == rest;
    MatchesAtMention(s);
  }

  /** `read` yields the handle at the front of a text, then what it yields for the rest. */
  ghost predicate ReadsFirst(read: string -> seq<string>, h: string, rest: string) {
    && read("@" + h + (" " + rest)) == [h] + read(rest)
    && (rest == "" || rest[0] == ' ' ==> read("@" + h + rest) == [h] + read(rest))
  }

  lemma {:induction false} ReadsPrinted(read: string -> seq<string>, handles: seq<string>, tail: string)
    requires handles != [] && (tail == "" || tail[0] == ' ')
    requires forall h, rest | h in handles :: ReadsFirst(read, h, rest)
    ensures read(Printed(handles) + tail) == handles + read(tail)
  {
    PrintedCons(handles, tail);
    if |handles| == 1 {
      assert ReadsFirst(read, handles[0], tail);
      assert handles == [handles[0]];
    } else {
      ReadsPrinted(read, handles[1..], tail);
      assert ReadsFirst(read, handles[0], Printed(handles[1..]) + tail);
      assert [handles[0]] + (handles[1..] + read(tail)) == handles + read(tail);
    }
  }

  lemma MatchesPrinted(handles: seq<string>, tail: string)
    requires handles != [] && forall h :: h in handles ==> HandleShaped(h)
    requires tail == "" || tail[0] == ' '
    ensures Matches(Printed(handles) + tail) == handles + Matches(tail)
  {
    forall h, rest | h in handles
      ensures ReadsFirst(Matches, h, rest)
    {
      MatchesFirst(h, rest);
      if rest == "" || rest[0] == ' ' {
        MatchesOne(h, rest);
      }
    }
    ReadsPrinted(Matches, handles, tail);
  }

  lemma MatchesFirst(h: string, rest: string)
    requires HandleShaped(h)
    ensures Matches("@" + h + (" " + rest)) == [h] + Matches(rest)
  {
    MatchesOne(h, " " + rest);
    MatchesAfterSpace(rest);
  }

  lemma PrintedCons(handles: seq<string>, tail: string)
    requires handles != []
    ensures Printed(handles) + tail
         == "@" + handles[0] + (if |handles| == 1 then tail else " " + (Printed(handles[1..]) + tail))
  {
  }

  lemma MatchesAfterSpace(s: string)
    ensures Matches(" " + s) == Matches(s)
  {
    assert (" " + s)[1..] == s;
  }

  predicate IsSeparator(c: char) { !IsBody(c) && c != '@' }

  /** A text that starts with a mention, taken apart. */
  lemma MentionAhead(s: string) returns (h: string, rest: string)
    requires StartsAt(s, 0)
    ensures s == "@" + h + rest && HandleShaped(h) && (rest != "" ==> !IsBody(rest[0])) && |rest| < |s|
  {
    var n := BodyLength(s[1..]);
    h, rest := s[1..1 + n], s[1 + n..];
    assert IsBody(s[1..][0]);
    assert forall i :: 0 <= i < |h| ==> h[i] == s[1..][i];
    assert rest != "" ==> rest[0] == s[1..][n];
  }

  lemma OtherSnoc(s: string, c: char)
    requires IsSeparator(c) && s != "" && !StartsAt(s, 0)
    ensures Matches(s) == Matches(s[1..]) && Matches(s + [c]) == Matches(s[1..] + [c])
  {
    assert (s + [c])[1..] == s[1..] + [c];
    assert !StartsAt(s + [c], 0);
  }

  lemma {:induction false} MatchesSnoc(s: string, c: char)
    requires IsSeparator(c)
    ensures Matches(s + [c]) == Matches(s)
    decreases |s|
  {
    if s == "" {
      assert [c][1..] == "" && s + [c] == [c];
    } else if StartsAt(s, 0) {
      var h, rest := MentionAhead(s);
      MatchesOne(h, rest);
      MatchesOne(h, rest + [c]);
      assert s + [c] == "@" + h + (rest + [c]);
      MatchesSnoc(rest, c);
    } else {
      OtherSnoc(s, c);
      MatchesSnoc(s[1..], c);
    }
  }

  /** A space at either end adds nothing to what `read` yields. */
  ghost predicate IgnoresSpace(read: string -> seq<string>, s: string, c: char) {
    IsSpace(c) ==> read(s + [c]) == read(s) && read([c] + s) == read(s)
  }

  lemma {:induction false} ReadsRStrip(read: string -> seq<string>, s: string)
    requires forall init, c :: IgnoresSpace(read, init, c)
    ensures read(RStrip(s)) == read(s)
  {
    if s != "" && IsSpace(s[|s| - 1]) {
      var init := s[..|s| - 1];
      ReadsRStrip(read, init);
      assert IgnoresSpace(read, init, s[|s| - 1]) && init + [s[|s| - 1]] == s;
    }
  }

  lemma {:induction false} ReadsLStrip(read: string -> seq<string>, s: string)
    requires forall rest, c :: IgnoresSpace(read, rest, c)
    ensures read(LStrip(s)) == read(s)
  {
    if s != "" && IsSpace(s[0]) {
      ReadsLStrip(read, s[1..]);
      assert IgnoresSpace(read, s[1..], s[0]) && [s[0]] + s[1..] == s;
    }
  }

  lemma MatchesIgnoresSpace(s: string, c: char)
    ensures IgnoresSpace(Matches, s, c)
  {
    if IsSpace(c) {
      MatchesSnoc(s, c);
      assert ([c] + s)[1..] == s;
    }
  }

  /** Stripping white space off the ends neither adds nor loses a mention. */
  lemma MatchesStrip(s: string)
    ensures Matches(Strip(s)) == Matches(s)
  {
    forall part, c ensures IgnoresSpace(Matches, part, c) {
      MatchesIgnoresSpace(part, c);
    }
    ReadsLStrip(Matches, s);
    ReadsRStrip(Matches, LStrip(s));
  }

  /** What goes out is the draft as it was, or the missing handles and then the stripped draft. */
  ghost predicate PrintedOnto(text: string, sent: string, names: seq<string>) {
    if names == [] then sent == text
    else if Strip(text) == "" then sent == Printed(names)
    else sent == Printed(names) + " " + Strip(text)
  }

  /** Printing keeps the draft: ahead of it come just the handles it does not mention yet. */
  lemma DraftIsKept(fold: string -> string, text: string, handles: seq<string>) returns (names: seq<string>)
    ensures PrintedOnto(text, EnsureMentionText(fold, text, handles), names)
    ensures forall h :: h in names <==> h in handles && fold(h) !in Folds(fold, Scan(fold, text))
  {
    names := Missing(fold, handles, Folds(fold, Scan(fold, text)));
    MissingFrom(fold, handles, Folds(fold, Scan(fold, text)));
    if names != [] && Strip(text) != "" {
      PrintedStartsVisibly(names);
      StripFixed(Printed(names) + " " + Strip(text));
    }
  }

  lemma PrintedStartsVisibly(names: seq<string>)
    requires names != []
    ensures Printed(names) != "" && Printed(names)[0] == '@'
  {
  }

  lemma PrintedEnds(handles: seq<string>)
    requires handles != [] && forall h :: h in handles ==> HandleShaped(h)
    ensures Printed(handles) != "" && Printed(handles)[0] == '@'
  {
  }

  /** The printer's own outer strip removes nothing. */
  lemma MatchesEnsured(fold: string -> string, text: string, handles: seq<string>)
    requires forall h :: h in handles ==> HandleShaped(h)
    ensures Matches(EnsureMentionText(fold, text, handles))
         == Missing(fold, handles, Folds(fold, Scan(fold, text))) + Matches(text)
  {
    var missing := Missing(fold, handles, Folds(fold, Scan(fold, text)));
    MissingFrom(fold, handles, Folds(fold, Scan(fold, text)));
    if missing != [] {
      var body := Strip(text);
      MatchesStrip(text);
      PrintedEnds(missing);
      if body != "" {
        assert Printed(missing) + " " + body == Printed(missing) + (" " + body);
        MatchesPrinted(missing, " " + body);
        MatchesAfterSpace(body);
        StripFixed(Printed(missing) + " " + body);
      } else {
        MatchesPrinted(missing, "");
        assert Printed(missing) + "" == Printed(missing);
      }
    }
  }

  lemma MissingFrom(fold: string -> string, handles: seq<string>, existing: set<string>)
    ensures forall h :: h in Missing(fold, handles, existing) <==> h in handles && fold(h) !in existing
  {
  }

  // ------------------------------------------------------------- deduplication

  lemma {:induction false} DistinctConcat(fold: string -> string, a: seq<string>, b: seq<string>, seen: set<string>)
    ensures Distinct(fold, a + b, seen) == Distinct(fold, a, seen) + Distinct(fold, b, seen + Folds(fold, a))
  {
    if a == [] {
      assert a + b == b && seen + Folds(fold, a) == seen;
    } else {
      assert (a + b)[1..] == a[1..] + b;
      if fold(a[0]) in seen {
        DistinctConcat(fold, a[1..], b, seen);
        assert seen + Folds(fold, a[1..]) == seen + Folds(fold, a);
      } else {
        DistinctConcat(fold, a[1..], b, seen + {fold(a[0])});
        assert seen + {fold(a[0])} + Folds(fold, a[1..]) == seen + Folds(fold, a);
      }
    }
  }

  lemma FoldsCons(fold: string -> string, h: string, rest: seq<string>)
    ensures Folds(fold, [h] + rest) == {fold(h)} + Folds(fold, rest)
  {
    assert ([h] + rest)[1..] == rest;
  }

  lemma InFolds(fold: string -> string, handles: seq<string>, h: string)
    requires h in handles
    ensures fold(h) in Folds(fold, handles)
  {
    if handles[0] != h {
      InFolds(fold, handles[1..], h);
    }
  }

  lemma FoldsSource(fold: string -> string, handles: seq<string>, f: string)
    requires f in Folds(fold, handles)
    ensures exists h :: h in handles && fold(h) == f
  {
    if fold(handles[0]) == f {
      assert handles[0] in handles;
    } else {
      FoldsSource(fold, handles[1..], f);
      var h :| h in handles[1..] && fold(h) == f;
      assert h in handles;
    }
  }

  /** Deduplication loses no spelling and repeats none. */
  lemma {:induction false} DistinctFolds(fold: string -> string, a: seq<string>, seen: set<string>)
    ensures Folds(fold, Distinct(fold, a, seen)) == Folds(fold, a) - seen
    ensures forall i, j :: 0 <= i < j < |Distinct(fold, a, seen)| ==> fold(Distinct(fold, a, seen)[i]) != fold(Distinct(fold, a, seen)[j])
  {
    if a != [] {
      if fold(a[0]) in seen {
        DistinctFolds(fold, a[1..], seen);
      } else {
        var rest := Distinct(fold, a[1..], seen + {fold(a[0])});
        DistinctFolds(fold, a[1..], seen + {fold(a[0])});
        FoldsCons(fold, a[0], rest);
        forall j | 0 <= j < |rest|
          ensures fold(rest[j]) in Folds(fold, rest)
        {
          InFolds(fold, rest, rest[j]);
        }
      }
    }
  }

  /** Spellings that do not occur make no difference to deduplication. */
  lemma {:induction false} DistinctUnaffected(fold: string -> string, a: seq<string>, seen: set<string>, extra: set<string>)
    requires Folds(fold, a) !! extra
    ensures Distinct(fold, a, seen + extra) == Distinct(fold, a, seen)
  {
    if a != [] {
      if fold(a[0]) in seen {
        DistinctUnaffected(fold, a[1..], seen, extra);
      } else {
        assert seen + extra + {fold(a[0])} == seen + {fold(a[0])} + extra;
        DistinctUnaffected(fold, a[1..], seen + {fold(a[0])}, extra);
      }
    }
  }

  /** Scanning the printed text yields the missing handles, then the text's own
      mentions, each spelling once. */
  lemma ScanOfPrinted(fold: string -> string, text: string, handles: seq<string>)
    requires forall h :: h in handles ==> HandleShaped(h)
    ensures var missing := Missing(fold, handles, Folds(fold, Scan(fold, text)));
            Scan(fold, EnsureMentionText(fold, text, handles)) == Distinct(fold, missing, {}) + Scan(fold, text)
  {
    var missing := Missing(fold, handles, Folds(fold, Scan(fold, text)));
    MatchesEnsured(fold, text, handles);
    DistinctConcat(fold, missing, Matches(text), {});
    MissingFolds(fold, handles, Folds(fold, Scan(fold, text)));
    DistinctFolds(fold, Matches(text), {});
    DistinctUnaffected(fold, Matches(text), {}, Folds(fold, missing));
  }

  /** The printed text mentions what the text did and every handle asked for. */
  lemma PrintedMentionsAll(fold: string -> string, text: string, handles: seq<string>)
    requires forall h :: h in handles ==> HandleShaped(h)
    ensures Folds(fold, Scan(fold, EnsureMentionText(fold, text, handles))) == Folds(fold, Scan(fold, text)) + Folds(fold, handles)
  {
    ScanOfPrinted(fold, text, handles);
    FoldsOfUnion(fold, Scan(fold, text), handles);
  }

  lemma FoldsOfUnion(fold: string -> string, scan: seq<string>, handles: seq<string>)
    ensures var missing := Missing(fold, handles, Folds(fold, scan));
            Folds(fold, Distinct(fold, missing, {}) + scan) == Folds(fold, scan) + Folds(fold, handles)
  {
    var missing := Missing(fold, handles, Folds(fold, scan));
    MissingFolds(fold, handles, Folds(fold, scan));
    DistinctFolds(fold, missing, {});
    FoldsConcat(fold, Distinct(fold, missing, {}), scan);
  }

  lemma {:induction false} MissingFolds(fold: string -> string, handles: seq<string>, existing: set<string>)
    ensures Folds(fold, Missing(fold, handles, existing)) == Folds(fold, handles) - existing
  {
    if handles != [] {
      var rest := Missing(fold, handles[1..], existing);
      MissingFolds(fold, handles[1..], existing);
      if fold(handles[0]) !in existing {
        FoldsCons(fold, handles[0], rest);
      } else {
        assert Missing(fold, handles, existing) == rest;
      }
    }
  }

  /** Printing again changes nothing. */
  lemma PrintingIsIdempotent(fold: string -> string, text: string, handles: seq<string>)
    requires forall h :: h in handles ==> HandleShaped(h)
    ensures EnsureMentionText(fold, EnsureMentionText(fold, text, handles), handles) == EnsureMentionText(fold, text, handles)
  {
    var printed := EnsureMentionText(fold, text, handles);
    PrintedMentionsAll(fold, text, handles);
    NoneMissing(fold, handles, Folds(fold, Scan(fold, printed)));
  }

  lemma NoneMissing(fold: string -> string, handles: seq<string>, existing: set<string>)
    requires Folds(fold, handles) <= existing
    ensures Missing(fold, handles, existing) == []
  {
    if handles != [] {
      NoneMissing(fold, handles[1..], existing);
    }
  }

  lemma {:induction false} FoldsConcat(fold: string -> string, a: seq<string>, b: seq<string>)
    ensures Folds(fold, a + b) == Folds(fold, a) + Folds(fold, b)
  {
    if a == [] {
      assert a + b == b;
    } else {
      assert (a + b)[1..] == a[1..] + b;
      FoldsConcat(fold, a[1..], b);
    }
  }
}
