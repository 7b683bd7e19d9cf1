/** The memory files (adapter.py): entries separated by a line holding only a section sign,
    re-read from the file on every call, deleted by rewriting what is left. */
module MemoryFiles {
  import opened Wrappers
  import opened PyText

  const SIGN: char := '\U{A7}'
  const SEPARATOR: string := ['\n', SIGN, '\n']

  predicate SeparatorAt(s: string, k: nat) {
    k + 3 <= |s| && s[k] == '\n' && s[k + 1] == SIGN && s[k + 2] == '\n'
  }

  /** Where the separator first occurs; the length when it does not. */
  function Find(s: string): (r: nat)
    ensures r <= |s|
    ensures r < |s| ==> SeparatorAt(s, r)
    ensures forall k :: 0 <= k < r ==> !SeparatorAt(s, k)
  {
    if s == "" || SeparatorAt(s, 0) then 0
    else
      var r := Find(s[1..]);
      assert forall k :: 0 < k < |s| ==> SeparatorAt(s, k) == SeparatorAt(s[1..], k - 1);
      1 + r
  }

  /** `raw.split("\n<sign>\n")` */
  function Split(raw: string): seq<string> {
    var at := Find(raw);
    if at == |raw| then [raw] else [raw[..at]] + Split(raw[at + 3..])
  }

  /** `[e.strip() for e in pieces if e.strip()]` */
  function Entries(pieces: seq<string>): seq<string> {
    if pieces == [] then []
    else if Strip(pieces[0]) == "" then Entries(pieces[1..])
    else [Strip(pieces[0])] + Entries(pieces[1..])
  }

  function ReadEntries(raw: string): seq<string> {
    Entries(Split(raw))
  }

  function Join(entries: seq<string>): string {
    if entries == [] then ""
    else if |entries| == 1 then entries[0]
    else entries[0] + SEPARATOR + Join(entries[1..])
  }

  /** Every entry but those with the id. */
  function Without(hash: string -> string, entries: seq<string>, id: string): seq<string> {
    if entries == [] then []
    else if hash(entries[0]) == id then Without(hash, entries[1..], id)
    else [entries[0]] + Without(hash, entries[1..], id)
  }

  predicate Lists(hash: string -> string, entries: seq<string>, id: string) {
    exists e :: e in entries && hash(e) == id
  }

  predicate Holds(hash: string -> string, raw: Option<string>, id: string) {
    raw.Some? && Lists(hash, ReadEntries(raw.value), id)
  }

  /** The first file, from `n` on, that holds the id; the number of files when none does. */
  function FirstHolder(hash: string -> string, files: seq<Option<string>>, id: string, n: nat): (first: nat)
    requires n <= |files|
    ensures n <= first <= |files|
    ensures first < |files| ==> Holds(hash, files[first], id)
    ensures forall m :: n <= m < first ==> !Holds(hash, files[m], id)
    decreases |files| - n
  {
    if n == |files| || Holds(hash, files[n], id) then n else FirstHolder(hash, files, id, n + 1)
  }

  /** What a file holds after a delete found the id in it. */
  function Rewritten(hash: string -> string, raw: string, id: string): string {
    Join(Without(hash, ReadEntries(raw), id))
  }

  lemma ListsOneMore(hash: string -> string, entries: seq<string>, k: nat, id: string)
    requires k < |entries|
    ensures Lists(hash, entries[..k + 1], id) <==> Lists(hash, entries[..k], id) || hash(entries[k]) == id
  {
    assert entries[..k + 1] == entries[..k] + [entries[k]];
    assert entries[k] in entries[..k + 1];
  }

  lemma WithoutStep(hash: string -> string, entries: seq<string>, k: nat, id: string)
    requires k < |entries|
    ensures Without(hash, entries[k..], id)
         == (if hash(entries[k]) == id then [] else [entries[k]]) + Without(hash, entries[k + 1..], id)
  {
    assert entries[k..][0] == entries[k] && entries[k..][1..] == entries[k + 1..];
  }

  /** MEMORY.md and USER.md, None while a file does not exist. */
  class MemoryStore {
    var files: seq<Option<string>>

    constructor (files: seq<Option<string>>)
      ensures this.files == files
    {
      this.files := files;
    }

    static method Keep(hash: string -> string, entries: seq<string>, id: string) returns (found: bool, kept: seq<string>)
      ensures found <==> Lists(hash, entries, id)
      ensures kept == Without(hash, entries, id)
    {
      found, kept := false, [];
      for k := 0 to |entries|
        invariant kept + Without(hash, entries[k..], id) == Without(hash, entries, id)
        invariant found <==> Lists(hash, entries[..k], id)
      {
        ListsOneMore(hash, entries, k, id);
        WithoutStep(hash, entries, k, id);
        ghost var before := kept;
        if hash(entries[k]) == id {
          found := true;
        } else {
          kept := kept + [entries[k]];
          assert before + ([entries[k]] + Without(hash, entries[k + 1..], id)) == kept + Without(hash, entries[k + 1..], id);
        }
      }
      assert entries[..|entries|] == entries;
    }

    /** One file: rewritten when the id is in it. */
    method DeleteFrom(hash: string -> string, n: nat, id: string) returns (found: bool)
      requires n < |files|
      modifies this
      ensures found <==> Holds(hash, old(files)[n], id)
      ensures files == if found then old(files)[n := Some(Rewritten(hash, old(files)[n].value, id))] else old(files)
    {
      found := false;
      if files[n].Some? {
        var kept;
        found, kept := Keep(hash, ReadEntries(files[n].value), id);
        if found {
          files := files[n := Some(Join(kept))];
        }
      }
    }

    /** Only the first file that holds the id is rewritten; without one nothing is. */
    method Delete(hash: string -> string, id: string) returns (deleted: bool)
      modifies this
      ensures var n := FirstHolder(hash, old(files), id, 0);
              && deleted == (n < |old(files)|)
              && files == if deleted then old(files)[n := Some(Rewritten(hash, old(files)[n].value, id))] else old(files)
    {
      deleted := false;
      for n := 0 to |files|
        invariant files == old(files)
        invariant FirstHolder(hash, files, id, 0) == FirstHolder(hash, files, id, n)
      {
        deleted := DeleteFrom(hash, n, id);
        if deleted {
          return;
        }
      }
    }
  }

  // ------------------------------------------------------------------ reading back

  /** The separator's one overlap with itself. */
  predicate EndsInSign(e: string) {
    |e| >= 2 && e[|e| - 2] == '\n' && e[|e| - 1] == SIGN
  }

  ghost predicate Clean(s: string) {
    forall k :: 0 <= k < |s| ==> !SeparatorAt(s, k)
  }

  /** What an entry read from a file always is. */
  ghost predicate IsEntry(e: string) {
    e != "" && !IsSpace(e[0]) && !IsSpace(e[|e| - 1]) && Clean(e)
  }

  lemma CleanPart(s: string, a: nat, b: nat)
    requires Clean(s) && a <= b <= |s|
    ensures Clean(s[a..b])
  {
    forall k | 0 <= k < b - a ensures !SeparatorAt(s[a..b], k) {
      assert !SeparatorAt(s, a + k);
    }
  }

  lemma StripIsPart(s: string) returns (a: nat, b: nat)
    ensures a <= b <= |s| && Strip(s) == s[a..b]
  {
    var left := LStrip(s);
    var right := RStrip(left);
    a := |s| - |left|;
    b := a + |right|;
    assert left[..|right|] == right;
  }

  lemma BeforeFindIsClean(raw: string)
    ensures Clean(raw[..Find(raw)])
  {
    var at := Find(raw);
    forall k | 0 <= k < at ensures !SeparatorAt(raw[..at], k) {
      assert !SeparatorAt(raw, k);
    }
  }

  lemma {:induction false} SplitIsClean(raw: string)
    ensures Split(raw) != []
    ensures forall k :: 0 <= k < |Split(raw)| ==> Clean(Split(raw)[k])
    decreases |raw|
  {
    var at := Find(raw);
    BeforeFindIsClean(raw);
    if at == |raw| {
      assert raw[..at] == raw;
    } else {
      SplitIsClean(raw[at + 3..]);
    }
  }

  lemma PieceIsEntry(piece: string)
    requires Clean(piece)
    ensures Strip(piece) != "" ==> IsEntry(Strip(piece))
  {
    var a, b := StripIsPart(piece);
    CleanPart(piece, a, b);
  }

  ghost predicate AllEntries(entries: seq<string>) {
    forall k :: 0 <= k < |entries| ==> IsEntry(entries[k])
  }

  lemma AllEntriesCons(e: string, rest: seq<string>)
    requires IsEntry(e) && AllEntries(rest)
    ensures AllEntries([e] + rest)
  {
    forall k | 0 <= k < |[e] + rest| ensures IsEntry(([e] + rest)[k]) {
      assert k > 0 ==> ([e] + rest)[k] == rest[k - 1];
    }
  }

  lemma {:induction false} EntriesAreEntries(pieces: seq<string>)
    requires forall k :: 0 <= k < |pieces| ==> Clean(pieces[k])
    ensures AllEntries(Entries(pieces))
  {
    if pieces != [] {
      EntriesAreEntries(pieces[1..]);
      PieceIsEntry(pieces[0]);
      if Strip(pieces[0]) != "" {
        AllEntriesCons(Strip(pieces[0]), Entries(pieces[1..]));
      }
    }
  }

  lemma {:induction false} WithoutIsExact(hash: string -> string, entries: seq<string>, id: string)
    ensures forall e :: e in Without(hash, entries, id) <==> e in entries && hash(e) != id
  {
    if entries != [] {
      WithoutIsExact(hash, entries[1..], id);
      assert forall e :: e in entries <==> e == entries[0] || e in entries[1..];
    }
  }

  /** After an entry the separator is found right there, two characters early when the entry ends
      in a line start and the sign. */
  lemma FindAfter(e: string, rest: string)
    requires Clean(e)
    ensures Find(e + SEPARATOR + rest) == if EndsInSign(e) then |e| - 2 else |e|
  {
    var s := e + SEPARATOR + rest;
    var at := if EndsInSign(e) then |e| - 2 else |e|;
    forall k | 0 <= k < at ensures !SeparatorAt(s, k) {
      assert k + 3 <= |e| ==> SeparatorAt(s, k) == SeparatorAt(e, k);
    }
    assert SeparatorAt(s, at);
  }

  lemma {:induction false} RStripKeepsFirst(s: string)
    requires s != "" && !IsSpace(s[0])
    ensures RStrip(s) != ""
  {
    if IsSpace(s[|s| - 1]) {
      RStripKeepsFirst(s[..|s| - 1]);
    }
  }

  lemma StripLength(s: string)
    ensures |Strip(s)| <= |s|
  {
  }

  ghost predicate NoEarlySign(entries: seq<string>) {
    forall k :: 0 <= k < |entries| - 1 ==> !EndsInSign(entries[k])
  }

  lemma NoEarlySignTail(entries: seq<string>)
    requires |entries| >= 2
    ensures NoEarlySign(entries) <==> !EndsInSign(entries[0]) && NoEarlySign(entries[1..])
  {
    var rest := entries[1..];
    if !EndsInSign(entries[0]) && NoEarlySign(rest) {
      forall k | 0 <= k < |entries| - 1 ensures !EndsInSign(entries[k]) {
        assert k > 0 ==> entries[k] == rest[k - 1];
      }
    }
    if NoEarlySign(entries) {
      forall k | 0 <= k < |rest| - 1 ensures !EndsInSign(rest[k]) {
        assert rest[k] == entries[k + 1];
      }
    }
  }

  /** An entry followed by others reads back as itself, or cut short before its sign. */
  lemma ReadsFirst(e: string, rest: string)
    requires IsEntry(e)
    ensures !EndsInSign(e) ==> ReadEntries(e + SEPARATOR + rest) == [e] + ReadEntries(rest)
    ensures EndsInSign(e) ==>
              var back := ReadEntries(e + SEPARATOR + rest); back != [] && back[0] == Strip(e[..|e| - 2]) != e
  {
    FindAfter(e, rest);
    var joined := e + SEPARATOR + rest;
    if EndsInSign(e) {
      var cut := e[..|e| - 2];
      assert joined[..|e| - 2] == cut;
      assert IsSpace('\n') && !IsSpace(e[0]);
      RStripKeepsFirst(cut);
      StripLength(cut);
      assert Split(joined) == [cut] + Split(joined[|e| + 1..]);
    } else {
      assert joined[..|e|] == e && joined[|e| + 3..] == rest;
      assert Split(joined) == [e] + Split(rest);
    }
  }

  /** Written and read again, entries come back as they were, exactly when none but the last ends
      in a line start and the sign. */
  lemma {:induction false} ReadsBackIff(entries: seq<string>)
    requires AllEntries(entries)
    ensures ReadEntries(Join(entries)) == entries <==> NoEarlySign(entries)
  {
    if |entries| == 0 {
      ReadsOne("");
    } else if |entries| == 1 {
      ReadsOne(entries[0]);
      assert entries == [entries[0]];
    } else {
      var e, rest := entries[0], entries[1..];
      ReadsFirst(e, Join(rest));
      ReadsBackIff(rest);
      NoEarlySignTail(entries);
      SameTail(ReadEntries(Join(rest)), entries);
    }
  }

  lemma ReadsOne(e: string)
    requires e == "" || IsEntry(e)
    ensures ReadEntries(e) == if e == "" then [] else [e]
  {
    FindNone(e);
    StripFixed(e);
    OnePiece(e);
  }

  lemma OnePiece(piece: string)
    ensures Entries([piece]) == if Strip(piece) != "" then [Strip(piece)] else []
  {
    assert [piece][1..] == [];
  }

  lemma SameTail(read: seq<string>, entries: seq<string>)
    requires entries != []
    ensures [entries[0]] + read == entries <==> read == entries[1..]
  {
    assert ([entries[0]] + read)[1..] == read;
    assert entries == [entries[0]] + entries[1..];
  }

  lemma FindNone(s: string)
    requires Clean(s)
    ensures Find(s) == |s| && Split(s) == [s]
  {
  }

  lemma {:induction false} WithoutKeepsEntries(hash: string -> string, entries: seq<string>, id: string)
    requires AllEntries(entries)
    ensures AllEntries(Without(hash, entries, id))
  {
    if entries != [] {
      WithoutKeepsEntries(hash, entries[1..], id);
      if hash(entries[0]) != id {
        AllEntriesCons(entries[0], Without(hash, entries[1..], id));
      }
    }
  }

  /** After a delete the file reads as the old entries minus all with the id, in order, exactly
      when no kept entry but the last ends in a line start and the sign. */
  lemma DeleteReadsBackIff(hash: string -> string, raw: string, id: string)
    ensures var kept := Without(hash, ReadEntries(raw), id);
            ReadEntries(Join(kept)) == kept <==> NoEarlySign(kept)
  {
    SplitIsClean(raw);
    EntriesAreEntries(Split(raw));
    WithoutKeepsEntries(hash, ReadEntries(raw), id);
    ReadsBackIff(Without(hash, ReadEntries(raw), id));
  }

  /** When it does read back, the id is gone and every other entry is still there. */
  lemma DeletedIsGone(hash: string -> string, raw: string, id: string, e: string)
    requires NoEarlySign(Without(hash, ReadEntries(raw), id))
    ensures e in ReadEntries(Rewritten(hash, raw, id)) <==> e in ReadEntries(raw) && hash(e) != id
  {
    DeleteReadsBackIff(hash, raw, id);
    WithoutIsExact(hash, ReadEntries(raw), id);
  }

  /** A space after an entry keeps its sign apart from the separator, and is stripped off on reading. */
  lemma SpacedSignReads(e: string, rest: string)
    requires IsEntry(e)
    ensures ReadEntries(e + " " + SEPARATOR + rest) == [e] + ReadEntries(rest)
  {
    var spaced := e + " ";
    forall k | 0 <= k < |spaced| ensures !SeparatorAt(spaced, k) {
      assert k + 3 <= |e| ==> SeparatorAt(spaced, k) == SeparatorAt(e, k);
    }
    FindAfter(spaced, rest);
    var joined := spaced + SEPARATOR + rest;
    assert joined[..|spaced|] == spaced && joined[|spaced| + 3..] == rest;
    assert IsSpace(' ') && spaced[..|e|] == e;
    assert RStrip(e) == e;
    assert Strip(spaced) == e;
  }

  /** So a file can list an entry that ends in the sign before others, and deleting the third of
      such entries changes the first two. */
  lemma DeleteBreaksOthers(hash: string -> string, raw: string, e: string, b: string, c: string)
    requires ReadEntries(raw) == [e, b, c] && IsEntry(e) && EndsInSign(e)
    requires hash(c) != hash(e) && hash(c) != hash(b)
    ensures var back := ReadEntries(Rewritten(hash, raw, hash(c))); back != [] && back[0] != e
  {
    WithoutThird(hash, e, b, c);
    ReadsFirst(e, b);
  }

  lemma WithoutThird(hash: string -> string, e: string, b: string, c: string)
    requires hash(c) != hash(e) && hash(c) != hash(b)
    ensures Join(Without(hash, [e, b, c], hash(c))) == e + SEPARATOR + b
  {
    assert [e, b, c][1..] == [b, c] && [b, c][1..] == [c] && [c][1..] == [];
    assert Without(hash, [c], hash(c)) == [];
    assert Without(hash, [b, c], hash(c)) == [b];
    assert [e] + [b] == [e, b];
    assert [e, b][1..] == [b];
  }
}
