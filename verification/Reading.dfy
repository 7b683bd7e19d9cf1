/** Texts joined by blank lines, and what can be read off them again: their letters, or the
    pieces they were joined from. */
module Reading {
  import opened PyText

  /** "\n\n".join */
  function Paragraphs(parts: seq<string>): string {
    if parts == [] then "" else if |parts| == 1 then parts[0] else parts[0] + "\n\n" + Paragraphs(parts[1..])
  }

  predicate BlankAt(s: string, k: nat) {
    k + 2 <= |s| && s[k] == '\n' && s[k + 1] == '\n'
  }

  /** Where the first blank line is; the length when there is none. */
  function Gap(s: string): (r: nat)
    ensures r <= |s|
    ensures r < |s| ==> BlankAt(s, r)
    ensures forall k :: 0 <= k < r ==> !BlankAt(s, k)
  {
    if s == "" || BlankAt(s, 0) then 0
    else
      var r := Gap(s[1..]);
      assert forall k :: 0 < k < |s| ==> BlankAt(s, k) == BlankAt(s[1..], k - 1);
      1 + r
  }

  /** A text cut at its blank lines. */
  function Pieces(s: string): seq<string> {
    if s == "" then []
    else
      var at := Gap(s);
      if at == |s| then [s] else [s[..at]] + Pieces(s[at + 2..])
  }

  /** A text that starts and ends visibly and holds no blank line. */
  ghost predicate IsPiece(p: string) {
    p != "" && !IsSpace(p[0]) && !IsSpace(p[|p| - 1]) && forall k :: 0 <= k < |p| ==> !BlankAt(p, k)
  }

  function Filter<T>(keep: T -> bool, s: seq<T>): seq<T> {
    if s == [] then [] else if keep(s[0]) then [s[0]] + Filter(keep, s[1..]) else Filter(keep, s[1..])
  }

  predicate IsVisible(c: char) { !IsSpace(c) }

  /** The visible characters of a text. */
  function Letters(s: string): string {
    Filter(IsVisible, s)
  }

  /** What is read off several texts in turn. */
  function ReadAll<T>(read: string -> seq<T>, texts: seq<string>): seq<T> {
    if texts == [] then [] else read(texts[0]) + ReadAll(read, texts[1..])
  }

  ghost predicate AllFit(fit: string -> bool, texts: seq<string>) {
    forall k :: 0 <= k < |texts| ==> fit(texts[k])
  }

  ghost predicate ReadsJoined<T>(read: string -> seq<T>, texts: seq<string>, own: string) {
    read(Strip(Paragraphs(texts + [own]))) == ReadAll(read, texts) + read(own)
  }

  /** A way of reading that joining fitting texts by blank lines does not disturb. */
  ghost predicate Readable<T(!new)>(read: string -> seq<T>, fit: string -> bool) {
    && read("") == []
    && forall texts, own | texts != [] && AllFit(fit, texts) && (own == "" || fit(own)) :: ReadsJoined(read, texts, own)
  }

  lemma {:induction false} FilterConcat<T>(keep: T -> bool, a: seq<T>, b: seq<T>)
    ensures Filter(keep, a + b) == Filter(keep, a) + Filter(keep, b)
  {
    if a == [] {
      assert a + b == b;
    } else {
      FilterConcat(keep, a[1..], b);
      assert (a + b)[0] == a[0] && (a + b)[1..] == a[1..] + b;
      if keep(a[0]) {
        assert [a[0]] + (Filter(keep, a[1..]) + Filter(keep, b)) == ([a[0]] + Filter(keep, a[1..])) + Filter(keep, b);
      }
    }
  }

  lemma LettersConcat(a: string, b: string)
    ensures Letters(a + b) == Letters(a) + Letters(b)
  {
    FilterConcat(IsVisible, a, b);
  }

  lemma SpaceHasNoLetters(s: string)
    requires |s| == 1 && IsSpace(s[0])
    ensures Letters(s) == ""
  {
    assert !IsVisible(s[0]) && Filter(IsVisible, s) == Filter(IsVisible, s[1..]);
  }

  lemma {:induction false} LettersLStrip(s: string)
    ensures Letters(LStrip(s)) == Letters(s)
  {
    if s != "" && IsSpace(s[0]) {
      LettersLStrip(s[1..]);
    }
  }

  lemma {:induction false} LettersRStrip(s: string)
    ensures Letters(RStrip(s)) == Letters(s)
  {
    if s != "" && IsSpace(s[|s| - 1]) {
      var n := |s| - 1;
      LettersRStrip(s[..n]);
      LettersConcat(s[..n], [s[n]]);
      SpaceHasNoLetters([s[n]]);
      assert s[..n] + [s[n]] == s;
    }
  }

  lemma {:induction false} LettersParagraphs(texts: seq<string>, own: string)
    ensures Letters(Paragraphs(texts + [own])) == ReadAll(Letters, texts) + Letters(own)
  {
    if texts == [] {
      assert texts + [own] == [own];
    } else {
      var rest := texts[1..] + [own];
      assert (texts + [own])[1..] == rest;
      LettersParagraphs(texts[1..], own);
      assert Paragraphs(texts + [own]) == texts[0] + "\n\n" + Paragraphs(rest);
      LettersConcat(texts[0] + "\n\n", Paragraphs(rest));
      LettersConcat(texts[0], "\n\n");
    }
  }

  predicate AnyText(s: string) { true }

  /** Read letter by letter, any texts fit. */
  lemma LettersReadable()
    ensures Readable(Letters, AnyText)
  {
    forall texts: seq<string>, own: string ensures ReadsJoined(Letters, texts, own) {
      LettersParagraphs(texts, own);
      LettersLStrip(Paragraphs(texts + [own]));
      LettersRStrip(LStrip(Paragraphs(texts + [own])));
    }
  }

  lemma GapAfterPiece(p: string, rest: string)
    requires IsPiece(p)
    ensures Gap(p) == |p| && Gap(p + "\n\n" + rest) == |p|
  {
    var s := p + "\n\n" + rest;
    forall k | 0 <= k < |p| ensures !BlankAt(s, k) {
      assert !BlankAt(p, k);
    }
    assert BlankAt(s, |p|);
  }

  /** A piece is cut off what follows it. */
  lemma PieceCutOff(p: string, rest: string)
    requires IsPiece(p)
    ensures Pieces(p) == [p] && Pieces(p + "\n\n" + rest) == [p] + Pieces(rest)
  {
    GapAfterPiece(p, rest);
    var s := p + "\n\n" + rest;
    assert s[..|p|] == p && s[|p| + 2..] == rest;
  }

  ghost predicate AllPieces(texts: seq<string>) {
    forall k :: 0 <= k < |texts| ==> IsPiece(texts[k])
  }

  lemma {:induction false} PiecesOfParagraphs(texts: seq<string>)
    requires texts != [] && AllPieces(texts)
    ensures Pieces(Paragraphs(texts)) == texts
  {
    var p, rest := texts[0], texts[1..];
    PieceCutOff(p, if rest == [] then "" else Paragraphs(rest));
    assert texts == [p] + rest;
    if rest != [] {
      PiecesOfParagraphs(rest);
    }
  }

  ghost predicate VisibleEnds(s: string) {
    s != "" && !IsSpace(s[0]) && !IsSpace(s[|s| - 1])
  }

  lemma VisibleJoined(p: string, rest: string)
    requires VisibleEnds(p) && VisibleEnds(rest)
    ensures VisibleEnds(p + "\n\n" + rest)
  {
  }

  lemma {:induction false} ParagraphsEndVisibly(texts: seq<string>)
    requires texts != [] && AllPieces(texts)
    ensures VisibleEnds(Paragraphs(texts))
  {
    assert IsPiece(texts[0]);
    if |texts| > 1 {
      ParagraphsEndVisibly(texts[1..]);
      VisibleJoined(texts[0], Paragraphs(texts[1..]));
    }
  }

  lemma {:induction false} ParagraphsEndBlank(texts: seq<string>)
    requires texts != []
    ensures Paragraphs(texts + [""]) == Paragraphs(texts) + "\n\n"
  {
    assert (texts + [""])[1..] == texts[1..] + [""];
    if |texts| > 1 {
      ParagraphsEndBlank(texts[1..]);
      assert texts[0] + "\n\n" + (Paragraphs(texts[1..]) + "\n\n") == (texts[0] + "\n\n" + Paragraphs(texts[1..])) + "\n\n";
    }
  }

  lemma StripBlankEnd(s: string)
    requires VisibleEnds(s)
    ensures Strip(s + "\n\n") == s
  {
    var one, two := s + "\n", s + "\n\n";
    assert LStrip(two) == two && two[..|two| - 1] == one && one[..|one| - 1] == s;
    assert RStrip(s) == s && RStrip(one) == s && RStrip(two) == s;
  }

  lemma ReadAllPieces(texts: seq<string>)
    requires AllPieces(texts)
    ensures ReadAll(Pieces, texts) == texts
  {
    if texts != [] {
      PieceCutOff(texts[0], "");
      ReadAllPieces(texts[1..]);
    }
  }

  /** Read piece by piece, single pieces fit. */
  lemma PiecesReadable()
    ensures Readable(Pieces, IsPiece)
  {
    forall texts, own | texts != [] && AllFit(IsPiece, texts) && (own == "" || IsPiece(own))
      ensures ReadsJoined(Pieces, texts, own)
    {
      assert AllPieces(texts);
      ReadAllPieces(texts);
      if own == "" {
        PiecesOfParagraphs(texts);
        ParagraphsEndBlank(texts);
        ParagraphsEndVisibly(texts);
        StripBlankEnd(Paragraphs(texts));
      } else {
        PieceCutOff(own, "");
        PiecesOfParagraphs(texts + [own]);
        ParagraphsEndVisibly(texts + [own]);
        StripFixed(Paragraphs(texts + [own]));
      }
    }
  }
}
