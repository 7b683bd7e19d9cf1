/** UTF-16 code units (RFC 2781, section 2.1), in which the phone counts a delta's kept
    prefix. A Dafny `char` is a Unicode scalar value: a Python code point that encodes. */
module Utf16 {
  import opened Wrappers

  type Unit = u: int | 0 <= u < 0x10000

  predicate IsHigh(u: Unit) { 0xD800 <= u < 0xDC00 }
  predicate IsLow(u: Unit) { 0xDC00 <= u < 0xE000 }

  function Units(c: char): (us: seq<Unit>)
    ensures us != [] && !IsLow(us[0])
  {
    var n := c as int;
    if n < 0x10000 then [n] else [0xD800 + (n - 0x10000) / 0x400, 0xDC00 + (n - 0x10000) % 0x400]
  }

  function Paired(high: Unit, low: Unit): char
    requires IsHigh(high) && IsLow(low)
  {
    var h: int, l: int := high - 0xD800, low - 0xDC00;
    (0x10000 + h * 0x400 + l) as char
  }

  function Encode(s: string): seq<Unit> {
    if s == "" then [] else Units(s[0]) + Encode(s[1..])
  }

  /** The strict decoder: None on an unpaired surrogate. */
  function Decode(us: seq<Unit>): Option<string> {
    if us == [] then Some("")
    else if IsHigh(us[0]) && |us| > 1 && IsLow(us[1]) then
      Prepend(Paired(us[0], us[1]), Decode(us[2..]))
    else if IsHigh(us[0]) || IsLow(us[0]) then None
    else Prepend(us[0] as char, Decode(us[1..]))
  }

  function Prepend(c: char, rest: Option<string>): Option<string> {
    match rest
    case None => None
    case Some(s) => Some([c] + s)
  }

  lemma {:induction false} EncodeConcat(s: string, t: string)
    ensures Encode(s + t) == Encode(s) + Encode(t)
  {
    if s == "" {
      assert s + t == t;
    } else {
      assert (s + t)[1..] == s[1..] + t;
      EncodeConcat(s[1..], t);
    }
  }

  /** Decoding inverts encoding, so equal units mean equal text. */
  lemma {:induction false} RoundTrip(s: string)
    ensures Decode(Encode(s)) == Some(s)
  {
    if s != "" {
      var us := Units(s[0]);
      var rest := Encode(s[1..]);
      RoundTrip(s[1..]);
      assert (us + rest)[|us|..] == rest;
      assert [s[0]] + s[1..] == s;
    }
  }

  /** A cut of `us` at `k` leaves no surrogate pair split. */
  predicate CleanCut(us: seq<Unit>, k: nat) {
    k <= |us| && (k < |us| ==> !IsLow(us[k]))
  }

  lemma PrefixCutIsClean(s: string, k: nat)
    requires k <= |s|
    ensures Encode(s[..k]) <= Encode(s) && CleanCut(Encode(s), |Encode(s[..k])|)
  {
    assert s == s[..k] + s[k..];
    EncodeConcat(s[..k], s[k..]);
  }
}
