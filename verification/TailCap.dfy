/** The bound on a subagent's output tail (bot_subagents.py): its UTF-8 bytes (RFC 3629) are cut to
    the last 16 KiB and decoded again, ignoring what the cut left broken. */
module TailCap {
  import opened Wrappers

  const TAIL_LIMIT_BYTES := 16 * 1024

  type Byte = b: int | 0 <= b < 256

  /** A Unicode scalar value: what Python encodes as UTF-8 without an error. */
  type Scalar = c: int | 0 <= c < 0xD800 || 0xE000 <= c <= 0x10FFFF

  predicate Continues(b: Byte) {
    0x80 <= b <= 0xBF
  }

  // ------------------------------------------------------------------ encoding

  /** A continuation byte: the low six bits. */
  function Tail(n: int): (b: Byte)
    requires n >= 0
    ensures Continues(b) && Bits(b) == n % 64
  {
    0x80 + n % 64
  }

  function Bits(b: Byte): int {
    b as int - 0x80
  }

  /** Section 3 of RFC 3629. */
  function EncodeOne(c: Scalar): (r: seq<Byte>)
    ensures 1 <= |r| <= 4
    ensures forall k :: 1 <= k < |r| ==> Continues(r[k])
  {
    var high := c / 64;
    var higher := high / 64;
    if c < 0x80 then [c]
    else if c < 0x800 then [0xC0 + high, Tail(c)]
    else if c < 0x10000 then [0xE0 + higher, Tail(high), Tail(c)]
    else [0xF0 + higher / 64, Tail(higher), Tail(high), Tail(c)]
  }

  function Encode(text: seq<Scalar>): seq<Byte> {
    if text == [] then [] else EncodeOne(text[0]) + Encode(text[1..])
  }

  // ------------------------------------------------------------------ decoding

  /** How long the sequence a byte opens is; 0 for a byte that opens none. */
  function Size(b: Byte): nat {
    if b < 0x80 then 1
    else if b < 0xC2 then 0
    else if b < 0xE0 then 2
    else if b < 0xF0 then 3
    else if b < 0xF5 then 4
    else 0
  }

  /** The second byte of a sequence is bounded by the first (section 4 of RFC 3629). */
  predicate Follows(first: Byte, second: Byte) {
    && Continues(second)
    && (first == 0xE0 ==> second >= 0xA0) && (first == 0xED ==> second <= 0x9F)
    && (first == 0xF0 ==> second >= 0x90) && (first == 0xF4 ==> second <= 0x8F)
  }

  datatype Read = Read(scalar: Option<Scalar>, used: nat)

  /** One step of the decoder: a scalar value, or the bytes it drops as broken. */
  function ReadOne(bytes: seq<Byte>): (r: Read)
    requires bytes != []
    ensures 1 <= r.used <= |bytes|
  {
    var b := bytes[0];
    if Size(b) == 0 then Read(None, 1)
    else if Size(b) == 1 then Read(Some(b), 1)
    else if |bytes| < 2 || !Follows(b, bytes[1]) then Read(None, 1)
    else if Size(b) == 2 then Read(Some((b as int - 0xC0) * 64 + Bits(bytes[1])), 2)
    else if |bytes| < 3 || !Continues(bytes[2]) then Read(None, 2)
    else if Size(b) == 3 then Read(Some(((b as int - 0xE0) * 64 + Bits(bytes[1])) * 64 + Bits(bytes[2])), 3)
    else if |bytes| < 4 || !Continues(bytes[3]) then Read(None, 3)
    else Read(Some((((b as int - 0xF0) * 64 + Bits(bytes[1])) * 64 + Bits(bytes[2])) * 64 + Bits(bytes[3])), 4)
  }

  /** `bytes.decode("utf-8", errors="ignore")` */
  function Decode(bytes: seq<Byte>): seq<Scalar>
    decreases |bytes|
  {
    if bytes == [] then []
    else
      var r := ReadOne(bytes);
      (if r.scalar.Some? then [r.scalar.value] else []) + Decode(bytes[r.used..])
  }

  function CapTailText(text: seq<Scalar>, truncated: bool): (seq<Scalar>, bool) {
    var encoded := Encode(text);
    if |encoded| <= TAIL_LIMIT_BYTES then (text, truncated)
    else (Decode(encoded[|encoded| - TAIL_LIMIT_BYTES..]), true)
  }

  // ------------------------------------------------------------------ what it keeps

  lemma ReadsBack(c: Scalar, rest: seq<Byte>)
    ensures ReadOne(EncodeOne(c) + rest) == Read(Some(c), |EncodeOne(c)|)
  {
    var code := EncodeOne(c);
    var bytes := code + rest;
    var high := c / 64;
    var higher := high / 64;
    assert bytes[0] == code[0] && |bytes| >= |code|;
    assert |code| > 1 ==> bytes[1] == code[1];
    assert |code| > 2 ==> bytes[2] == code[2];
    assert |code| > 3 ==> bytes[3] == code[3];
    assert c == high * 64 + c % 64 && high == higher * 64 + high % 64 && higher == higher / 64 * 64 + higher % 64;
  }

  lemma DecodesFirst(c: Scalar, rest: seq<Byte>)
    ensures Decode(EncodeOne(c) + rest) == [c] + Decode(rest)
  {
    var bytes := EncodeOne(c) + rest;
    ReadsBack(c, rest);
    assert bytes[|EncodeOne(c)|..] == rest;
  }

  /** Decoding undoes encoding. */
  lemma {:induction false} RoundTrip(text: seq<Scalar>)
    ensures Decode(Encode(text)) == text
  {
    if text != [] {
      DecodesFirst(text[0], Encode(text[1..]));
      RoundTrip(text[1..]);
    }
  }

  /** Bytes that open no sequence are dropped one by one. */
  lemma {:induction false} DropsOrphans(bytes: seq<Byte>, n: nat)
    requires n <= |bytes| && forall k :: 0 <= k < n ==> Continues(bytes[k])
    ensures Decode(bytes) == Decode(bytes[n..])
  {
    if n > 0 {
      assert ReadOne(bytes) == Read(None, 1);
      DropsOrphans(bytes[1..], n - 1);
      assert bytes[1..][n - 1..] == bytes[n..];
    }
  }

  lemma Behind(first: seq<Byte>, rest: seq<Byte>, offset: nat, n: nat)
    requires |first| <= offset && offset + n <= |first| + |rest|
    ensures (first + rest)[offset + n..] == rest[offset - |first| + n..]
    ensures forall i :: offset <= i < offset + n ==> (first + rest)[i] == rest[i - |first|]
  {
  }

  /** A cut at any byte: `n` orphans of the character before, then the text from there on whole. */
  lemma {:induction false} CutAt(text: seq<Scalar>, offset: nat) returns (k: nat, n: nat)
    requires offset <= |Encode(text)|
    ensures k <= |text| && offset + n <= |Encode(text)|
    ensures n <= 3 && forall i :: offset <= i < offset + n ==> Continues(Encode(text)[i])
    ensures Encode(text)[offset + n..] == Encode(text[k..])
    ensures k > 0 ==> n < |EncodeOne(text[k - 1])|
    ensures k == 0 ==> n == 0
  {
    if offset == 0 {
      k, n := 0, 0;
    } else {
      var first, rest := EncodeOne(text[0]), Encode(text[1..]);
      assert Encode(text) == first + rest;
      if offset < |first| {
        k, n := 1, |first| - offset;
        assert (first + rest)[|first|..] == rest;
      } else {
        k, n := CutAt(text[1..], offset - |first|);
        Behind(first, rest, offset, n);
        assert text[1..][k..] == text[k + 1..];
        assert k > 0 ==> text[1..][k - 1] == text[k];
        k := k + 1;
      }
    }
  }

  lemma {:induction false} LongerSuffix(text: seq<Scalar>, j: nat, k: nat)
    requires j <= k <= |text|
    ensures |Encode(text[j..])| >= |Encode(text[k..])|
    decreases k - j
  {
    if j < k {
      LongerSuffix(text, j + 1, k);
      OneLonger(text, j);
    }
  }

  ghost predicate Fits(text: seq<Scalar>) {
    |Encode(text)| <= TAIL_LIMIT_BYTES
  }

  /** The bytes from a cut on decode to the whole characters behind it. */
  lemma DecodesBehindCut(text: seq<Scalar>, offset: nat) returns (k: nat, n: nat)
    requires offset <= |Encode(text)|
    ensures k <= |text| && n <= 3 && offset + n + |Encode(text[k..])| == |Encode(text)|
    ensures Decode(Encode(text)[offset..]) == text[k..]
    ensures k > 0 ==> n < |EncodeOne(text[k - 1])|
  {
    k, n := CutAt(text, offset);
    var tail := Encode(text)[offset..];
    assert tail[n..] == Encode(text)[offset + n..];
    DropsOrphans(tail, n);
    RoundTrip(text[k..]);
  }

  lemma OneLonger(text: seq<Scalar>, k: nat)
    requires k < |text|
    ensures |Encode(text[k..])| == |EncodeOne(text[k])| + |Encode(text[k + 1..])|
  {
    assert text[k..][0] == text[k] && text[k..][1..] == text[k + 1..];
  }

  /** Text over the limit keeps its longest suffix of whole characters that fits, and with it all
      but at most three bytes of the limit. */
  lemma LongestSuffixKept(text: seq<Scalar>, truncated: bool)
    requires !Fits(text)
    ensures CapTailText(text, truncated).1
    ensures exists k: nat ::
              && k <= |text| && CapTailText(text, truncated).0 == text[k..]
              && TAIL_LIMIT_BYTES - 3 <= |Encode(text[k..])| <= TAIL_LIMIT_BYTES
              && forall j :: 0 <= j < k ==> !Fits(text[j..])
  {
    var k, n := DecodesBehindCut(text, |Encode(text)| - TAIL_LIMIT_BYTES);
    forall j | 0 <= j < k ensures !Fits(text[j..]) {
      LongerSuffix(text, j, k - 1);
      OneLonger(text, k - 1);
    }
  }

  /** What comes out always fits, and capping it again changes nothing. */
  lemma CapSettles(text: seq<Scalar>, truncated: bool)
    ensures var (tail, cut) := CapTailText(text, truncated);
            Fits(tail) && cut == (truncated || !Fits(text)) && CapTailText(tail, cut) == (tail, cut)
  {
    if !Fits(text) {
      LongestSuffixKept(text, truncated);
    }
  }
}
