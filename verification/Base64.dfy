/** Base64 with padding (section 4 of RFC 4648) and its URL-safe alphabet (section 5). */
module Base64 {
  import opened Arithmetic
  import opened Options

  type Byte = x: int | 0 <= x < 256
  type Bytes = seq<Byte>
  type Sextet = x: int | 0 <= x < 64

  function CharOf(i: Sextet, url: bool): (c: char)
    ensures c != '='
  {
    if i < 26 then (65 + i) as char
    else if i < 52 then (71 + i) as char
    else if i < 62 then (i - 4) as char
    else if i == 62 then (if url then '-' else '+')
    else if url then '_' else '/'
  }

  function ValueOf(c: char, url: bool): Option<Sextet> {
    if 'A' <= c <= 'Z' then Some(c as int - 65)
    else if 'a' <= c <= 'z' then Some(c as int - 71)
    else if '0' <= c <= '9' then Some(c as int + 4)
    else if c == (if url then '-' else '+') then Some(62)
    else if c == (if url then '_' else '/') then Some(63)
    else None
  }

  function EncodeTriple(a: Byte, b: Byte, c: Byte, url: bool): string {
    [CharOf(a / 4, url), CharOf(a % 4 * 16 + b / 16, url), CharOf(b % 16 * 4 + c / 64, url), CharOf(c % 64, url)]
  }

  function Encode(bytes: Bytes, url: bool): (text: string)
    ensures |text| % 4 == 0
  {
    if |bytes| == 0 then ""
    else if |bytes| == 1 then EncodeTriple(bytes[0], 0, 0, url)[..2] + "=="
    else if |bytes| == 2 then EncodeTriple(bytes[0], bytes[1], 0, url)[..3] + "="
    else EncodeTriple(bytes[0], bytes[1], bytes[2], url) + Encode(bytes[3..], url)
  }

  /** One quantum of four characters; `last` permits padding. */
  function DecodeQuantum(q: string, last: bool, url: bool): Option<Bytes>
    requires |q| == 4
  {
    var v0, v1 := ValueOf(q[0], url), ValueOf(q[1], url);
    if v0.None? || v1.None? then None
    else if last && q[2] == '=' && q[3] == '=' then Some([v0.value * 4 + v1.value / 16])
    else
      var v2 := ValueOf(q[2], url);
      if v2.None? then None
      else if last && q[3] == '=' then Some([v0.value * 4 + v1.value / 16, v1.value % 16 * 16 + v2.value / 4])
      else
        var v3 := ValueOf(q[3], url);
        if v3.None? then None
        else Some([v0.value * 4 + v1.value / 16, v1.value % 16 * 16 + v2.value / 4, v2.value % 4 * 64 + v3.value])
  }

  function Decode(text: string, url: bool): Option<Bytes> {
    if |text| == 0 then Some([])
    else if |text| < 4 then None
    else
      var head := DecodeQuantum(text[..4], |text| == 4, url);
      var tail := Decode(text[4..], url);
      if head.None? || tail.None? then None else Some(head.value + tail.value)
  }

  lemma ValueOfCharOf(i: Sextet, url: bool)
    ensures ValueOf(CharOf(i, url), url) == Some(i)
  {
  }

  /** Splitting three bytes into four sextets loses nothing. */
  lemma SextetArithmetic(a: Byte, b: Byte, c: Byte)
    ensures var s1, s2 := a % 4 * 16 + b / 16, b % 16 * 4 + c / 64;
            && a / 4 * 4 + s1 / 16 == a
            && s1 % 16 * 16 + s2 / 4 == b
            && s2 % 4 * 64 + c % 64 == c
  {
    assert (a % 4 * 16 + b / 16) / 16 == a % 4;
    assert (a % 4 * 16 + b / 16) % 16 == b / 16;
    assert (b % 16 * 4 + c / 64) / 4 == b % 16;
    assert (b % 16 * 4 + c / 64) % 4 == c / 64;
  }

  /** A full triple survives encoding, wherever it stands. */
  lemma TripleRoundTrip(a: Byte, b: Byte, c: Byte, last: bool, url: bool)
    ensures DecodeQuantum(EncodeTriple(a, b, c, url), last, url) == Some([a, b, c])
  {
    ValueOfCharOf(a / 4, url);
    ValueOfCharOf(a % 4 * 16 + b / 16, url);
    ValueOfCharOf(b % 16 * 4 + c / 64, url);
    ValueOfCharOf(c % 64, url);
    SextetArithmetic(a, b, c);
  }

  /** The padded last quanta survive encoding. */
  lemma ShortRoundTrip(a: Byte, b: Byte, url: bool)
    ensures DecodeQuantum(EncodeTriple(a, 0, 0, url)[..2] + "==", true, url) == Some([a])
    ensures DecodeQuantum(EncodeTriple(a, b, 0, url)[..3] + "=", true, url) == Some([a, b])
  {
    ValueOfCharOf(a / 4, url);
    ValueOfCharOf(a % 4 * 16, url);
    ValueOfCharOf(a % 4 * 16 + b / 16, url);
    ValueOfCharOf(b % 16 * 4, url);
    SextetArithmetic(a, 0, 0);
    SextetArithmetic(a, b, 0);
  }

  lemma DecodeCons(quantum: string, rest: string, head: Bytes, tail: Bytes, url: bool)
    requires |quantum| == 4 && DecodeQuantum(quantum, rest == [], url) == Some(head)
    requires Decode(rest, url) == Some(tail)
    ensures Decode(quantum + rest, url) == Some(head + tail)
  {
    assert (quantum + rest)[..4] == quantum && (quantum + rest)[4..] == rest;
  }

  lemma RoundTripOne(a: Byte, url: bool)
    ensures Decode(Encode([a], url), url) == Some([a])
  {
    ShortRoundTrip(a, 0, url);
    var quantum := EncodeTriple(a, 0, 0, url)[..2] + "==";
    DecodeCons(quantum, [], [a], [], url);
    assert quantum + [] == quantum && [a] + [] == [a];
  }

  lemma RoundTripTwo(a: Byte, b: Byte, url: bool)
    ensures Decode(Encode([a, b], url), url) == Some([a, b])
  {
    ShortRoundTrip(a, b, url);
    var quantum := EncodeTriple(a, b, 0, url)[..3] + "=";
    DecodeCons(quantum, [], [a, b], [], url);
    assert quantum + [] == quantum && [a, b] + [] == [a, b];
  }

  lemma {:induction false} RoundTrip(bytes: Bytes, url: bool)
    ensures Decode(Encode(bytes, url), url) == Some(bytes)
  {
    if |bytes| == 0 {
    } else if |bytes| == 1 {
      assert bytes == [bytes[0]];
      RoundTripOne(bytes[0], url);
    } else if |bytes| == 2 {
      assert bytes == [bytes[0], bytes[1]];
      RoundTripTwo(bytes[0], bytes[1], url);
    } else {
      var a, b, c, rest := bytes[0], bytes[1], bytes[2], bytes[3..];
      RoundTrip(rest, url);
      TripleRoundTrip(a, b, c, Encode(rest, url) == [], url);
      DecodeCons(EncodeTriple(a, b, c, url), Encode(rest, url), [a, b, c], rest, url);
      assert bytes == [a, b, c] + rest;
    }
  }

  lemma {:induction false} EncodedLength(bytes: Bytes, url: bool)
    ensures |Encode(bytes, url)| == 4 * CeilDiv(|bytes|, 3)
  {
    if |bytes| > 2 {
      EncodedLength(bytes[3..], url);
    }
  }

  lemma EncodeCons(x: Byte, y: Byte, z: Byte, rest: Bytes, url: bool)
    ensures Encode([x, y, z] + rest, url) == EncodeTriple(x, y, z, url) + Encode(rest, url)
  {
    assert ([x, y, z] + rest)[3..] == rest;
  }

  /** Encoding is compositional at multiples of three bytes. */
  lemma {:induction false} EncodeConcat(a: Bytes, b: Bytes, url: bool)
    requires |a| % 3 == 0
    ensures Encode(a + b, url) == Encode(a, url) + Encode(b, url)
    decreases |a|, 1
  {
    if a == [] {
      assert a + b == b;
    } else {
      EncodeConcatStep(a[0], a[1], a[2], a[3..], b, url);
      assert a == [a[0], a[1], a[2]] + a[3..];
    }
  }

  lemma EncodeConcatStep(x: Byte, y: Byte, z: Byte, rest: Bytes, b: Bytes, url: bool)
    requires |rest| % 3 == 0
    ensures Encode([x, y, z] + rest + b, url) == Encode([x, y, z] + rest, url) + Encode(b, url)
    decreases |rest| + 3, 0
  {
    EncodeConcat(rest, b, url);
    assert [x, y, z] + rest + b == [x, y, z] + (rest + b);
    EncodeCons(x, y, z, rest + b, url);
    EncodeCons(x, y, z, rest, url);
  }

  // Padding stripped and restored

  function Pads(n: nat): string {
    seq(n, _ => '=')
  }

  /** `text.rstrip("=")` */
  function StripPadding(text: string): string {
    if text != [] && text[|text| - 1] == '=' then StripPadding(text[..|text| - 1]) else text
  }

  /** `text + "=" * (-len(text) % 4)` */
  function RestorePadding(text: string): string {
    text + Pads((4 - |text| % 4) % 4)
  }

  /** The encoding is padding-free characters followed by at most two pads. */
  lemma {:induction false} EncodeShape(bytes: Bytes, url: bool) returns (core: string, pads: nat)
    ensures pads < 3 && Encode(bytes, url) == core + Pads(pads)
    ensures core == [] || core[|core| - 1] != '='
    ensures bytes != [] ==> core != []
  {
    if |bytes| == 0 {
      core, pads := "", 0;
    } else if |bytes| == 1 {
      core, pads := EncodeTriple(bytes[0], 0, 0, url)[..2], 2;
      assert Pads(2) == "==";
    } else if |bytes| == 2 {
      core, pads := EncodeTriple(bytes[0], bytes[1], 0, url)[..3], 1;
      assert Pads(1) == "=";
    } else {
      var rest;
      rest, pads := EncodeShape(bytes[3..], url);
      core := EncodeTriple(bytes[0], bytes[1], bytes[2], url) + rest;
    }
  }

  lemma {:induction false} StripPads(core: string, pads: nat)
    requires core == [] || core[|core| - 1] != '='
    ensures StripPadding(core + Pads(pads)) == core
  {
    if pads == 0 {
      assert core + Pads(0) == core;
    } else {
      assert (core + Pads(pads))[..|core| + pads - 1] == core + Pads(pads - 1);
      StripPads(core, pads - 1);
    }
  }

  lemma PadArithmetic(n: nat, pads: nat)
    requires pads < 3 && (n + pads) % 4 == 0
    ensures (4 - n % 4) % 4 == pads
  {
    assert n % 4 == (4 - pads) % 4;
  }

  lemma PaddingRestored(bytes: Bytes, url: bool)
    ensures RestorePadding(StripPadding(Encode(bytes, url))) == Encode(bytes, url)
    ensures bytes != [] ==> StripPadding(Encode(bytes, url)) != []
  {
    var core, pads := EncodeShape(bytes, url);
    StripPads(core, pads);
    PadArithmetic(|core|, pads);
  }
}
