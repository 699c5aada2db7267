/**
 * Base 64 with the standard alphabet and padding (section 4 of RFC 4648), decoded the way
 * Go's `base64.StdEncoding.DecodeString` does: carriage returns and line feeds anywhere in
 * the input are skipped, the rest must be whole four-character quanta, only the last
 * quantum may be padded, and the unused low bits of a padded quantum are not checked.
 */
module Base64 {
  import opened Wrappers

  type byte = x: int | 0 <= x < 256

  /** The padding character '='. */
  const Pad: byte := 61

  /** The value of a character of the standard alphabet A-Z a-z 0-9 + /. */
  function SextetValue(c: byte): (r: Option<nat>)
    ensures r.Some? ==> r.value < 64
  {
    if 65 <= c <= 90 then Some(c - 65)
    else if 97 <= c <= 122 then Some(c - 71)
    else if 48 <= c <= 57 then Some(c + 4)
    else if c == 43 then Some(62)
    else if c == 47 then Some(63)
    else None
  }

  /** The alphabet character for a six-bit value. */
  function SextetChar(v: nat): byte
    requires v < 64
  {
    if v < 26 then 65 + v
    else if v < 52 then 71 + v
    else if v < 62 then v - 4
    else if v == 62 then 43
    else 47
  }

  predicate IsLineBreak(c: byte) {
    c == 10 || c == 13
  }

  /** `s` without its carriage returns and line feeds. */
  function StripLineBreaks(s: seq<byte>): (t: seq<byte>)
    ensures |t| <= |s|
  {
    if s == [] then []
    else if IsLineBreak(s[0]) then StripLineBreaks(s[1..])
    else [s[0]] + StripLineBreaks(s[1..])
  }

  /** The three bytes carried by four six-bit values. */
  function Bytes3(a: nat, b: nat, c: nat, d: nat): seq<byte>
    requires a < 64 && b < 64 && c < 64 && d < 64
  {
    [a * 4 + b / 16, b % 16 * 16 + c / 4, c % 4 * 64 + d]
  }

  /** A quantum of four alphabet characters. */
  function DecodeFull(q: seq<byte>): Option<seq<byte>>
    requires |q| == 4
  {
    match (SextetValue(q[0]), SextetValue(q[1]), SextetValue(q[2]), SextetValue(q[3]))
    case (Some(a), Some(b), Some(c), Some(d)) => Some(Bytes3(a, b, c, d))
    case _ => None
  }

  /** The last quantum: four alphabet characters, or three and "=", or two and "==". */
  function DecodeFinal(q: seq<byte>): Option<seq<byte>>
    requires |q| == 4
  {
    match (SextetValue(q[0]), SextetValue(q[1]), SextetValue(q[2]), SextetValue(q[3]))
    case (Some(a), Some(b), Some(c), Some(d)) => Some(Bytes3(a, b, c, d))
    case (Some(a), Some(b), Some(c), None) =>
      if q[3] == Pad then Some(Bytes3(a, b, c, 0)[..2]) else None
    case (Some(a), Some(b), None, None) =>
      if q[2] == Pad && q[3] == Pad then Some(Bytes3(a, b, 0, 0)[..1]) else None
    case _ => None
  }

  /** Decodes whole quanta, the last of which may be padded. */
  function DecodeQuanta(t: seq<byte>): (r: Option<seq<byte>>)
    requires |t| % 4 == 0
    ensures r.Some? ==> |r.value| * 4 <= |t| * 3 < |r.value| * 4 + 12
    decreases |t|
  {
    if t == [] then Some([])
    else if |t| == 4 then DecodeFinal(t)
    else
      match DecodeFull(t[..4])
      case None => None
      case Some(q) =>
        match DecodeQuanta(t[4..])
        case None => None
        case Some(r) => Some(q + r)
  }

  /** `base64.StdEncoding.DecodeString`: the decoded bytes, or None for corrupt input. */
  function Decode(s: seq<byte>): Option<seq<byte>> {
    var t := StripLineBreaks(s);
    if |t| % 4 != 0 then None else DecodeQuanta(t)
  }

  /** The four characters for three bytes. */
  function EncodeQuantum(b0: byte, b1: byte, b2: byte): seq<byte> {
    [SextetChar(b0 / 4), SextetChar(b0 % 4 * 16 + b1 / 16), SextetChar(b1 % 16 * 4 + b2 / 64), SextetChar(b2 % 64)]
  }

  /** Standard base 64 with padding: the encoder the payloads are produced with. */
  function Encode(b: seq<byte>): seq<byte>
    decreases |b|
  {
    if |b| == 0 then []
    else if |b| == 1 then [SextetChar(b[0] / 4), SextetChar(b[0] % 4 * 16), Pad, Pad]
    else if |b| == 2 then [SextetChar(b[0] / 4), SextetChar(b[0] % 4 * 16 + b[1] / 16), SextetChar(b[1] % 16 * 4), Pad]
    else EncodeQuantum(b[0], b[1], b[2]) + Encode(b[3..])
  }

  // ---------------------------------------------------------------------------
  // Properties

  lemma SextetRoundTrip(v: nat)
    requires v < 64
    ensures SextetValue(SextetChar(v)) == Some(v)
    ensures !IsLineBreak(SextetChar(v)) && SextetChar(v) != Pad
  {
  }

  lemma Bytes3RoundTrip(b0: byte, b1: byte, b2: byte)
    ensures Bytes3(b0 / 4, b0 % 4 * 16 + b1 / 16, b1 % 16 * 4 + b2 / 64, b2 % 64) == [b0, b1, b2]
  {
    assert (b0 % 4 * 16 + b1 / 16) / 16 == b0 % 4;
    assert (b0 % 4 * 16 + b1 / 16) % 16 == b1 / 16;
    assert (b1 % 16 * 4 + b2 / 64) / 4 == b1 % 16;
    assert (b1 % 16 * 4 + b2 / 64) % 4 == b2 / 64;
  }

  /** The encoder writes whole quanta and never a line break. */
  lemma EncodeShape(b: seq<byte>)
    ensures |Encode(b)| % 4 == 0
    ensures StripLineBreaks(Encode(b)) == Encode(b)
  {
    EncodeWhole(b);
    EncodeClean(b);
  }

  lemma {:induction false} EncodeWhole(b: seq<byte>)
    ensures |Encode(b)| % 4 == 0
    decreases |b|
  {
    if |b| >= 3 {
      EncodeWhole(b[3..]);
      EncodeCons(b);
    } else if |b| > 0 {
      ShortClean(b);
    }
  }

  lemma {:induction false} EncodeClean(b: seq<byte>)
    ensures StripLineBreaks(Encode(b)) == Encode(b)
    decreases |b|
  {
    if |b| >= 3 {
      EncodeClean(b[3..]);
      EncodeCons(b);
      QuantumClean(b[0], b[1], b[2]);
      StripAppend(EncodeQuantum(b[0], b[1], b[2]), Encode(b[3..]));
    } else if |b| > 0 {
      ShortClean(b);
    }
  }

  lemma EncodeCons(b: seq<byte>)
    requires |b| >= 3
    ensures Encode(b) == EncodeQuantum(b[0], b[1], b[2]) + Encode(b[3..])
    ensures |Encode(b)| == 4 + |Encode(b[3..])|
  {
  }

  lemma QuantumClean(b0: byte, b1: byte, b2: byte)
    ensures StripLineBreaks(EncodeQuantum(b0, b1, b2)) == EncodeQuantum(b0, b1, b2)
  {
    SextetRoundTrip(b0 / 4);
    SextetRoundTrip(b0 % 4 * 16 + b1 / 16);
    SextetRoundTrip(b1 % 16 * 4 + b2 / 64);
    SextetRoundTrip(b2 % 64);
    StripClean(EncodeQuantum(b0, b1, b2));
  }

  lemma ShortClean(b: seq<byte>)
    requires 0 < |b| < 3
    ensures |Encode(b)| == 4
    ensures StripLineBreaks(Encode(b)) == Encode(b)
  {
    if |b| == 1 {
      SextetRoundTrip(b[0] / 4);
      SextetRoundTrip(b[0] % 4 * 16);
    } else {
      SextetRoundTrip(b[0] / 4);
      SextetRoundTrip(b[0] % 4 * 16 + b[1] / 16);
      SextetRoundTrip(b[1] % 16 * 4);
    }
    StripClean(Encode(b));
  }

  lemma {:induction false} StripAppend(a: seq<byte>, b: seq<byte>)
    ensures StripLineBreaks(a + b) == StripLineBreaks(a) + StripLineBreaks(b)
    decreases |a|
  {
    if a == [] {
      assert a + b == b;
    } else {
      assert (a + b)[1..] == a[1..] + b;
      StripAppend(a[1..], b);
    }
  }

  lemma {:induction false} StripClean(a: seq<byte>)
    requires forall i :: 0 <= i < |a| ==> !IsLineBreak(a[i])
    ensures StripLineBreaks(a) == a
    decreases |a|
  {
    if a != [] {
      StripClean(a[1..]);
      assert a == [a[0]] + a[1..];
    }
  }

  lemma DecodeOne(b0: byte)
    ensures DecodeFinal(Encode([b0])) == Some([b0])
  {
    var e := Encode([b0]);
    SextetRoundTrip(b0 / 4);
    SextetRoundTrip(b0 % 4 * 16);
    var a, c := b0 / 4, b0 % 4 * 16;
    assert e == [SextetChar(a), SextetChar(c), Pad, Pad];
    assert SextetValue(e[0]) == Some(a) && SextetValue(e[1]) == Some(c);
    assert SextetValue(e[2]) == None && SextetValue(e[3]) == None;
    assert e[2] == Pad && e[3] == Pad;
    assert DecodeFinal(e) == Some(Bytes3(a, c, 0, 0)[..1]);
    assert c / 16 == b0 % 4;
    assert Bytes3(a, c, 0, 0)[..1] == [a * 4 + c / 16];
  }

  lemma DecodeTwo(b0: byte, b1: byte)
    ensures DecodeFinal(Encode([b0, b1])) == Some([b0, b1])
  {
    var e := Encode([b0, b1]);
    SextetRoundTrip(b0 / 4);
    SextetRoundTrip(b0 % 4 * 16 + b1 / 16);
    SextetRoundTrip(b1 % 16 * 4);
    var a, b, c := b0 / 4, b0 % 4 * 16 + b1 / 16, b1 % 16 * 4;
    assert e == [SextetChar(a), SextetChar(b), SextetChar(c), Pad];
    assert SextetValue(e[0]) == Some(a) && SextetValue(e[1]) == Some(b) && SextetValue(e[2]) == Some(c);
    assert SextetValue(e[3]) == None && e[3] == Pad;
    assert DecodeFinal(e) == Some(Bytes3(a, b, c, 0)[..2]);
    Bytes3RoundTrip(b0, b1, 0);
    assert Bytes3(a, b, c, 0) == [b0, b1, 0];
    assert [b0, b1, 0][..2] == [b0, b1];
  }

  lemma DecodeThree(b0: byte, b1: byte, b2: byte)
    ensures DecodeFull(EncodeQuantum(b0, b1, b2)) == Some([b0, b1, b2])
    ensures DecodeFinal(EncodeQuantum(b0, b1, b2)) == Some([b0, b1, b2])
  {
    SextetRoundTrip(b0 / 4);
    SextetRoundTrip(b0 % 4 * 16 + b1 / 16);
    SextetRoundTrip(b1 % 16 * 4 + b2 / 64);
    SextetRoundTrip(b2 % 64);
    Bytes3RoundTrip(b0, b1, b2);
  }

  lemma {:induction false} DecodeQuantaOfEncode(b: seq<byte>)
    ensures |Encode(b)| % 4 == 0
    ensures DecodeQuanta(Encode(b)) == Some(b)
    decreases |b|
  {
    EncodeWhole(b);
    if |b| > 3 {
      DecodeQuantaOfEncode(b[3..]);
      DecodeThree(b[0], b[1], b[2]);
      EncodeCons(b);
      DecodeQuantaCons(EncodeQuantum(b[0], b[1], b[2]), Encode(b[3..]), [b[0], b[1], b[2]], b[3..]);
      assert b == [b[0], b[1], b[2]] + b[3..];
    } else if |b| == 3 {
      DecodeThree(b[0], b[1], b[2]);
      EncodeCons(b);
      assert b == [b[0], b[1], b[2]];
      assert Encode(b) == EncodeQuantum(b[0], b[1], b[2]);
    } else if |b| == 1 {
      DecodeOne(b[0]);
      assert b == [b[0]];
    } else if |b| == 2 {
      DecodeTwo(b[0], b[1]);
      assert b == [b[0], b[1]];
    }
  }

  /** A full quantum followed by more quanta decodes to its bytes followed by theirs. */
  lemma DecodeQuantaCons(q: seq<byte>, t: seq<byte>, x: seq<byte>, y: seq<byte>)
    requires |q| == 4 && |t| % 4 == 0 && t != []
    requires DecodeFull(q) == Some(x) && DecodeQuanta(t) == Some(y)
    ensures DecodeQuanta(q + t) == Some(x + y)
  {
    assert (q + t)[..4] == q;
    assert (q + t)[4..] == t;
  }

  /** Decoding undoes encoding: every byte string survives the round trip. */
  lemma DecodeEncode(b: seq<byte>)
    ensures Decode(Encode(b)) == Some(b)
  {
    DecodeQuantaOfEncode(b);
    EncodeShape(b);
  }

  /** A byte that is neither alphabet, padding nor line break makes the whole payload corrupt. */
  lemma DecodeRejectsForeign(s: seq<byte>, i: nat)
    requires i < |s|
    requires SextetValue(s[i]).None? && s[i] != Pad && !IsLineBreak(s[i])
    ensures Decode(s) == None
  {
    StripKeeps(s, i);
    var t := StripLineBreaks(s);
    if |t| % 4 == 0 {
      QuantaReject(t, s[i]);
    }
  }

  lemma {:induction false} StripKeeps(s: seq<byte>, i: nat)
    requires i < |s| && !IsLineBreak(s[i])
    ensures s[i] in StripLineBreaks(s)
    decreases |s|
  {
    if i > 0 {
      StripKeeps(s[1..], i - 1);
    }
  }

  lemma {:induction false} QuantaReject(t: seq<byte>, x: byte)
    requires |t| % 4 == 0
    requires x in t && SextetValue(x).None? && x != Pad
    ensures DecodeQuanta(t) == None
    decreases |t|
  {
    var k :| 0 <= k < |t| && t[k] == x;
    if |t| > 4 {
      if k < 4 {
        assert t[..4][k] == x;
      } else {
        assert t[4..][k - 4] == x;
        QuantaReject(t[4..], x);
      }
    }
  }

  /**
   * Go's standard decoder does not check the unused bits of a padded quantum: in "xy==" only
   * the top two bits of y's value are used, so payloads that differ in the rest decode alike.
   */
  lemma PaddingIgnoresLowBits(x: byte, y: byte, y': byte)
    requires SextetValue(x).Some? && SextetValue(y).Some? && SextetValue(y').Some?
    requires SextetValue(y).value / 16 == SextetValue(y').value / 16
    ensures Decode([x, y, Pad, Pad]).Some?
    ensures Decode([x, y, Pad, Pad]) == Decode([x, y', Pad, Pad])
  {
    DecodeTwoPadded(x, y);
    DecodeTwoPadded(x, y');
  }

  /** "xy==" decodes to the one byte made of x's six bits and the top two bits of y's. */
  lemma DecodeTwoPadded(x: byte, y: byte)
    requires SextetValue(x).Some? && SextetValue(y).Some?
    ensures Decode([x, y, Pad, Pad]) == Some([SextetValue(x).value * 4 + SextetValue(y).value / 16])
  {
    var q := [x, y, Pad, Pad];
    StripClean(q);
    assert DecodeQuanta(q) == DecodeFinal(q);
    DecodeFinalTwoPadded(x, y);
  }

  lemma DecodeFinalTwoPadded(x: byte, y: byte)
    requires SextetValue(x).Some? && SextetValue(y).Some?
    ensures DecodeFinal([x, y, Pad, Pad]) == Some([SextetValue(x).value * 4 + SextetValue(y).value / 16])
  {
    var a, b := SextetValue(x).value, SextetValue(y).value;
    var q := [x, y, Pad, Pad];
    assert q[0] == x && q[1] == y && q[2] == Pad && q[3] == Pad;
    assert SextetValue(Pad) == None;
    assert DecodeFinal(q) == Some(Bytes3(a, b, 0, 0)[..1]);
    assert Bytes3(a, b, 0, 0)[..1] == [a * 4 + b / 16];
  }

  /** "QQ==" and "QR==" both decode to "A". */
  lemma NonStrictPadding()
    ensures Decode([81, 82, 61, 61]) == Decode([81, 81, 61, 61]) == Some([65])
  {
    DecodeTwoPadded(81, 82);
    DecodeTwoPadded(81, 81);
  }

  /** A payload whose padding is missing is corrupt. */
  lemma MissingPadding()
    ensures Decode([81, 81]) == None
  {
    StripClean([81, 81]);
  }

  /**
   * A carriage return or line feed is skipped wherever it stands, even between the two
   * padding characters: removing it does not change what the payload decodes to.
   */
  lemma LineBreakSkipped(a: seq<byte>, b: seq<byte>, c: byte)
    requires IsLineBreak(c)
    ensures Decode(a + [c] + b) == Decode(a + b)
  {
    assert StripLineBreaks([c]) == [] by {
      assert [c][1..] == [];
    }
    StripAppend(a, [c]);
    StripAppend(a + [c], b);
    StripAppend(a, b);
    assert StripLineBreaks(a + [c] + b) == StripLineBreaks(a + b);
  }
}
