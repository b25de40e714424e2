/** Standard base64 with padding, as in section 4 of RFC 4648, with the
    strict decoder of the `base64` crate's `general_purpose::STANDARD`
    engine: padding must be canonical and the unused trailing bits of the
    last symbol must be zero. */
module Base64 {
  import opened Bytes
  import opened Outcomes

  type Sextet = x: int | 0 <= x < 64

  const Pad: char := '='

  /** The symbol of the standard alphabet for a 6-bit value. */
  function Symbol(i: Sextet): (c: char)
    ensures c != Pad
  {
    if i < 26 then ('A' as int + i) as char
    else if i < 52 then ('a' as int + (i - 26)) as char
    else if i < 62 then ('0' as int + (i - 52)) as char
    else if i == 62 then '+'
    else '/'
  }

  /** The 6-bit value of a symbol, or None for a character outside the alphabet. */
  function Value(c: char): (r: Option<Sextet>)
    ensures r.Some? ==> Symbol(r.value) == c
    ensures c == Pad ==> r.None?
  {
    if 'A' <= c <= 'Z' then Some(c as int - 'A' as int)
    else if 'a' <= c <= 'z' then Some(c as int - 'a' as int + 26)
    else if '0' <= c <= '9' then Some(c as int - '0' as int + 52)
    else if c == '+' then Some(62)
    else if c == '/' then Some(63)
    else None
  }

  lemma ValueOfSymbol(i: Sextet)
    ensures Value(Symbol(i)) == Some(i)
  {
  }

  /** Three bytes as four symbols. */
  function EncodeTriple(b0: byte, b1: byte, b2: byte): (s: string) {
    [Symbol(b0 / 4), Symbol((b0 % 4) * 16 + b1 / 16), Symbol((b1 % 16) * 4 + b2 / 64), Symbol(b2 % 64)]
  }

  /** A final single byte: two symbols and two pad characters. */
  function EncodeOne(b0: byte): (s: string) {
    [Symbol(b0 / 4), Symbol((b0 % 4) * 16), Pad, Pad]
  }

  /** Two final bytes: three symbols and one pad character. */
  function EncodeTwo(b0: byte, b1: byte): (s: string) {
    [Symbol(b0 / 4), Symbol((b0 % 4) * 16 + b1 / 16), Symbol((b1 % 16) * 4), Pad]
  }

  /** `general_purpose::STANDARD.encode`. */
  function Encode(bs: seq<byte>): (s: string)
    ensures |s| == 4 * ((|bs| + 2) / 3)
    decreases |bs|
  {
    if |bs| == 0 then []
    else if |bs| == 1 then EncodeOne(bs[0])
    else if |bs| == 2 then EncodeTwo(bs[0], bs[1])
    else
      GroupCount(|bs|);
      EncodeTriple(bs[0], bs[1], bs[2]) + Encode(bs[3..])
  }

  /** Three more bytes need one more group of four symbols. */
  lemma GroupCount(n: nat)
    requires n >= 3
    ensures 4 * ((n + 2) / 3) == 4 + 4 * ((n - 3 + 2) / 3)
  {
  }

  /** The three bytes spelled by four 6-bit values. */
  function Bytes3(c0: Sextet, c1: Sextet, c2: Sextet, c3: Sextet): (bs: seq<byte>) {
    [c0 * 4 + c1 / 16, (c1 % 16) * 16 + c2 / 4, (c2 % 4) * 64 + c3]
  }

  /** Four alphabet symbols as three bytes. */
  function DecodeFull(q: string): (r: Option<seq<byte>>)
    requires |q| == 4
  {
    match (Value(q[0]), Value(q[1]), Value(q[2]), Value(q[3]))
    case (Some(c0), Some(c1), Some(c2), Some(c3)) => Some(Bytes3(c0, c1, c2, c3))
    case _ => None
  }

  /** The last group of four characters, which may end in one or two pad
      characters; the bits a padded group does not use must be zero. */
  function DecodeLast(q: string): (r: Option<seq<byte>>)
    requires |q| == 4
  {
    if q[2] == Pad && q[3] == Pad then
      match (Value(q[0]), Value(q[1]))
      case (Some(c0), Some(c1)) =>
        if c1 % 16 == 0 then Some(Bytes3(c0, c1, 0, 0)[..1]) else None
      case _ => None
    else if q[3] == Pad then
      match (Value(q[0]), Value(q[1]), Value(q[2]))
      case (Some(c0), Some(c1), Some(c2)) =>
        if c2 % 4 == 0 then Some(Bytes3(c0, c1, c2, 0)[..2]) else None
      case _ => None
    else DecodeFull(q)
  }

  lemma BytesOfTriple(b0: byte, b1: byte, b2: byte)
    ensures Bytes3(b0 / 4, (b0 % 4) * 16 + b1 / 16, (b1 % 16) * 4 + b2 / 64, b2 % 64) == [b0, b1, b2]
  {
  }

  lemma TripleOfBytes(c0: Sextet, c1: Sextet, c2: Sextet, c3: Sextet)
    ensures var b := Bytes3(c0, c1, c2, c3);
      b[0] / 4 == c0 && (b[0] % 4) * 16 + b[1] / 16 == c1 && (b[1] % 16) * 4 + b[2] / 64 == c2 && b[2] % 64 == c3
  {
  }

  /** `general_purpose::STANDARD.decode`: None stands for the crate's `DecodeError`. */
  function Decode(s: string): (r: Option<seq<byte>>)
    ensures r.Some? && |s| > 0 ==> |r.value| > 0
    ensures r.Some? ==> |s| % 4 == 0
    decreases |s|
  {
    if |s| == 0 then Some([])
    else if |s| < 4 then None
    else if |s| == 4 then DecodeLast(s)
    else
      GroupsOfFour(|s|);
      match (DecodeFull(s[..4]), Decode(s[4..]))
      case (Some(head), Some(tail)) => Some(head + tail)
      case _ => None
  }

  lemma GroupsOfFour(n: nat)
    requires n > 4
    ensures (n - 4) % 4 == 0 ==> n % 4 == 0
  {
  }

  lemma DecodeEncodeOne(b0: byte)
    ensures DecodeLast(EncodeOne(b0)) == Some([b0])
  {
    ValueOfSymbol(b0 / 4);
    var c1 := (b0 % 4) * 16;
    ValueOfSymbol(c1);
    BytesOfTriple(b0, 0, 0);
    assert c1 % 16 == 0;
    var q := EncodeOne(b0);
    assert Value(q[0]) == Some(b0 / 4) && Value(q[1]) == Some(c1);
    assert DecodeLast(q) == Some(Bytes3(b0 / 4, c1, 0, 0)[..1]);
    assert Bytes3(b0 / 4, c1, 0, 0)[..1] == [b0];
  }

  lemma DecodeEncodeTwo(b0: byte, b1: byte)
    ensures DecodeLast(EncodeTwo(b0, b1)) == Some([b0, b1])
  {
    var c2 := (b1 % 16) * 4;
    ValueOfSymbol(b0 / 4);
    ValueOfSymbol((b0 % 4) * 16 + b1 / 16);
    ValueOfSymbol(c2);
    BytesOfTriple(b0, b1, 0);
    assert c2 % 4 == 0;
    var c1 := (b0 % 4) * 16 + b1 / 16;
    var q := EncodeTwo(b0, b1);
    assert Value(q[0]) == Some(b0 / 4) && Value(q[1]) == Some(c1) && Value(q[2]) == Some(c2);
    assert DecodeLast(q) == Some(Bytes3(b0 / 4, c1, c2, 0)[..2]);
    assert Bytes3(b0 / 4, c1, c2, 0)[..2] == [b0, b1];
  }

  lemma DecodeEncodeTriple(b0: byte, b1: byte, b2: byte)
    ensures DecodeFull(EncodeTriple(b0, b1, b2)) == Some([b0, b1, b2])
  {
    ValueOfSymbol(b0 / 4);
    ValueOfSymbol((b0 % 4) * 16 + b1 / 16);
    ValueOfSymbol((b1 % 16) * 4 + b2 / 64);
    ValueOfSymbol(b2 % 64);
    BytesOfTriple(b0, b1, b2);
  }

  /** A full group in front of a decodable rest decodes group by group. */
  lemma DecodeFrontGroup(q: string, rest: string)
    requires |q| == 4 && DecodeFull(q).Some? && Decode(rest).Some?
    ensures Decode(q + rest) == Some(DecodeFull(q).value + Decode(rest).value)
  {
    var s := q + rest;
    assert s[..4] == q && s[4..] == rest;
    if rest == [] {
      assert q[2] != Pad && q[3] != Pad;
      assert s == q;
      assert DecodeFull(q).value + [] == DecodeFull(q).value;
    }
  }

  lemma SplitThree(bs: seq<byte>)
    requires |bs| >= 3
    ensures bs == [bs[0], bs[1], bs[2]] + bs[3..]
  {
  }

  lemma {:induction false} DecodeEncode(bs: seq<byte>)
    ensures Decode(Encode(bs)) == Some(bs)
    decreases |bs|
  {
    if |bs| == 1 {
      assert Encode(bs) == EncodeOne(bs[0]);
      DecodeEncodeOne(bs[0]);
      assert bs == [bs[0]];
    } else if |bs| == 2 {
      assert Encode(bs) == EncodeTwo(bs[0], bs[1]);
      DecodeEncodeTwo(bs[0], bs[1]);
      assert bs == [bs[0], bs[1]];
    } else if |bs| > 2 {
      var q := EncodeTriple(bs[0], bs[1], bs[2]);
      assert Encode(bs) == q + Encode(bs[3..]);
      DecodeEncodeTriple(bs[0], bs[1], bs[2]);
      DecodeEncode(bs[3..]);
      DecodeFrontGroup(q, Encode(bs[3..]));
      SplitThree(bs);
    }
  }

  lemma FullGroupCanonical(q: string)
    requires |q| == 4 && DecodeFull(q).Some?
    ensures var b := DecodeFull(q).value; |b| == 3 && EncodeTriple(b[0], b[1], b[2]) == q
  {
    TripleOfBytes(Value(q[0]).value, Value(q[1]).value, Value(q[2]).value, Value(q[3]).value);
  }

  lemma LastGroupCanonical(q: string)
    requires |q| == 4 && DecodeLast(q).Some?
    ensures Encode(DecodeLast(q).value) == q
  {
    if q[2] == Pad && q[3] == Pad {
      TripleOfBytes(Value(q[0]).value, Value(q[1]).value, 0, 0);
    } else if q[3] == Pad {
      TripleOfBytes(Value(q[0]).value, Value(q[1]).value, Value(q[2]).value, 0);
    } else {
      FullGroupCanonical(q);
      var b := DecodeFull(q).value;
      assert Encode(b) == EncodeTriple(b[0], b[1], b[2]) + Encode(b[3..]);
    }
  }

  /** The strict decoder accepts only the canonical encoding of what it returns. */
  lemma {:induction false} EncodeDecode(s: string)
    requires Decode(s).Some?
    ensures Encode(Decode(s).value) == s
    decreases |s|
  {
    if |s| == 4 {
      LastGroupCanonical(s);
    } else if |s| > 4 {
      var head := DecodeFull(s[..4]).value;
      var tail := Decode(s[4..]).value;
      FullGroupCanonical(s[..4]);
      EncodeDecode(s[4..]);
      assert (head + tail)[3..] == tail;
      assert s == s[..4] + s[4..];
    }
  }
}
