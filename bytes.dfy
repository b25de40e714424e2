/** Bytes and the UTF-8 view of a string (Rust's `str::as_bytes`). */
module Bytes {

  type byte = x: int | 0 <= x < 256

  /** The UTF-8 encoding of one Unicode scalar value. */
  function Utf8Char(c: char): (r: seq<byte>)
    ensures 1 <= |r| <= 4
    ensures (|r| == 1) <==> (c as int < 0x80)
    ensures |r| == 1 ==> r[0] == c as int
  {
    var n := c as int;
    if n < 0x80 then [n]
    else if n < 0x800 then [0xC0 + n / 64, 0x80 + n % 64]
    else if n < 0x10000 then [0xE0 + n / 4096, 0x80 + (n / 64) % 64, 0x80 + n % 64]
    else [0xF0 + n / 262144, 0x80 + (n / 4096) % 64, 0x80 + (n / 64) % 64, 0x80 + n % 64]
  }

  /** The bytes of a Rust `String`, which is always stored as UTF-8. */
  function Utf8(s: string): (r: seq<byte>)
    ensures |s| <= |r| <= 4 * |s|
  {
    if |s| == 0 then [] else Utf8Char(s[0]) + Utf8(s[1..])
  }

  /** The length of the encoding a lead byte starts. */
  function SequenceLength(lead: byte): (n: nat)
    ensures 1 <= n <= 4
  {
    if lead < 0x80 then 1 else if lead < 0xE0 then 2 else if lead < 0xF0 then 3 else 4
  }

  /** The scalar value spelled by the bytes of one encoded character. */
  function CodePoint(r: seq<byte>): (n: int)
    requires 1 <= |r| <= 4
  {
    if |r| == 1 then r[0] as int
    else if |r| == 2 then (r[0] as int - 0xC0) * 64 + (r[1] as int - 0x80)
    else if |r| == 3 then (r[0] as int - 0xE0) * 4096 + (r[1] as int - 0x80) * 64 + (r[2] as int - 0x80)
    else (r[0] as int - 0xF0) * 262144 + (r[1] as int - 0x80) * 4096 + (r[2] as int - 0x80) * 64 + (r[3] as int - 0x80)
  }

  lemma TwoBytes(n: int)
    requires 0x80 <= n < 0x800
    ensures SequenceLength(0xC0 + n / 64) == 2
    ensures CodePoint([0xC0 + n / 64, 0x80 + n % 64]) == n
  {
  }

  lemma ThreeBytes(n: int)
    requires 0x800 <= n < 0x10000
    ensures SequenceLength(0xE0 + n / 4096) == 3
    ensures CodePoint([0xE0 + n / 4096, 0x80 + (n / 64) % 64, 0x80 + n % 64]) == n
  {
    var k, l := n / 64, n % 64;
    var q, m := k / 64, k % 64;
    assert n == 64 * k + l && k == 64 * q + m;
    assert n / 4096 == q;
  }

  lemma FourBytes(n: int)
    requires 0x10000 <= n < 0x110000
    ensures SequenceLength(0xF0 + n / 262144) == 4
    ensures CodePoint([0xF0 + n / 262144, 0x80 + (n / 4096) % 64, 0x80 + (n / 64) % 64, 0x80 + n % 64]) == n
  {
    var k, l := n / 64, n % 64;
    var j, m := k / 64, k % 64;
    var q, p := j / 64, j % 64;
    assert n == 64 * k + l && k == 64 * j + m && j == 64 * q + p;
    assert n / 4096 == j;
    assert n / 262144 == q;
  }

  /** The lead byte of a character's encoding gives its length, and the bytes
      decode back to the character. */
  lemma Utf8CharDecodes(c: char)
    ensures var r := Utf8Char(c); SequenceLength(r[0]) == |r| && CodePoint(r) == c as int
  {
    var n := c as int;
    if n < 0x80 {
    } else if n < 0x800 {
      TwoBytes(n);
    } else if n < 0x10000 {
      ThreeBytes(n);
    } else {
      FourBytes(n);
    }
  }

  /** Distinct characters have distinct encodings. */
  lemma Utf8CharInjective(c: char, d: char)
    requires Utf8Char(c) == Utf8Char(d)
    ensures c == d
  {
    Utf8CharDecodes(c);
    Utf8CharDecodes(d);
  }

  lemma SplitAt<T>(a: seq<T>, x: seq<T>, b: seq<T>, y: seq<T>)
    requires a + x == b + y && |a| == |b|
    ensures a == b && x == y
  {
    assert a == (a + x)[..|a|] && b == (b + y)[..|b|];
    assert x == (a + x)[|a|..] && y == (b + y)[|b|..];
  }

  /** Distinct strings have distinct UTF-8 bytes, so hashing `as_bytes`
      loses nothing before the hash itself. */
  lemma {:induction false} Utf8Injective(s: string, t: string)
    requires Utf8(s) == Utf8(t)
    ensures s == t
    decreases |s|
  {
    if |s| == 0 || |t| == 0 {
      assert |Utf8(s)| == 0 || |Utf8(t)| == 0;
    } else {
      var a, b := Utf8Char(s[0]), Utf8Char(t[0]);
      assert a + Utf8(s[1..]) == b + Utf8(t[1..]);
      Utf8CharDecodes(s[0]);
      Utf8CharDecodes(t[0]);
      assert a[0] == (a + Utf8(s[1..]))[0] == (b + Utf8(t[1..]))[0] == b[0];
      SplitAt(a, Utf8(s[1..]), b, Utf8(t[1..]));
      Utf8CharInjective(s[0], t[0]);
      Utf8Injective(s[1..], t[1..]);
      assert s == [s[0]] + s[1..] && t == [t[0]] + t[1..];
    }
  }
}
