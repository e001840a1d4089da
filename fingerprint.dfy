/**
  The key under which a command is cached and queued: the text "cmd_"
  followed by the lowercase hexadecimal MD5 digest of the command's UTF-8
  encoding. UTF-8 and hexadecimal are modelled exactly; MD5 (RFC 1321) is
  left opaque and is supplied as a function value.
 */
module Fingerprint {

  /** An octet. */
  type Byte = b: int | 0 <= b < 0x100

  /** An MD5 digest: sixteen octets. */
  type Digest = d: seq<Byte> | |d| == 16
    witness [0, 0, 0, 0, 0, 0, 0, 0, 0, 0, 0, 0, 0, 0, 0, 0]

  /** The digest function; its algorithm is not part of this model. */
  type Md5 = seq<Byte> -> Digest

  /** The namespace tag in front of every command key. */
  const Prefix: string := "cmd_"

  // ---------------------------------------------------------------- UTF-8

  /** The UTF-8 encoding of one Unicode scalar value (RFC 3629, section 3). */
  function EncodeChar(c: char): (e: seq<Byte>)
    ensures 1 <= |e| <= 4
  {
    var n := c as int;
    if n < 0x80 then [n]
    else if n < 0x800 then [0xC0 + n / 0x40, 0x80 + n % 0x40]
    else if n < 0x1_0000 then [0xE0 + n / 0x1000, 0x80 + n / 0x40 % 0x40, 0x80 + n % 0x40]
    else [0xF0 + n / 0x4_0000, 0x80 + n / 0x1000 % 0x40, 0x80 + n / 0x40 % 0x40, 0x80 + n % 0x40]
  }

  /** The scalar value that a 1- to 4-octet UTF-8 sequence stands for. */
  function DecodeScalar(e: seq<Byte>): int
    requires 1 <= |e| <= 4
  {
    var b: seq<int> := e;
    if |b| == 1 then b[0]
    else if |b| == 2 then (b[0] - 0xC0) * 0x40 + (b[1] - 0x80)
    else if |b| == 3 then (b[0] - 0xE0) * 0x1000 + (b[1] - 0x80) * 0x40 + (b[2] - 0x80)
    else (b[0] - 0xF0) * 0x4_0000 + (b[1] - 0x80) * 0x1000 + (b[2] - 0x80) * 0x40 + (b[3] - 0x80)
  }

  /** The first octet of an encoding tells how many octets it has. */
  lemma LeadOctet(c: char)
    ensures var e := EncodeChar(c);
      && (|e| == 1 <==> e[0] < 0x80)
      && (|e| == 2 <==> 0xC0 <= e[0] < 0xE0)
      && (|e| == 3 <==> 0xE0 <= e[0] < 0xF0)
      && (|e| == 4 <==> 0xF0 <= e[0])
  {
  }

  /** Decoding an encoded character gives the character back. */
  lemma DecodeEncodeChar(c: char)
    ensures DecodeScalar(EncodeChar(c)) == c as int
  {
    var n := c as int;
    assert n == n / 0x40 * 0x40 + n % 0x40;
    assert n / 0x40 == n / 0x1000 * 0x40 + n / 0x40 % 0x40;
    assert n / 0x1000 == n / 0x4_0000 * 0x40 + n / 0x1000 % 0x40;
  }

  /** No encoding of one character is a proper prefix of another's. */
  lemma EncodeCharPrefixFree(a: char, b: char, x: seq<Byte>, y: seq<Byte>)
    requires EncodeChar(a) + x == EncodeChar(b) + y
    ensures a == b && x == y
  {
    var ea, eb := EncodeChar(a), EncodeChar(b);
    assert ea[0] == (ea + x)[0] == (eb + y)[0] == eb[0];
    LeadOctet(a);
    LeadOctet(b);
    assert ea == (ea + x)[..|ea|] == (eb + y)[..|eb|] == eb;
    assert x == (ea + x)[|ea|..] == (eb + y)[|eb|..] == y;
    DecodeEncodeChar(a);
    DecodeEncodeChar(b);
  }

  /** Python's `str.encode('utf-8')` on text of Unicode scalar values. */
  function Utf8(s: string): seq<Byte>
  {
    if s == [] then [] else EncodeChar(s[0]) + Utf8(s[1..])
  }

  /** Different texts have different UTF-8 encodings. */
  lemma {:induction false} Utf8Injective(a: string, b: string)
    requires Utf8(a) == Utf8(b)
    ensures a == b
  {
    if a != [] && b != [] {
      EncodeCharPrefixFree(a[0], b[0], Utf8(a[1..]), Utf8(b[1..]));
      Utf8Injective(a[1..], b[1..]);
    }
  }

  // ---------------------------------------------------------- hexadecimal

  /** A lowercase hexadecimal digit, as `hexdigest()` writes them. */
  predicate IsHexChar(c: char)
  {
    '0' <= c <= '9' || 'a' <= c <= 'f'
  }

  function HexDigit(n: int): (c: char)
    requires 0 <= n < 16
  {
    if n < 10 then ('0' as int + n) as char else ('a' as int + n - 10) as char
  }

  function HexValue(c: char): int
  {
    if '0' <= c <= '9' then c as int - '0' as int else c as int - 'a' as int + 10
  }

  /** `hexdigest()`: two lowercase hexadecimal characters per octet, high nibble first. */
  function Hex(d: seq<Byte>): (h: string)
    ensures |h| == 2 * |d|
  {
    if d == [] then [] else [HexDigit(d[0] / 16), HexDigit(d[0] % 16)] + Hex(d[1..])
  }

  /** Reads a hexadecimal string back into octet values. */
  function Unhex(h: string): seq<int>
    decreases |h|
  {
    if |h| < 2 then [] else [HexValue(h[0]) * 16 + HexValue(h[1])] + Unhex(h[2..])
  }

  /** Every character `Hex` writes is a lowercase hexadecimal digit. */
  lemma {:induction false} HexChars(d: seq<Byte>)
    ensures forall i :: 0 <= i < |Hex(d)| ==> IsHexChar(Hex(d)[i])
  {
    if d != [] {
      HexChars(d[1..]);
      assert Hex(d) == [HexDigit(d[0] / 16), HexDigit(d[0] % 16)] + Hex(d[1..]);
    }
  }

  /** `Unhex` undoes `Hex`, so `Hex` loses nothing. */
  lemma {:induction false} UnhexHex(d: seq<Byte>)
    ensures Unhex(Hex(d)) == d
  {
    if d != [] {
      var h := Hex(d);
      assert h[2..] == Hex(d[1..]);
      UnhexHex(d[1..]);
    }
  }

  // ------------------------------------------------------------------ key

  /** The glob `cmd_*` that the queue scan matches. */
  predicate IsCmdKey(k: string)
  {
    |k| >= |Prefix| && k[..|Prefix|] == Prefix
  }

  /** `''.join(['cmd_', md5(text.encode('utf-8')).hexdigest()])`. */
  function Key(md5: Md5, text: string): string
  {
    Prefix + Hex(md5(Utf8(text)))
  }

  /** A key is 36 characters: the tag, then 32 lowercase hexadecimal digits. */
  lemma KeyShape(md5: Md5, text: string)
    ensures |Key(md5, text)| == 36
    ensures IsCmdKey(Key(md5, text))
    ensures forall i :: |Prefix| <= i < 36 ==> IsHexChar(Key(md5, text)[i])
  {
    var d := md5(Utf8(text));
    HexChars(d);
    assert forall i :: |Prefix| <= i < 36 ==> Key(md5, text)[i] == Hex(d)[i - |Prefix|];
  }

  /** Two commands share a key exactly when the digests of their encodings collide. */
  lemma KeyCollision(md5: Md5, a: string, b: string)
    ensures Key(md5, a) == Key(md5, b) <==> md5(Utf8(a)) == md5(Utf8(b))
  {
    if Key(md5, a) == Key(md5, b) {
      var da, db := md5(Utf8(a)), md5(Utf8(b));
      assert Hex(da) == Key(md5, a)[|Prefix|..] == Key(md5, b)[|Prefix|..] == Hex(db);
      UnhexHex(da);
      UnhexHex(db);
    }
  }

  /** Where the digest does not collide on two commands, their keys are equal only if the commands are. */
  lemma KeyInjective(md5: Md5, a: string, b: string)
    requires md5(Utf8(a)) == md5(Utf8(b)) ==> Utf8(a) == Utf8(b)
    ensures Key(md5, a) == Key(md5, b) <==> a == b
  {
    KeyCollision(md5, a, b);
    if Key(md5, a) == Key(md5, b) {
      Utf8Injective(a, b);
    }
  }
}
