/** `encodeURIComponent`: a character outside the unreserved set is replaced by the bytes of
    its UTF-8 form (RFC 3629, section 3), each written as a percent sign and two upper-case
    hexadecimal digits (RFC 3986, section 2.1). */
module UriEncoding {

  type byte = b: int | 0 <= b < 256

  /** The characters `encodeURIComponent` leaves unescaped. */
  predicate Unreserved(c: char) {
    || 'A' <= c <= 'Z' || 'a' <= c <= 'z' || '0' <= c <= '9'
    || c == '-' || c == '_' || c == '.' || c == '!' || c == '~' || c == '*' || c == '\'' || c == '(' || c == ')'
  }

  /** The length of a UTF-8 sequence, read off its lead byte. */
  function Utf8Length(lead: byte): nat {
    if lead < 0x80 then 1 else if lead < 0xE0 then 2 else if lead < 0xF0 then 3 else 4
  }

  /** The UTF-8 bytes of a character. */
  function Utf8(c: char): (bytes: seq<byte>)
    ensures 1 <= |bytes| <= 4
    ensures |bytes| == Utf8Length(bytes[0])
  {
    var cp := c as int;
    var q1 := cp / 64;
    var q2 := q1 / 64;
    var q3 := q2 / 64;
    if cp < 0x80 then [cp]
    else if cp < 0x800 then [0xC0 + q1, 0x80 + cp % 64]
    else if cp < 0x10000 then [0xE0 + q2, 0x80 + q1 % 64, 0x80 + cp % 64]
    else [0xF0 + q3, 0x80 + q2 % 64, 0x80 + q1 % 64, 0x80 + cp % 64]
  }

  /** Different characters have different UTF-8 forms. */
  lemma Utf8Injective(c: char, d: char)
    requires Utf8(c) == Utf8(d)
    ensures c == d
  {
    var x, y := c as int, d as int;
    assert x == (x / 64) * 64 + x % 64;
    assert y == (y / 64) * 64 + y % 64;
    assert x / 64 == (x / 64 / 64) * 64 + (x / 64) % 64;
    assert y / 64 == (y / 64 / 64) * 64 + (y / 64) % 64;
    assert x / 64 / 64 == (x / 64 / 64 / 64) * 64 + (x / 64 / 64) % 64;
    assert y / 64 / 64 == (y / 64 / 64 / 64) * 64 + (y / 64 / 64) % 64;
  }

  function HexDigit(d: int): char
    requires 0 <= d < 16
  {
    if d < 10 then ('0' as int + d) as char else ('A' as int + d - 10) as char
  }

  /** `%XY` for one byte. */
  function PercentByte(b: byte): string {
    ['%', HexDigit(b / 16), HexDigit(b % 16)]
  }

  function PercentBytes(bytes: seq<byte>): (r: string)
    ensures |r| == 3 * |bytes|
  {
    if bytes == [] then [] else PercentByte(bytes[0]) + PercentBytes(bytes[1..])
  }

  /** The hexadecimal digits of a byte name it. */
  lemma PercentByteInjective(a: byte, b: byte)
    requires PercentByte(a) == PercentByte(b)
    ensures a == b
  {
    assert HexDigit(a / 16) == HexDigit(b / 16) && HexDigit(a % 16) == HexDigit(b % 16);
    assert a / 16 == b / 16 && a % 16 == b % 16;
  }

  /** Byte strings of one length with the same percent-encoding are equal. */
  lemma {:induction false} PercentBytesInjective(a: seq<byte>, b: seq<byte>)
    requires |a| == |b| && PercentBytes(a) == PercentBytes(b)
    ensures a == b
  {
    if a != [] {
      var pa, pb := PercentBytes(a), PercentBytes(b);
      assert pa[..3] == PercentByte(a[0]) && pb[..3] == PercentByte(b[0]);
      PercentByteInjective(a[0], b[0]);
      assert pa[3..] == PercentBytes(a[1..]) && pb[3..] == PercentBytes(b[1..]);
      PercentBytesInjective(a[1..], b[1..]);
      assert a == [a[0]] + a[1..] && b == [b[0]] + b[1..];
    }
  }

  /** How `encodeURIComponent` writes one character. */
  function EncodeChar(c: char): (r: string)
    ensures |r| >= 1
    ensures Unreserved(c) <==> |r| == 1
  {
    if Unreserved(c) then [c] else PercentBytes(Utf8(c))
  }

  /** The encoding of a character is never a proper prefix of another's, and two characters
      with the same encoding are the same character: reading an encoded string from the left
      recovers the first character and the remainder. */
  lemma EncodeCharPrefixFree(c: char, d: char, x: string, y: string)
    requires EncodeChar(c) + x == EncodeChar(d) + y
    ensures c == d && x == y
  {
    var ec, ed := EncodeChar(c), EncodeChar(d);
    assert ec[0] == (ec + x)[0] == (ed + y)[0] == ed[0];
    if Unreserved(c) || Unreserved(d) {
      assert ec[0] == if Unreserved(c) then c else '%';
      assert ed[0] == if Unreserved(d) then d else '%';
      assert c == d;
    } else {
      var bc, bd := Utf8(c), Utf8(d);
      assert ec[..3] == (ec + x)[..3] == (ed + y)[..3] == ed[..3];
      assert ec[..3] == PercentByte(bc[0]) && ed[..3] == PercentByte(bd[0]);
      PercentByteInjective(bc[0], bd[0]);
      assert |ec| == |ed|;
      assert ec == (ec + x)[..|ec|] == (ed + y)[..|ed|] == ed;
      PercentBytesInjective(bc, bd);
      Utf8Injective(c, d);
    }
    assert x == (ec + x)[|ec|..] == (ed + y)[|ed|..] == y;
  }

  /** `encodeURIComponent(s)`. It never shortens a string. */
  function Encode(s: string): (r: string)
    ensures |r| >= |s|
  {
    if s == [] then [] else EncodeChar(s[0]) + Encode(s[1..])
  }

  /** Encoding keeps the length of a string exactly when every character is unreserved. */
  lemma {:induction false} EncodeLengthIff(s: string)
    ensures |Encode(s)| == |s| <==> forall i :: 0 <= i < |s| ==> Unreserved(s[i])
  {
    if s != [] {
      EncodeLengthIff(s[1..]);
      assert forall i :: 1 <= i < |s| ==> s[i] == s[1..][i - 1];
    }
  }

  /** Encoding is injective. */
  lemma {:induction false} EncodeInjective(s: string, t: string)
    requires Encode(s) == Encode(t)
    ensures s == t
  {
    if s != [] && t != [] {
      EncodeCharPrefixFree(s[0], t[0], Encode(s[1..]), Encode(t[1..]));
      EncodeInjective(s[1..], t[1..]);
      assert s == [s[0]] + s[1..] && t == [t[0]] + t[1..];
    }
  }

  /** A string is its own encoding exactly when all its characters are unreserved. */
  lemma {:induction false} EncodeFixedIff(s: string)
    ensures Encode(s) == s <==> forall i :: 0 <= i < |s| ==> Unreserved(s[i])
  {
    EncodeLengthIff(s);
    if s != [] && forall i :: 0 <= i < |s| ==> Unreserved(s[i]) {
      assert forall i :: 0 <= i < |s[1..]| ==> Unreserved(s[1..][i]);
      EncodeFixedIff(s[1..]);
      assert s == [s[0]] + s[1..];
    }
  }

  /** Encoding a string that starts with `c` writes `c` first. */
  lemma EncodeCons(c: char, s: string)
    ensures Encode([c] + s) == EncodeChar(c) + Encode(s)
  {
    assert ([c] + s)[0] == c && ([c] + s)[1..] == s;
  }

  lemma Associative(x: string, y: string, z: string)
    ensures x + (y + z) == (x + y) + z
  {
  }

  /** A non-empty string is its first character followed by the rest, also before `b`. */
  lemma HeadAndRest(a: string, b: string)
    requires a != []
    ensures a == [a[0]] + a[1..]
    ensures a + b == [a[0]] + (a[1..] + b)
  {
  }

  /** The step of `EncodeAppend`: from the rest of `a` to `a`. */
  lemma EncodeAppendStep(a: string, b: string)
    requires a != []
    requires Encode(a[1..] + b) == Encode(a[1..]) + Encode(b)
    ensures Encode(a + b) == Encode(a) + Encode(b)
  {
    var c, rest := a[0], a[1..];
    HeadAndRest(a, b);
    EncodeCons(c, rest + b);
    EncodeCons(c, rest);
    Associative(EncodeChar(c), Encode(rest), Encode(b));
  }

  /** Encoding works character by character, so it distributes over concatenation. */
  lemma {:induction false} EncodeAppend(a: string, b: string)
    ensures Encode(a + b) == Encode(a) + Encode(b)
  {
    if a == [] {
      assert a + b == b;
    } else {
      EncodeAppend(a[1..], b);
      EncodeAppendStep(a, b);
    }
  }

  /** Two words of unreserved characters joined by a space are written with `%20` between them. */
  lemma EncodeSpaced(a: string, b: string)
    requires forall i :: 0 <= i < |a| ==> Unreserved(a[i])
    requires forall i :: 0 <= i < |b| ==> Unreserved(b[i])
    ensures Encode(a + (" " + b)) == a + ("%20" + b)
  {
    EncodeAppend(a, " " + b);
    EncodeAppend(" ", b);
    EncodeFixedIff(a);
    EncodeFixedIff(b);
    EncodeSpace();
  }

  /** A space is written `%20`. */
  lemma EncodeSpace()
    ensures Encode(" ") == "%20"
  {
    assert Utf8(' ') == [32];
    assert PercentByte(32) == "%20";
  }
}
