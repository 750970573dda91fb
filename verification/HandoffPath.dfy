/**
 * Requested-path safety of the trusted handoff: which relative paths are accepted
 * (`normalizeRelativePath`) and which of them an allowlist covers (`isAllowedPath`).
 *
 * A string is a sequence of Unicode scalar values. Everything but plain ASCII is refused by the
 * character check, so lone surrogates, which this representation lacks, make no difference.
 */
module HandoffPath {
  import opened Common

  // ---------------------------------------------------------------------------------------------
  // Splitting at a separator
  // ---------------------------------------------------------------------------------------------

  /** `s.split('/')`: the parts between the slashes, never none. */
  function Split(s: string): (r: seq<string>)
    ensures |r| > 0
  {
    if s == "" then [""]
    else
      var t := Split(s[1..]);
      if s[0] == '/' then [""] + t else [[s[0]] + t[0]] + t[1..]
  }

  /** `parts.join('/')`. */
  function Join(parts: seq<string>): string
    requires |parts| > 0
  {
    if |parts| == 1 then parts[0] else parts[0] + "/" + Join(parts[1..])
  }

  /** The part before the first `?`, or everything. */
  function BeforeMark(s: string): (r: string)
    ensures r <= s && '?' !in r
  {
    if s == "" || s[0] == '?' then "" else [s[0]] + BeforeMark(s[1..])
  }

  /** The part after the first `?`, or nothing. */
  function AfterMark(s: string): (r: string)
    ensures s == BeforeMark(s) || s == BeforeMark(s) + "?" + r
  {
    if s == "" then ""
    else if s[0] == '?' then s[1..]
    else
      var r := AfterMark(s[1..]);
      assert s == [s[0]] + s[1..];
      assert s[1..] == BeforeMark(s[1..]) + "?" + r ==> s == ([s[0]] + BeforeMark(s[1..])) + "?" + r;
      r
  }

  lemma {:induction false} MarkSplits(p: string, q: string)
    requires '?' !in p
    ensures BeforeMark(p) == p && AfterMark(p) == ""
    ensures BeforeMark(p + "?" + q) == p && AfterMark(p + "?" + q) == q
  {
    if p != "" {
      MarkSplits(p[1..], q);
      assert (p + "?" + q)[1..] == p[1..] + "?" + q;
      assert p == [p[0]] + p[1..];
    }
  }

  lemma {:induction false} JoinOfSplit(s: string)
    ensures Join(Split(s)) == s
    ensures forall i :: 0 <= i < |Split(s)| ==> '/' !in Split(s)[i]
  {
    if s != "" {
      JoinOfSplit(s[1..]);
      var t := Split(s[1..]);
      if s[0] == '/' {
        assert ([""] + t)[1..] == t;
      } else if |t| > 1 {
        assert ([[s[0]] + t[0]] + t[1..])[1..] == t[1..];
        assert [s[0]] + (t[0] + "/" + Join(t[1..])) == ([s[0]] + t[0]) + "/" + Join(t[1..]);
      }
    }
  }

  lemma {:induction false} SplitOfPart(a: string)
    requires '/' !in a
    ensures Split(a) == [a]
  {
    if a != "" {
      SplitOfPart(a[1..]);
      assert a == [a[0]] + a[1..];
    }
  }

  lemma {:induction false} SplitOfParts(a: string, s: string)
    requires '/' !in a
    ensures Split(a + "/" + s) == [a] + Split(s)
  {
    if a == "" {
      assert ("" + "/" + s)[1..] == s;
    } else {
      SplitOfParts(a[1..], s);
      assert (a + "/" + s)[1..] == a[1..] + "/" + s;
      assert a == [a[0]] + a[1..];
    }
  }

  lemma {:induction false} SplitOfJoin(parts: seq<string>)
    requires |parts| > 0
    requires forall i :: 0 <= i < |parts| ==> '/' !in parts[i]
    ensures Split(Join(parts)) == parts
    decreases |parts|
  {
    if |parts| == 1 {
      SplitOfPart(parts[0]);
      assert parts == [parts[0]];
    } else {
      SplitOfJoin(parts[1..]);
      SplitOfParts(parts[0], Join(parts[1..]));
      assert parts == [parts[0]] + parts[1..];
    }
  }

  // ---------------------------------------------------------------------------------------------
  // decodeURIComponent
  // ---------------------------------------------------------------------------------------------

  function HexDigit(c: char): Option<nat>
  {
    if '0' <= c <= '9' then Some((c - '0') as nat)
    else if 'A' <= c <= 'F' then Some((c - 'A') as nat + 10)
    else if 'a' <= c <= 'f' then Some((c - 'a') as nat + 10)
    else None
  }

  /** The byte written `%XX` at position `i`, if there is one. */
  function Octet(s: string, i: nat): (b: Option<nat>)
    ensures b.Some? ==> b.value < 256
  {
    if i + 2 < |s| && s[i] == '%' && HexDigit(s[i + 1]).Some? && HexDigit(s[i + 2]).Some?
    then Some(16 * HexDigit(s[i + 1]).value + HexDigit(s[i + 2]).value)
    else None
  }

  predicate IsTail(b: Option<nat>)
  {
    b.Some? && 0x80 <= b.value < 0xC0
  }

  /** The low six bits of the continuation byte at position `i`. */
  function Tail(s: string, i: nat): (v: nat)
    requires IsTail(Octet(s, i))
    ensures v < 64
  {
    Octet(s, i).value - 0x80
  }

  /** A decoded character and the number of code units it was written with. */
  datatype Piece = Piece(c: char, used: nat)

  /** The code points of the longer sequences, section 3 of RFC 3629: no overlong form, no surrogate. */
  function CodePoint2(b: nat, c: nat): (v: Option<nat>)
    requires 0xC0 <= b < 0xE0 && c < 64
    ensures v.Some? ==> 0x80 <= v.value < 0x800
  {
    var v := (b - 0xC0) * 64 + c;
    if 0x80 <= v then Some(v) else None
  }

  function CodePoint3(b: nat, c: nat, d: nat): (v: Option<nat>)
    requires 0xE0 <= b < 0xF0 && c < 64 && d < 64
    ensures v.Some? ==> 0x800 <= v.value < 0x10000 && !(0xD800 <= v.value < 0xE000)
  {
    var v := (b - 0xE0) * 4096 + c * 64 + d;
    if 0x800 <= v && !(0xD800 <= v < 0xE000) then Some(v) else None
  }

  function CodePoint4(b: nat, c: nat, d: nat, e: nat): (v: Option<nat>)
    requires 0xF0 <= b < 0xF8 && c < 64 && d < 64 && e < 64
    ensures v.Some? ==> 0x10000 <= v.value <= 0x10FFFF
  {
    var v := (b - 0xF0) * 262144 + c * 4096 + d * 64 + e;
    if 0x10000 <= v <= 0x10FFFF then Some(v) else None
  }

  /** Where `n` triples stand there is no slash. */
  lemma {:induction false} NoSlashInTriples(s: string, n: nat)
    requires n <= 4 && forall k | 0 <= k < n :: Octet(s, 3 * k).Some?
    ensures 3 * n <= |s| && forall i :: 0 <= i < 3 * n ==> s[i] != '/'
    decreases n
  {
    if n > 0 {
      NoSlashInTriples(s, n - 1);
      var k := n - 1;
      assert Octet(s, 3 * k).Some?;
      assert s[3 * k] != '/' && s[3 * k + 1] != '/' && s[3 * k + 2] != '/';
    }
  }

  /** The number of triples and the code point of the sequence at the front, or None when it is malformed. */
  function DecodeSequence(s: string): (r: Option<(nat, nat)>)
    ensures r.Some? ==> 1 <= r.value.0 <= 4 && forall k | 0 <= k < r.value.0 :: Octet(s, 3 * k).Some?
    ensures r.Some? ==> r.value.1 < 0xD800 || 0xE000 <= r.value.1 <= 0x10FFFF
  {
    var b := Octet(s, 0);
    if b.None? then None
    else if b.value < 0x80 then Some((1, b.value))
    else if 0xC0 <= b.value < 0xE0 && IsTail(Octet(s, 3)) then
      var v := CodePoint2(b.value, Tail(s, 3));
      if v.Some? then Some((2, v.value)) else None
    else if 0xE0 <= b.value < 0xF0 && IsTail(Octet(s, 3)) && IsTail(Octet(s, 6)) then
      var v := CodePoint3(b.value, Tail(s, 3), Tail(s, 6));
      if v.Some? then Some((3, v.value)) else None
    else if 0xF0 <= b.value < 0xF8 && IsTail(Octet(s, 3)) && IsTail(Octet(s, 6)) && IsTail(Octet(s, 9)) then
      var v := CodePoint4(b.value, Tail(s, 3), Tail(s, 6), Tail(s, 9));
      if v.Some? then Some((4, v.value)) else None
    else None
  }

  /** The UTF-8 sequence written with `%XX` triples at the front, or None when it is malformed. */
  function DecodePiece(s: string): (r: Option<Piece>)
    requires s != "" && s[0] == '%'
    ensures r.Some? ==> 3 <= r.value.used <= |s|
    ensures r.Some? ==> forall i :: 0 <= i < r.value.used ==> s[i] != '/'
  {
    var r := DecodeSequence(s);
    if r.None? then None
    else
      NoSlashInTriples(s, r.value.0);
      Some(Piece(r.value.1 as char, 3 * r.value.0))
  }

  /** Percent-decoding, once; None where the library throws. */
  function Decode(s: string): Option<string>
    decreases |s|
  {
    if s == "" then Some("")
    else
      var first := if s[0] == '%' then DecodePiece(s) else Some(Piece(s[0], 1));
      if first.None? then None
      else
        var rest := Decode(s[first.value.used..]);
        if rest.None? then None else Some([first.value.c] + rest.value)
  }

  function Upper(d: nat): (c: char)
    requires d < 16
    ensures HexDigit(c) == Some(d)
  {
    if d < 10 then '0' + d as char else 'A' + (d - 10) as char
  }

  /** One byte as `%XX`. */
  function Triple(b: nat): (s: string)
    requires b < 256
    ensures |s| == 3
  {
    ['%', Upper(b / 16), Upper(b % 16)]
  }

  /** The bytes of a character in UTF-8 (section 3 of RFC 3629). */
  function Utf8(c: char): (bytes: seq<nat>)
    ensures 1 <= |bytes| <= 4
    ensures forall i :: 0 <= i < |bytes| ==> bytes[i] < 256
  {
    var v := c as int;
    if v < 0x80 then [v]
    else if v < 0x800 then [0xC0 + v / 64, 0x80 + v % 64]
    else if v < 0x10000 then [0xE0 + v / 4096, 0x80 + v / 64 % 64, 0x80 + v % 64]
    else [0xF0 + v / 262144, 0x80 + v / 4096 % 64, 0x80 + v / 64 % 64, 0x80 + v % 64]
  }

  function Triples(bytes: seq<nat>): (s: string)
    requires forall i :: 0 <= i < |bytes| ==> bytes[i] < 256
    ensures |s| == 3 * |bytes|
  {
    if bytes == [] then "" else Triple(bytes[0]) + Triples(bytes[1..])
  }

  /** Every character escaped. */
  function Escaped(s: string): string
  {
    if s == "" then "" else Triples(Utf8(s[0])) + Escaped(s[1..])
  }

  lemma {:induction false} OctetOfTriple(b: nat, rest: string)
    requires b < 256
    ensures Octet(Triple(b) + rest, 0) == Some(b)
  {
  }

  lemma {:induction false} ShiftedOctet(head: string, tail: string, i: nat)
    requires |head| == 3
    ensures Octet(head + tail, 3 + i) == Octet(tail, i)
  {
  }

  lemma {:induction false} FirstTriple(bytes: seq<nat>, rest: string)
    requires bytes != [] && forall i :: 0 <= i < |bytes| ==> bytes[i] < 256
    ensures Triples(bytes) + rest == Triple(bytes[0]) + (Triples(bytes[1..]) + rest)
  {
  }

  lemma {:induction false} OctetOfTriples(bytes: seq<nat>, k: nat, rest: string)
    requires k < |bytes|
    requires forall i :: 0 <= i < |bytes| ==> bytes[i] < 256
    ensures Octet(Triples(bytes) + rest, 3 * k) == Some(bytes[k])
    decreases k
  {
    FirstTriple(bytes, rest);
    var tail := Triples(bytes[1..]) + rest;
    if k == 0 {
      OctetOfTriple(bytes[0], tail);
    } else {
      OctetOfTriples(bytes[1..], k - 1, rest);
      ShiftedOctet(Triple(bytes[0]), tail, 3 * (k - 1));
    }
  }

  /** Splitting a number into base-64 digits and putting it back. */
  lemma {:induction false} SixtyFours(v: nat)
    ensures v == v / 64 * 64 + v % 64
    ensures v / 4096 == v / 64 / 64
    ensures v / 262144 == v / 64 / 64 / 64
  {
  }

  lemma {:induction false} PieceOfTwo(s: string, v: nat)
    requires 6 <= |s| && s[0] == '%' && 0x80 <= v < 0x800
    requires Octet(s, 0) == Some(0xC0 + v / 64) && Octet(s, 3) == Some(0x80 + v % 64)
    ensures DecodePiece(s) == Some(Piece(v as char, 6))
  {
  }

  lemma {:induction false} PieceOfThree(s: string, v: nat)
    requires 9 <= |s| && s[0] == '%' && 0x800 <= v < 0x10000 && !(0xD800 <= v < 0xE000)
    requires Octet(s, 0) == Some(0xE0 + v / 4096)
    requires Octet(s, 3) == Some(0x80 + v / 64 % 64) && Octet(s, 6) == Some(0x80 + v % 64)
    ensures DecodePiece(s) == Some(Piece(v as char, 9))
  {
    SixtyFours(v);
    SixtyFours(v / 64);
  }

  lemma {:induction false} PieceOfFour(s: string, v: nat)
    requires 12 <= |s| && s[0] == '%' && 0x10000 <= v <= 0x10FFFF
    requires Octet(s, 0) == Some(0xF0 + v / 262144)
    requires Octet(s, 3) == Some(0x80 + v / 4096 % 64)
    requires Octet(s, 6) == Some(0x80 + v / 64 % 64) && Octet(s, 9) == Some(0x80 + v % 64)
    ensures DecodePiece(s) == Some(Piece(v as char, 12))
  {
    SixtyFours(v);
    SixtyFours(v / 64);
    SixtyFours(v / 4096);
  }

  /** The text starts with the escapes of these bytes. */
  ghost predicate IsOctets(s: string, bytes: seq<nat>)
  {
    forall k :: 0 <= k < |bytes| ==> Octet(s, 3 * k) == Some(bytes[k])
  }

  /** The triples of a character are found at positions 0, 3, 6 and 9. */
  lemma {:induction false} OctetsOfUtf8(c: char, rest: string, s: string)
    requires s == Triples(Utf8(c)) + rest
    ensures |s| >= 3 * |Utf8(c)| && s[0] == '%'
    ensures IsOctets(s, Utf8(c))
  {
    forall k | 0 <= k < |Utf8(c)|
      ensures Octet(s, 3 * k) == Some(Utf8(c)[k])
    {
      OctetOfTriples(Utf8(c), k, rest);
    }
    assert s[0] == Triple(Utf8(c)[0])[0];
  }

  lemma {:induction false} PieceOfUtf8(c: char, rest: string, s: string)
    requires s == Triples(Utf8(c)) + rest
    ensures DecodePiece(s) == Some(Piece(c, 3 * |Utf8(c)|))
  {
    OctetsOfUtf8(c, rest, s);
    OctetOf(s, Utf8(c), 0);
    PieceOfOctets(c, s);
  }

  lemma {:induction false} PieceOfOctets(c: char, s: string)
    requires s != "" && s[0] == '%' && IsOctets(s, Utf8(c))
    ensures DecodePiece(s) == Some(Piece(c, 3 * |Utf8(c)|))
  {
    var v := c as int;
    OctetOf(s, Utf8(c), 0);
    if 0x80 <= v < 0x800 {
      OctetOf(s, Utf8(c), 1);
      PieceOfTwo(s, v);
    } else if 0x800 <= v < 0x10000 {
      OctetOf(s, Utf8(c), 1);
      OctetOf(s, Utf8(c), 2);
      PieceOfThree(s, v);
    } else if 0x10000 <= v {
      OctetOf(s, Utf8(c), 1);
      OctetOf(s, Utf8(c), 2);
      OctetOf(s, Utf8(c), 3);
      PieceOfFour(s, v);
    }
  }

  lemma {:induction false} OctetOf(s: string, bytes: seq<nat>, k: nat)
    requires IsOctets(s, bytes) && k < |bytes|
    ensures Octet(s, 3 * k) == Some(bytes[k])
  {
  }

  /** Decoding undoes escaping, for every text and every kind of character. */
  lemma {:induction false} DecodeOfEscaped(s: string)
    ensures Decode(Escaped(s)) == Some(s)
  {
    if s != "" {
      DecodeOfEscaped(s[1..]);
      PieceOfUtf8(s[0], Escaped(s[1..]), Escaped(s));
      assert Escaped(s)[3 * |Utf8(s[0])|..] == Escaped(s[1..]);
      assert s == [s[0]] + s[1..];
    }
  }

  /** The hexadecimal digit of a value under 16, in either case. */
  predicate Spells(c: char, d: nat)
  {
    d < 16 && (c == "0123456789ABCDEF"[d] || c == "0123456789abcdef"[d])
  }

  /** The byte `b` written as a percent sign and two hexadecimal digits at position `i`. */
  predicate IsTriple(s: string, i: nat, b: nat)
  {
    b < 256 && i + 2 < |s| && s[i] == '%' && Spells(s[i + 1], b / 16) && Spells(s[i + 2], b % 16)
  }

  /**
   * `s` writes `t` with some characters escaped: every character stands for itself, unless it is a
   * percent sign, or is written as the triples of its bytes in UTF-8.
   */
  ghost predicate Writes(s: string, t: string)
    decreases |t|
  {
    if t == "" then s == ""
    else
      var bytes := Utf8(t[0]);
      || (s != "" && s[0] == t[0] != '%' && Writes(s[1..], t[1..]))
      || (3 * |bytes| <= |s| && (forall k | 0 <= k < |bytes| :: IsTriple(s, 3 * k, bytes[k])) && Writes(s[3 * |bytes|..], t[1..]))
  }

  lemma {:induction false} HexIff(c: char, d: nat)
    ensures HexDigit(c) == Some(d) <==> Spells(c, d)
  {
    if d < 16 {
      assert "0123456789ABCDEF"[d] == (if d < 10 then '0' + d as char else 'A' + (d - 10) as char);
      assert "0123456789abcdef"[d] == (if d < 10 then '0' + d as char else 'a' + (d - 10) as char);
    }
  }

  lemma {:induction false} OctetIff(s: string, i: nat, b: nat)
    ensures Octet(s, i) == Some(b) <==> IsTriple(s, i, b)
  {
    if i + 2 < |s| && b < 256 {
      HexIff(s[i + 1], b / 16);
      HexIff(s[i + 2], b % 16);
      if HexDigit(s[i + 1]).Some? && HexDigit(s[i + 2]).Some? {
        HexUnder16(s[i + 2]);
        Nibbles(HexDigit(s[i + 1]).value, HexDigit(s[i + 2]).value, b);
      }
    }
  }

  lemma {:induction false} HexUnder16(c: char)
    ensures HexDigit(c).Some? ==> HexDigit(c).value < 16
  {
  }

  lemma {:induction false} Nibbles(x: nat, y: nat, b: nat)
    requires y < 16
    ensures 16 * x + y == b <==> x == b / 16 && y == b % 16
  {
  }

  lemma {:induction false} OctetsIff(s: string, bytes: seq<nat>)
    ensures IsOctets(s, bytes) <==> forall k | 0 <= k < |bytes| :: IsTriple(s, 3 * k, bytes[k])
  {
    forall k | 0 <= k < |bytes| ensures Octet(s, 3 * k) == Some(bytes[k]) <==> IsTriple(s, 3 * k, bytes[k]) {
      OctetIff(s, 3 * k, bytes[k]);
    }
  }

  lemma {:induction false} BytesOfTwo(b: nat, c: nat)
    requires 0xC0 <= b < 0xE0 && c < 64 && CodePoint2(b, c).Some?
    ensures Utf8(CodePoint2(b, c).value as char) == [b, 0x80 + c]
  {
  }

  lemma {:induction false} Digits64(a: nat, b: nat)
    requires b < 64
    ensures (a * 64 + b) / 64 == a && (a * 64 + b) % 64 == b
  {
  }

  lemma {:induction false} BytesOfThree(b: nat, c: nat, d: nat)
    requires 0xE0 <= b < 0xF0 && c < 64 && d < 64 && CodePoint3(b, c, d).Some?
    ensures Utf8(CodePoint3(b, c, d).value as char) == [b, 0x80 + c, 0x80 + d]
  {
    var v := CodePoint3(b, c, d).value;
    Digits64((b - 0xE0) * 64 + c, d);
    Digits64(b - 0xE0, c);
    SixtyFours(v);
    assert v == ((b - 0xE0) * 64 + c) * 64 + d;
  }

  lemma {:induction false} BytesOfFour(b: nat, c: nat, d: nat, e: nat)
    requires 0xF0 <= b < 0xF8 && c < 64 && d < 64 && e < 64 && CodePoint4(b, c, d, e).Some?
    ensures Utf8(CodePoint4(b, c, d, e).value as char) == [b, 0x80 + c, 0x80 + d, 0x80 + e]
  {
    var v := CodePoint4(b, c, d, e).value;
    var w := ((b - 0xF0) * 64 + c) * 64 + d;
    Digits64(w, e);
    Digits64((b - 0xF0) * 64 + c, d);
    Digits64(b - 0xF0, c);
    SixtyFours(v);
    assert v == w * 64 + e;
  }

  /** The bytes of the sequence that `DecodeSequence` reads. */
  function SequenceBytes(s: string, n: nat): seq<nat>
    requires 1 <= n <= 4 && Octet(s, 0).Some?
    requires (n > 1 ==> IsTail(Octet(s, 3))) && (n > 2 ==> IsTail(Octet(s, 6))) && (n > 3 ==> IsTail(Octet(s, 9)))
  {
    [Octet(s, 0).value] + (if n > 1 then [Octet(s, 3).value] else []) + (if n > 2 then [Octet(s, 6).value] else [])
    + (if n > 3 then [Octet(s, 9).value] else [])
  }

  lemma {:induction false} SequenceShape(s: string)
    requires DecodeSequence(s).Some?
    ensures var n := DecodeSequence(s).value.0;
      && Octet(s, 0).Some? && (n > 1 ==> IsTail(Octet(s, 3))) && (n > 2 ==> IsTail(Octet(s, 6))) && (n > 3 ==> IsTail(Octet(s, 9)))
  {
  }

  lemma {:induction false} SequenceIsUtf8(s: string)
    requires DecodeSequence(s).Some?
    ensures var (n, v) := DecodeSequence(s).value;
      && Octet(s, 0).Some? && (n > 1 ==> IsTail(Octet(s, 3))) && (n > 2 ==> IsTail(Octet(s, 6))) && (n > 3 ==> IsTail(Octet(s, 9)))
      && Utf8(v as char) == SequenceBytes(s, n)
  {
    var b := Octet(s, 0).value;
    SequenceShape(s);
    if 0xC0 <= b < 0xE0 { BytesOfTwo(b, Tail(s, 3)); }
    if 0xE0 <= b < 0xF0 { BytesOfThree(b, Tail(s, 3), Tail(s, 6)); }
    if 0xF0 <= b { BytesOfFour(b, Tail(s, 3), Tail(s, 6), Tail(s, 9)); }
  }

  /** What is decoded from the front is written there in UTF-8. */
  lemma {:induction false} PieceIsWritten(s: string)
    requires s != "" && s[0] == '%' && DecodePiece(s).Some?
    ensures var p := DecodePiece(s).value; p.used == 3 * |Utf8(p.c)| && IsOctets(s, Utf8(p.c))
  {
    var n := DecodeSequence(s).value.0;
    SequenceIsUtf8(s);
    OctetsAre(s, SequenceBytes(s, n));
  }

  lemma {:induction false} OctetsAre(s: string, bytes: seq<nat>)
    requires |bytes| <= 4
    requires |bytes| > 0 ==> Octet(s, 0) == Some(bytes[0])
    requires |bytes| > 1 ==> Octet(s, 3) == Some(bytes[1])
    requires |bytes| > 2 ==> Octet(s, 6) == Some(bytes[2])
    requires |bytes| > 3 ==> Octet(s, 9) == Some(bytes[3])
    ensures IsOctets(s, bytes)
  {
  }

  /**
   * Decoding succeeds exactly on the texts that write some text with escapes, and gives that text:
   * overlong forms, surrogates, stray bytes and lone percent signs are refused.
   */
  lemma {:induction false} DecodeIff(s: string, t: string)
    ensures Decode(s) == Some(t) <==> Writes(s, t)
    decreases |s|, |t|
  {
    if Decode(s) == Some(t) { DecodedIsWritten(s, t); }
    if Writes(s, t) { WrittenDecodes(s, t); }
  }

  lemma {:induction false} DecodedIsWritten(s: string, t: string)
    requires Decode(s) == Some(t)
    ensures Writes(s, t)
    decreases |s|
  {
    if s != "" {
      var first := if s[0] == '%' then DecodePiece(s).value else Piece(s[0], 1);
      var rest := Decode(s[first.used..]).value;
      assert t == [first.c] + rest && t[1..] == rest;
      DecodedIsWritten(s[first.used..], rest);
      if s[0] == '%' {
        PieceIsWritten(s);
        OctetsIff(s, Utf8(first.c));
      }
    }
  }

  lemma {:induction false} WrittenDecodes(s: string, t: string)
    requires Writes(s, t)
    ensures Decode(s) == Some(t)
    decreases |t|
  {
    if t != "" {
      var bytes := Utf8(t[0]);
      if s != "" && s[0] == t[0] != '%' && Writes(s[1..], t[1..]) {
        WrittenDecodes(s[1..], t[1..]);
      } else {
        assert IsTriple(s, 3 * 0, bytes[0]);
        OctetsIff(s, bytes);
        PieceOfOctets(t[0], s);
        WrittenDecodes(s[3 * |bytes|..], t[1..]);
      }
      assert t == [t[0]] + t[1..];
    }
  }

  // ---------------------------------------------------------------------------------------------
  // normalizeRelativePath
  // ---------------------------------------------------------------------------------------------

  const MAX_LENGTH := 512

  predicate IsAllowedChar(c: char)
  {
    'A' <= c <= 'Z' || 'a' <= c <= 'z' || '0' <= c <= '9' || c in "-._~/%!$&'()*+,;=:@?"
  }

  predicate IsForbiddenDecoded(c: char)
  {
    c == '\\' || c as int <= 0x1F || c as int == 0x7F
  }

  predicate IsDot(segment: string)
  {
    segment == "." || segment == ".."
  }

  /** `/^[a-z][a-z0-9+.-]*:/i`: the segment starts like a URL with a scheme. */
  predicate HasScheme(segment: string)
  {
    segment != "" && IsLetter(segment[0]) && SchemeTail(segment[1..])
  }

  predicate IsLetter(c: char)
  {
    'a' <= c <= 'z' || 'A' <= c <= 'Z'
  }

  predicate SchemeTail(s: string)
  {
    s != "" && (s[0] == ':' || ((IsLetter(s[0]) || '0' <= s[0] <= '9' || s[0] in "+.-") && SchemeTail(s[1..])))
  }

  predicate StartsLikePath(s: string)
  {
    "/" <= s && !("//" <= s)
  }

  /** The checks that follow the decoding. */
  predicate IsSafeDecoded(decoded: string)
  {
    && StartsLikePath(decoded)
    && (forall i :: 0 <= i < |decoded| ==> !IsForbiddenDecoded(decoded[i]))
    && (forall i :: 1 <= i < |Split(decoded)| ==> !IsDot(Split(decoded)[i]))
    && !HasScheme(FirstSegment(decoded))
  }

  function FirstSegment(decoded: string): string
  {
    if |Split(decoded)| > 1 then Split(decoded)[1] else ""
  }

  /** `input` is None when the value is not a string. */
  function Normalize(input: Option<string>): (r: Option<string>)
    ensures r.Some? ==> input.Some? && (r == input || input.value == r.value + "?")
  {
    if input.None? then None
    else
      var raw := input.value;
      if raw == "" || |raw| > MAX_LENGTH then None
      else if !StartsLikePath(raw) || '\\' in raw then None
      else if exists i :: 0 <= i < |raw| && !IsAllowedChar(raw[i]) then None
      else
        var path, query := BeforeMark(raw), AfterMark(raw);
        if '#' in path || '#' in query then None
        else
          var decoded := Decode(path);
          if decoded.None? || !IsSafeDecoded(decoded.value) then None
          else
            assert raw == path ==> query == "" by { MarkSplits(path, ""); }
            Some(if query != "" then path + "?" + query else path)
  }

  /** Normalizing a normalized path changes nothing, so the target may compare with its own result. */
  lemma {:induction false} NormalizeIsIdempotent(input: Option<string>)
    requires Normalize(input).Some?
    ensures Normalize(Normalize(input)) == Normalize(input)
  {
    var raw := input.value;
    var r := Normalize(input).value;
    var path, query := BeforeMark(raw), AfterMark(raw);
    MarkSplits(path, query);
    assert BeforeMark(r) == path && AfterMark(r) == query;
    assert r <= raw;
    assert forall i :: 0 <= i < |r| ==> r[i] == raw[i];
    PrefixStartsLikePath(path, raw);
  }

  lemma {:induction false} PrefixStartsLikePath(path: string, raw: string)
    requires path <= raw && StartsLikePath(raw)
    requires BeforeMark(raw) == path
    ensures StartsLikePath(path)
  {
  }

  /** The result differs from the input exactly when the input ends at its first `?`. */
  lemma {:induction false} NormalizeDropsOnlyBareMark(raw: string)
    requires Normalize(Some(raw)).Some?
    ensures Normalize(Some(raw)) == Some(raw) <==> !(raw == BeforeMark(raw) + "?")
  {
    var path, query := BeforeMark(raw), AfterMark(raw);
    MarkSplits(path, query);
  }

  // ---------------------------------------------------------------------------------------------
  // Dot segments (section 5.2.4 of RFC 3986)
  // ---------------------------------------------------------------------------------------------

  /** The input up to, not including, the next slash after position 0. */
  function Leading(input: string): (r: string)
    requires input != ""
    ensures r <= input && |r| > 0
  {
    if |input| == 1 || input[1] == '/' then input[..1]
    else
      var r := Leading(input[1..]);
      assert input == [input[0]] + input[1..];
      [input[0]] + r
  }

  /** The output buffer without its last segment and that segment's slash. */
  function DropLast(output: string): (r: string)
    ensures |r| <= |output|
  {
    if output == "" then ""
    else if output[|output| - 1] == '/' then output[..|output| - 1]
    else DropLast(output[..|output| - 1])
  }

  /** `remove_dot_segments`, with the input and output buffers of the standard's steps A to E. */
  function RemoveDotSegments(input: string, output: string): (r: string)
    ensures |r| <= |output| + |input|
    decreases |input|
  {
    if input == "" then output
    else if "../" <= input then RemoveDotSegments(input[3..], output)
    else if "./" <= input then RemoveDotSegments(input[2..], output)
    else if "/./" <= input then RemoveDotSegments(input[2..], output)
    else if input == "/." then RemoveDotSegments("/", output)
    else if "/../" <= input then RemoveDotSegments(input[3..], DropLast(output))
    else if input == "/.." then RemoveDotSegments("/", DropLast(output))
    else if input == "." || input == ".." then output
    else RemoveDotSegments(input[|Leading(input)|..], output + Leading(input))
  }

  predicate HasDotSegment(path: string)
  {
    exists i :: 1 <= i < |Split(path)| && IsDot(Split(path)[i])
  }

  /** The text up to the next slash is the first part of the split; the slash starts the others. */
  lemma {:induction false} LeadingSegment(input: string)
    requires input != "" && input[0] == '/'
    ensures |Split(input)| > 1 && Leading(input) == "/" + Split(input)[1]
    ensures var rest := input[|Leading(input)|..];
      if rest == "" then |Split(input)| == 2
      else rest[0] == '/' && Split(rest) == [""] + Split(input)[2..]
  {
    var s := input[1..];
    LeadingPart(input);
    assert Split(input) == [""] + Split(s);
    assert Split(input)[2..] == Split(s)[1..];
  }

  lemma {:induction false} LeadingPart(input: string)
    requires input != ""
    ensures Leading(input) == [input[0]] + Split(input[1..])[0]
    ensures var rest, t := input[|Leading(input)|..], Split(input[1..]);
      if rest == "" then |t| == 1 else rest[0] == '/' && Split(rest) == [""] + t[1..]
    decreases |input|
  {
    var s := input[1..];
    if s == "" {
    } else if s[0] == '/' {
      assert Split(s) == [""] + Split(s[1..]);
    } else {
      LeadingPart(s);
      var t := Split(s[1..]);
      assert Split(s) == [[s[0]] + t[0]] + t[1..];
      assert Split(s)[1..] == t[1..];
      assert input[|Leading(input)|..] == s[|Leading(s)|..];
    }
  }

  /** When the next segment is a dot segment, one of the steps B and C applies. */
  lemma {:induction false} DotLeads(input: string)
    requires input != "" && input[0] == '/'
    ensures Split(input)[1..] != []
    ensures Split(input)[1] == "." <==> "/./" <= input || input == "/."
    ensures Split(input)[1] == ".." <==> "/../" <= input || input == "/.."
  {
    LeadingSegment(input);
    var l := Leading(input);
    assert input == l + input[|l|..];
    if "/./" <= input || input == "/." {
      LeadingOf(input, 2);
      assert l == "/" + ".";
      assert Split(input)[1] == l[1..];
    }
    if "/../" <= input || input == "/.." {
      LeadingOf(input, 3);
      assert l == "/" + "..";
      assert Split(input)[1] == l[1..];
    }
  }

  lemma {:induction false} LeadingOf(input: string, n: nat)
    requires 1 <= n <= |input|
    requires n == |input| || input[n] == '/'
    requires forall i :: 1 <= i < n ==> input[i] != '/'
    ensures Leading(input) == input[..n]
    decreases n
  {
    if n > 1 {
      LeadingOf(input[1..], n - 1);
      assert [input[0]] + input[1..][..n - 1] == input[..n];
    }
  }

  /** Step E: an ordinary segment moves to the output. */
  lemma {:induction false} OrdinaryMoves(input: string, output: string)
    requires input != "" && input[0] == '/'
    requires |Split(input)| > 1 && !IsDot(Split(input)[1])
    ensures RemoveDotSegments(input, output)
         == RemoveDotSegments(input[|Leading(input)|..], output + Leading(input))
  {
    DotLeads(input);
    assert !("../" <= input) && !("./" <= input) && input != "." && input != "..";
  }

  lemma {:induction false} RestHasNoDots(input: string)
    requires input != "" && input[0] == '/'
    ensures var rest := input[|Leading(input)|..];
      && (rest == "" || rest[0] == '/')
      && |Split(input)| > 1
      && (HasDotSegment(input) <==> IsDot(Split(input)[1]) || HasDotSegment(rest))
  {
    LeadingSegment(input);
    var rest := input[|Leading(input)|..];
    if HasDotSegment(rest) {
      var i :| 1 <= i < |Split(rest)| && IsDot(Split(rest)[i]);
      assert Split(input)[i + 1] == Split(rest)[i];
    }
    if HasDotSegment(input) && !IsDot(Split(input)[1]) {
      var i :| 1 <= i < |Split(input)| && IsDot(Split(input)[i]);
      assert Split(rest)[i - 1] == Split(input)[i];
    }
  }

  lemma {:induction false} Regroup(output: string, input: string, k: nat)
    requires k <= |input|
    ensures (output + input[..k]) + input[k..] == output + input
  {
  }

  /** A path without dot segments is copied to the output unchanged. */
  lemma {:induction false} NoDotsKept(input: string, output: string)
    requires input == "" || input[0] == '/'
    requires !HasDotSegment(input)
    ensures RemoveDotSegments(input, output) == output + input
    decreases |input|
  {
    if input != "" {
      RestHasNoDots(input);
      OrdinaryMoves(input, output);
      NoDotsKept(input[|Leading(input)|..], output + Leading(input));
      Regroup(output, input, |Leading(input)|);
    }
  }

  /** A dot segment anywhere makes the result shorter. */
  lemma {:induction false} DotsShorten(input: string, output: string)
    requires input != "" && input[0] == '/'
    requires HasDotSegment(input)
    ensures |RemoveDotSegments(input, output)| < |output| + |input|
    decreases |input|
  {
    RestHasNoDots(input);
    if IsDot(Split(input)[1]) {
      DotLeads(input);
    } else {
      OrdinaryMoves(input, output);
      DotsShorten(input[|Leading(input)|..], output + Leading(input));
    }
  }

  /** For a path that starts with a slash: unchanged by remove_dot_segments iff no dot segment. */
  lemma {:induction false} FixedPointIffNoDots(path: string)
    requires path != "" && path[0] == '/'
    ensures RemoveDotSegments(path, "") == path <==> !HasDotSegment(path)
  {
    if HasDotSegment(path) {
      DotsShorten(path, "");
    } else {
      NoDotsKept(path, "");
      assert "" + path == path;
    }
  }

  /** A segment written without escapes is still a segment of the decoded text. */
  lemma {:induction false} PlainSegmentSurvives(s: string, x: string)
    requires Decode(s).Some?
    requires '%' !in x && '/' !in x
    ensures Split(s)[0] == x ==> Split(Decode(s).value)[0] == x
    ensures x in Split(s)[1..] ==> x in Split(Decode(s).value)[1..]
    decreases |s|
  {
    if s == "" {
    } else if s[0] == '%' {
      var first := DecodePiece(s).value;
      var rest := s[first.used..];
      PlainSegmentSurvives(rest, x);
      SplitSkips(s, first.used);
      var d := Decode(rest).value;
      assert Decode(s).value == [first.c] + d && ([first.c] + d)[1..] == d;
      assert Split(s)[0][0] == '%' by { SplitFirst(s); }
      TailKept(first.c, d, x);
    } else {
      var rest := s[1..];
      var d := Decode(rest).value;
      assert Decode(s).value == [s[0]] + d && ([s[0]] + d)[1..] == d;
      PlainSegmentSurvives(rest, x);
      if s[0] == '/' {
        assert Split(s)[1..] == Split(rest) && Split([s[0]] + d)[1..] == Split(d);
        if x in Split(rest) { InTail(Split(rest), Split(d), x); }
      } else {
        if Split(s)[0] == x {
          assert x[1..] == Split(rest)[0] && x[0] == s[0];
          PlainSegmentSurvives(rest, x[1..]);
          assert x == [x[0]] + x[1..];
        }
        TailKept(s[0], d, x);
        assert Split(s)[1..] == Split(rest)[1..];
      }
    }
  }

  lemma {:induction false} InTail(a: seq<string>, b: seq<string>, x: string)
    requires |a| > 0 && |b| > 0 && x in a
    requires a[0] == x ==> b[0] == x
    requires x in a[1..] ==> x in b[1..]
    ensures x in b
  {
  }

  lemma {:induction false} SplitFirst(s: string)
    requires s != "" && s[0] != '/'
    ensures Split(s)[0] != "" && Split(s)[0][0] == s[0]
  {
  }

  lemma {:induction false} TailKept(c: char, d: string, x: string)
    ensures x in Split(d)[1..] ==> x in Split([c] + d)[1..]
  {
  }

  lemma {:induction false} SplitSkips(s: string, n: nat)
    requires n <= |s| && forall i :: 0 <= i < n ==> s[i] != '/'
    ensures Split(s)[1..] == Split(s[n..])[1..]
    decreases n
  {
    if n == 0 {
      assert s[0..] == s;
    } else {
      SplitSkips(s[1..], n - 1);
      assert s[1..][n - 1..] == s[n..];
      assert Split(s)[1..] == Split(s[1..])[1..];
    }
  }

  /** Decoding never hides a dot segment that is written out in the raw path. */
  lemma {:induction false} RawDotsDecode(path: string)
    requires Decode(path).Some? && HasDotSegment(path)
    ensures HasDotSegment(Decode(path).value)
  {
    var decoded := Decode(path).value;
    var i :| 1 <= i < |Split(path)| && IsDot(Split(path)[i]);
    var x := Split(path)[i];
    assert x == Split(path)[1..][i - 1];
    PlainSegmentSurvives(path, x);
    var j :| 0 <= j < |Split(decoded)[1..]| && Split(decoded)[1..][j] == x;
    assert Split(decoded)[j + 1] == x;
  }

  lemma {:induction false} SchemeTailSurvives(s: string)
    requires Decode(s).Some? && SchemeTail(Split(s)[0])
    ensures SchemeTail(Split(Decode(s).value)[0])
    decreases |s|
  {
    SplitFirst(s);
    var rest, first := s[1..], Split(s)[0];
    assert first[1..] == Split(rest)[0];
    var d := Decode(rest).value;
    assert Decode(s).value == [s[0]] + d && ([s[0]] + d)[1..] == d;
    var decoded := Split([s[0]] + d)[0];
    assert decoded == [s[0]] + Split(d)[0] && decoded[1..] == Split(d)[0];
    if s[0] != ':' {
      SchemeTailSurvives(rest);
    }
  }

  /** A raw path that reads as a URL with a scheme decodes to one. */
  lemma {:induction false} SchemeSurvives(path: string)
    requires Decode(path).Some? && "/" <= path
    requires HasScheme(FirstSegment(path))
    ensures HasScheme(FirstSegment(Decode(path).value))
  {
    var s := path[1..];
    var d := Decode(s).value;
    assert path[0] == '/';
    assert Decode(path).value == ['/'] + d && (['/'] + d)[1..] == d;
    assert FirstSegment(path) == Split(s)[0];
    assert FirstSegment(['/'] + d) == Split(d)[0];
    SplitFirst(s);
    var d' := Decode(s[1..]).value;
    assert d == [s[0]] + d' && d[1..] == d';
    assert Split(s)[0][1..] == Split(s[1..])[0];
    assert Split(d)[0][1..] == Split(d')[0];
    SchemeTailSurvives(s[1..]);
  }

  /**
   * An accepted path is safe to resolve: neither its raw path part nor its one-time decoding is
   * changed by remove_dot_segments, and neither can be read as a URL with a host or a scheme.
   */
  lemma {:induction false} AcceptedIsResolved(raw: string)
    requires Normalize(Some(raw)).Some?
    ensures Decode(BeforeMark(raw)).Some?
    ensures var path, decoded := BeforeMark(raw), Decode(BeforeMark(raw)).value;
      && StartsLikePath(path) && StartsLikePath(decoded)
      && RemoveDotSegments(path, "") == path
      && RemoveDotSegments(decoded, "") == decoded
      && !HasScheme(FirstSegment(decoded)) && !HasScheme(FirstSegment(path))
  {
    var path := BeforeMark(raw);
    var decoded := Decode(path).value;
    PrefixStartsLikePath(path, raw);
    FixedPointIffNoDots(decoded);
    FixedPointIffNoDots(path);
    assert !HasDotSegment(decoded);
    if HasDotSegment(path) { RawDotsDecode(path); }
    if HasScheme(FirstSegment(path)) { SchemeSurvives(path); }
  }

  /** The text after the leading slash starts like a URL with a scheme: a letter, then up to a colon letters, digits and +.-. */
  ghost predicate ReadsAsScheme(s: string)
  {
    exists k :: IsSchemeEnd(s, k)
  }

  predicate IsSchemeEnd(s: string, k: int)
  {
    && 1 <= k < |s| && s[k] == ':' && ('a' <= s[0] <= 'z' || 'A' <= s[0] <= 'Z')
    && forall j :: 1 <= j < k ==> 'a' <= s[j] <= 'z' || 'A' <= s[j] <= 'Z' || '0' <= s[j] <= '9' || s[j] in "+.-"
  }

  predicate IsSchemeChar(c: char)
  {
    'a' <= c <= 'z' || 'A' <= c <= 'Z' || '0' <= c <= '9' || c in "+.-"
  }

  predicate IsTailEnd(s: string, k: int)
  {
    0 <= k < |s| && s[k] == ':' && forall j :: 0 <= j < k ==> IsSchemeChar(s[j])
  }

  lemma {:induction false} TailEndMoves(s: string, k: int)
    requires s != "" && k > 0
    ensures IsTailEnd(s, k) <==> IsSchemeChar(s[0]) && IsTailEnd(s[1..], k - 1)
  {
    if IsSchemeChar(s[0]) && IsTailEnd(s[1..], k - 1) {
      forall j | 0 <= j < k ensures IsSchemeChar(s[j]) {
        if j > 0 { assert s[j] == s[1..][j - 1]; }
      }
    }
  }

  lemma {:induction false} SchemeTailIff(s: string)
    ensures SchemeTail(Split(s)[0]) <==> exists k :: IsTailEnd(s, k)
  {
    if s != "" && s[0] != '/' {
      SplitFirst(s);
      SchemeTailIff(s[1..]);
      assert Split(s)[0][1..] == Split(s[1..])[0];
      if s[0] == ':' {
        assert IsTailEnd(s, 0);
      } else {
        if k :| IsTailEnd(s, k) { TailEndMoves(s, k); }
        if k :| IsTailEnd(s[1..], k) { TailEndMoves(s, k + 1); }
      }
    }
  }

  lemma {:induction false} SchemeEndMoves(s: string, k: int)
    requires s != "" && k > 0
    ensures IsSchemeEnd(s, k) <==> IsLetter(s[0]) && IsTailEnd(s[1..], k - 1)
  {
    if IsLetter(s[0]) && IsTailEnd(s[1..], k - 1) {
      forall j | 1 <= j < k ensures IsSchemeChar(s[j]) { assert s[j] == s[1..][j - 1]; }
    }
  }

  lemma {:induction false} SchemeIff(s: string)
    ensures HasScheme(Split(s)[0]) <==> ReadsAsScheme(s)
  {
    if s != "" && s[0] != '/' {
      SplitFirst(s);
      SchemeTailIff(s[1..]);
      assert Split(s)[0][1..] == Split(s[1..])[0];
      if k :| IsSchemeEnd(s, k) { SchemeEndMoves(s, k); }
      if k :| IsTailEnd(s[1..], k) { SchemeEndMoves(s, k + 1); }
    }
  }

  /** The path part decodes to a text that is safe to resolve. */
  ghost predicate IsResolved(d: string)
  {
    && "/" <= d && !("//" <= d) && RemoveDotSegments(d, "") == d && !ReadsAsScheme(d[1..])
    && forall i :: 0 <= i < |d| ==> d[i] != '\\' && d[i] as int > 0x1F && d[i] as int != 0x7F
  }

  /**
   * A path is accepted if and only if it has at most 512 characters of the allowed set and starts with
   * exactly one slash, and its part before the first question mark writes, with escapes, a text that
   * starts with exactly one slash, has no control character or backslash, is left alone by
   * remove_dot_segments and does not read as a URL with a scheme.
   */
  lemma {:induction false} AcceptedIff(raw: string)
    ensures Normalize(Some(raw)).Some? <==>
      && 1 <= |raw| <= 512 && raw[0] == '/' && (|raw| == 1 || raw[1] != '/')
      && (forall i :: 0 <= i < |raw| ==>
            'A' <= raw[i] <= 'Z' || 'a' <= raw[i] <= 'z' || '0' <= raw[i] <= '9' || raw[i] in "-._~/%!$&'()*+,;=:@?")
      && exists d :: Writes(BeforeMark(raw), d) && IsResolved(d)
  {
    SafeIff(BeforeMark(raw));
    PlainIff(raw);
  }

  /** The checks on the characters of the input. */
  predicate IsPlain(raw: string)
  {
    && raw != "" && |raw| <= MAX_LENGTH && StartsLikePath(raw) && '\\' !in raw
    && (forall i :: 0 <= i < |raw| ==> IsAllowedChar(raw[i]))
    && '#' !in BeforeMark(raw) && '#' !in AfterMark(raw)
  }

  lemma {:induction false} PlainIff(raw: string)
    ensures IsPlain(raw) <==>
      && 1 <= |raw| <= 512 && raw[0] == '/' && (|raw| == 1 || raw[1] != '/')
      && (forall i :: 0 <= i < |raw| ==>
            'A' <= raw[i] <= 'Z' || 'a' <= raw[i] <= 'z' || '0' <= raw[i] <= '9' || raw[i] in "-._~/%!$&'()*+,;=:@?")
  {
    if forall i :: 0 <= i < |raw| ==> IsAllowedChar(raw[i]) { NoHash(raw); }
  }

  lemma {:induction false} NoneRefused(raw: string)
    requires forall i :: 0 <= i < |raw| ==> IsAllowedChar(raw[i])
    ensures '#' !in raw && '\\' !in raw
  {
  }

  lemma {:induction false} NoHash(raw: string)
    requires forall i :: 0 <= i < |raw| ==> IsAllowedChar(raw[i])
    ensures '#' !in BeforeMark(raw) && '#' !in AfterMark(raw) && '\\' !in raw
  {
    var path, query := BeforeMark(raw), AfterMark(raw);
    NoneRefused(raw);
    assert path == raw[0..|path|];
    if raw == path {
      MarkSplits(raw, "");
    } else {
      assert query == raw[|path| + 1..|raw|];
    }
  }

  lemma {:induction false} SafeIff(path: string)
    ensures Decode(path).Some? && IsSafeDecoded(Decode(path).value) <==> exists d :: Writes(path, d) && IsResolved(d)
  {
    if Decode(path).Some? {
      var d := Decode(path).value;
      DecodeIff(path, d);
      ResolvedIff(d);
    }
    if d :| Writes(path, d) && IsResolved(d) { DecodeIff(path, d); }
  }

  lemma {:induction false} ResolvedIff(d: string)
    ensures IsSafeDecoded(d) <==> IsResolved(d)
  {
    if "/" <= d {
      assert d[0] == '/';
      FixedPointIffNoDots(d);
      SchemeIff(d[1..]);
      assert FirstSegment(d) == Split(d[1..])[0];
    }
  }

  // ---------------------------------------------------------------------------------------------
  // isAllowedPath
  // ---------------------------------------------------------------------------------------------

  predicate SegmentMatches(want: string, segment: string)
  {
    if want == "*" then |segment| > 0 else want == segment
  }

  predicate Matches(pattern: string, pathPart: string)
  {
    var want, segments := Split(pattern)[1..], Split(pathPart)[1..];
    |want| == |segments| && forall i :: 0 <= i < |want| ==> SegmentMatches(want[i], segments[i])
  }

  predicate IsAllowedPath(path: string, patterns: seq<string>)
  {
    exists i :: 0 <= i < |patterns| && Matches(patterns[i], BeforeMark(path))
  }

  /** The pattern with the i-th segment, where it is a star, replaced by the i-th filling. */
  function Substitute(pattern: string, filling: seq<string>): string
    requires |filling| == |Split(pattern)|
  {
    Join(Filled(Split(pattern), filling))
  }

  function Filled(want: seq<string>, filling: seq<string>): (r: seq<string>)
    requires |filling| == |want|
    ensures |r| == |want|
  {
    seq(|want|, i requires 0 <= i < |want| => if want[i] == "*" then filling[i] else want[i])
  }

  /** A filling: one non-empty, slash-free text for each segment. */
  ghost predicate IsFilling(pattern: string, filling: seq<string>)
  {
    && |filling| == |Split(pattern)|
    && forall i :: 0 <= i < |filling| && Split(pattern)[i] == "*" ==> filling[i] != "" && '/' !in filling[i]
  }

  ghost predicate Covers(pattern: string, pathPart: string)
  {
    exists filling: seq<string> :: IsFilling(pattern, filling) && pathPart == Substitute(pattern, filling)
  }

  lemma {:induction false} MatchCovers(pattern: string, pathPart: string)
    requires "/" <= pattern && "/" <= pathPart && Matches(pattern, pathPart)
    ensures Covers(pattern, pathPart)
  {
    var want, segments := Split(pattern), Split(pathPart);
    JoinOfSplit(pathPart);
    assert want[0] == "" && segments[0] == "";
    forall i | 0 <= i < |want|
      ensures SegmentMatches(want[i], segments[i])
    {
      if i > 0 { assert want[i] == want[1..][i - 1] && segments[i] == segments[1..][i - 1]; }
    }
    assert Filled(want, segments) == segments;
    assert IsFilling(pattern, segments);
  }

  lemma {:induction false} CoverMatches(pattern: string, pathPart: string, filling: seq<string>)
    requires IsFilling(pattern, filling) && pathPart == Substitute(pattern, filling)
    ensures Matches(pattern, pathPart)
  {
    JoinOfSplit(pattern);
    SplitOfJoin(Filled(Split(pattern), filling));
    assert Split(pathPart) == Filled(Split(pattern), filling);
  }

  lemma {:induction false} MatchesIsCovers(pattern: string, pathPart: string)
    requires "/" <= pattern && "/" <= pathPart
    ensures Matches(pattern, pathPart) <==> Covers(pattern, pathPart)
  {
    if Matches(pattern, pathPart) { MatchCovers(pattern, pathPart); }
    if filling: seq<string> :| IsFilling(pattern, filling) && pathPart == Substitute(pattern, filling) {
      CoverMatches(pattern, pathPart, filling);
    }
  }

  /** A path is allowed exactly when it is some pattern with every star filled in. */
  lemma {:induction false} AllowedIsCovered(path: string, patterns: seq<string>)
    requires "/" <= path
    requires forall i :: 0 <= i < |patterns| ==> "/" <= patterns[i]
    ensures IsAllowedPath(path, patterns)
      <==> exists i :: 0 <= i < |patterns| && Covers(patterns[i], BeforeMark(path))
  {
    assert "/" <= BeforeMark(path) by { assert path[0] == '/'; }
    forall i | 0 <= i < |patterns|
      ensures Matches(patterns[i], BeforeMark(path)) <==> Covers(patterns[i], BeforeMark(path))
    {
      MatchesIsCovers(patterns[i], BeforeMark(path));
    }
  }
}
