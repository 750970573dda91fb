/**
 * Base32 with the encoding of section 6 of RFC 4648, without padding, as the TOTP code runs it: a
 * 32-bit accumulator that is never masked, so old bits pile up above the `bits` that still count.
 */
module Base32 {
  import opened Common
  import opened Bits32

  type Byte = b: nat | b < 256
  type Quintet = q: nat | q < 32

  /** The letter for a value: A-Z, then 2-7. */
  function Letter(q: Quintet): char
  {
    if q < 26 then ('A' as int + q) as char else ('2' as int + q - 26) as char
  }

  lemma LetterTable(q: Quintet)
    ensures Letter(q) == "ABCDEFGHIJKLMNOPQRSTUVWXYZ234567"[q]
  {
  }

  // ---- the encoding as bit strings --------------------------------------------------------------------

  function ByteBits(bytes: seq<Byte>): Bits
  {
    if bytes == [] then [] else ByteBits(bytes[..|bytes| - 1]) + Low(bytes[|bytes| - 1], 8)
  }

  function QuintetBits(qs: seq<Quintet>): Bits
  {
    if qs == [] then [] else QuintetBits(qs[..|qs| - 1]) + Low(qs[|qs| - 1], 5)
  }

  function Index(c: char): (i: Option<Quintet>)
    ensures i.Some? ==> Letter(i.value) == c
  {
    if 'A' <= c <= 'Z' then Some((c as int - 'A' as int) as Quintet)
    else if '2' <= c <= '7' then Some((c as int - '2' as int + 26) as Quintet)
    else None
  }

  function Letters(qs: seq<Quintet>): (s: string)
    ensures |s| == |qs| && forall i | 0 <= i < |qs| :: s[i] == Letter(qs[i])
  {
    seq(|qs|, i requires 0 <= i < |qs| => Letter(qs[i]))
  }

  lemma IndexOfLetter(q: Quintet)
    ensures Index(Letter(q)) == Some(q)
  {
  }

  lemma {:induction false} QuintetBitsLength(qs: seq<Quintet>)
    ensures |QuintetBits(qs)| == 5 * |qs|
  {
    if qs != [] { QuintetBitsLength(qs[..|qs| - 1]); }
  }

  lemma {:induction false} ByteBitsLength(bytes: seq<Byte>)
    ensures |ByteBits(bytes)| == 8 * |bytes|
  {
    if bytes != [] { ByteBitsLength(bytes[..|bytes| - 1]); }
  }

  lemma OneQuintetMore(qs: seq<Quintet>, q: Quintet)
    ensures QuintetBits(qs + [q]) == QuintetBits(qs) + Low(q, 5)
  {
  }

  lemma OneLetterMore(qs: seq<Quintet>, q: Quintet)
    ensures Letters(qs + [q]) == Letters(qs) + [Letter(q)]
  {
  }

  lemma OneByteMore(bytes: seq<Byte>, b: Byte)
    ensures ByteBits(bytes + [b]) == ByteBits(bytes) + Low(b, 8)
  {
  }

  lemma SplitEqual(a: Bits, x: Bits, b: Bits, y: Bits)
    requires a + x == b + y && |a| == |b|
    ensures a == b && x == y
  {
    assert a == (a + x)[..|a|] && b == (b + y)[..|b|];
    assert x == (a + x)[|a|..] && y == (b + y)[|b|..];
  }

  /** Equal bits, equal bytes. */
  lemma {:induction false} ByteBitsInjective(a: seq<Byte>, b: seq<Byte>)
    requires ByteBits(a) == ByteBits(b)
    ensures a == b
  {
    ByteBitsLength(a);
    ByteBitsLength(b);
    if a != [] {
      var m := |a| - 1;
      ByteBitsLength(a[..m]);
      ByteBitsLength(b[..m]);
      SplitEqual(ByteBits(a[..m]), Low(a[m], 8), ByteBits(b[..m]), Low(b[m], 8));
      ByteBitsInjective(a[..m], b[..m]);
      Sizes();
      ValueOfLow(a[m], 8);
      ValueOfLow(b[m], 8);
      assert a == a[..m] + [a[m]] && b == b[..m] + [b[m]];
    }
  }

  lemma Sizes()
    ensures Pow2(5) == 32 && Pow2(8) == 256
  {
  }

  /** `qs` encodes `bytes`: the same bits, zero-filled to whole quintets. */
  ghost predicate Encodes(qs: seq<Quintet>, bytes: seq<Byte>)
  {
    exists fill :: 0 <= fill < 5 && QuintetBits(qs) == ByteBits(bytes) + Zeros(fill)
  }

  /** `bytes` are the whole bytes in the bits of `qs`; what is left over is dropped. */
  ghost predicate Decodes(qs: seq<Quintet>, bytes: seq<Byte>)
  {
    exists rest: Bits :: |rest| < 8 && QuintetBits(qs) == ByteBits(bytes) + rest
  }

  // ---- the loops ---------------------------------------------------------------------------------------

  /** value = (value << k) | w */
  function Push(value: nat, w: nat, k: nat): nat { Or(Shl(value, k), w) }

  lemma TakeByte(done: Bits, value: nat, bits: nat, b: Byte)
    requires bits + 8 <= 32
    ensures done + Low(Push(value, b, 8), bits + 8) == done + Low(value, bits) + Low(b, 8)
  {
    Sizes();
    LowAppend(value, b, bits, 8);
    assert done + (Low(value, bits) + Low(b, 8)) == done + Low(value, bits) + Low(b, 8);
  }

  lemma Assoc(a: Bits, b: Bits, c: Bits)
    ensures a + (b + c) == a + b + c
  {
  }

  /** (value >>> (bits - k)) & (2^k - 1) is the top k of the bits that count. */
  lemma TopBits(value: nat, bits: nat, k: nat)
    requires bits >= k
    ensures And(Shr(value, bits - k), Pow2(k) - 1) < Pow2(k)
    ensures Low(value, bits) == Low(And(Shr(value, bits - k), Pow2(k) - 1), k) + Low(value, bits - k)
  {
    LowSplit(value, k, bits - k);
    LowMasked(Shr(value, bits - k), k);
  }

  lemma EmitQuintet(qs: seq<Quintet>, value: nat, bits: nat)
    requires bits >= 5
    ensures And(Shr(value, bits - 5), 31) < 32
    ensures QuintetBits(qs + [And(Shr(value, bits - 5), 31)]) + Low(value, bits - 5) == QuintetBits(qs) + Low(value, bits)
  {
    Sizes();
    TopBits(value, bits, 5);
    var q := And(Shr(value, bits - 5), 31);
    OneQuintetMore(qs, q);
    Assoc(QuintetBits(qs), Low(q, 5), Low(value, bits - 5));
  }

  lemma EmitLast(qs: seq<Quintet>, value: nat, bits: nat)
    requires bits < 5
    ensures And(Shl(value, 5 - bits), 31) < 32
    ensures QuintetBits(qs + [And(Shl(value, 5 - bits), 31)]) == QuintetBits(qs) + Low(value, bits) + Zeros(5 - bits)
  {
    var top := Shl(value, 5 - bits);
    Sizes();
    LowShl(value, bits, 5 - bits);
    LowMasked(top, 5);
    OneQuintetMore(qs, And(top, 31));
    assert QuintetBits(qs) + (Low(value, bits) + Zeros(5 - bits)) == QuintetBits(qs) + Low(value, bits) + Zeros(5 - bits);
  }

  /** The letters so far and the `bits` low bits of value hold the bits of `bytes`. */
  ghost predicate Holds(out: string, qs: seq<Quintet>, value: nat, bits: nat, bytes: seq<Byte>)
  {
    out == Letters(qs) && QuintetBits(qs) + Low(value, bits) == ByteBits(bytes)
  }

  lemma TakesByte(out: string, qs: seq<Quintet>, value: nat, bits: nat, buf: seq<Byte>, i: nat)
    requires i < |buf| && bits < 5 && Holds(out, qs, value, bits, buf[..i])
    ensures Holds(out, qs, Push(value, buf[i], 8), bits + 8, buf[..i + 1])
  {
    assert buf[..i + 1] == buf[..i] + [buf[i]];
    OneByteMore(buf[..i], buf[i]);
    TakeByte(QuintetBits(qs), value, bits, buf[i]);
  }

  lemma EmitsQuintet(out: string, qs: seq<Quintet>, value: nat, bits: nat, bytes: seq<Byte>)
    requires bits >= 5 && Holds(out, qs, value, bits, bytes)
    ensures And(Shr(value, bits - 5), 31) < 32
    ensures var q := And(Shr(value, bits - 5), 31); Holds(out + [Letter(q)], qs + [q], value, bits - 5, bytes)
  {
    EmitQuintet(qs, value, bits);
    OneLetterMore(qs, And(Shr(value, bits - 5), 31));
  }

  lemma EmitsLast(out: string, qs: seq<Quintet>, value: nat, bits: nat, bytes: seq<Byte>)
    requires 0 < bits < 5 && Holds(out, qs, value, bits, bytes)
    ensures And(Shl(value, 5 - bits), 31) < 32
    ensures var q := And(Shl(value, 5 - bits), 31); out + [Letter(q)] == Letters(qs + [q]) && Encodes(qs + [q], bytes)
  {
    EmitLast(qs, value, bits);
    var q := And(Shl(value, 5 - bits), 31);
    OneLetterMore(qs, q);
    assert QuintetBits(qs + [q]) == ByteBits(bytes) + Zeros(5 - bits);
  }

  method Base32Encode(buf: seq<Byte>) returns (out: string, ghost qs: seq<Quintet>)
    ensures Encodes(qs, buf) && out == Letters(qs)
    ensures |out| == (8 * |buf| + 4) / 5 && InAlphabet(out)
  {
    var bits: nat, value: nat := 0, 0;
    out, qs := "", [];
    var i := 0;
    while i < |buf|
      invariant 0 <= i <= |buf| && bits < 5
      invariant Holds(out, qs, value, bits, buf[..i])
    {
      TakesByte(out, qs, value, bits, buf, i);
      value := Push(value, buf[i], 8);
      bits := bits + 8;
      while bits >= 5
        invariant bits <= 12
        invariant Holds(out, qs, value, bits, buf[..i + 1])
        decreases bits
      {
        EmitsQuintet(out, qs, value, bits, buf[..i + 1]);
        var q := And(Shr(value, bits - 5), 31);
        out, qs := out + [Letter(q)], qs + [q];
        bits := bits - 5;
      }
      i := i + 1;
    }
    assert buf[..i] == buf;
    if bits > 0 {
      EmitsLast(out, qs, value, bits, buf);
      var q := And(Shl(value, 5 - bits), 31);
      out, qs := out + [Letter(q)], qs + [q];
    } else {
      assert QuintetBits(qs) == ByteBits(buf) + Zeros(0);
    }
    EncodedText(qs, buf);
  }

  // ---- decoding --------------------------------------------------------------------------------------------

  /**
   * toUpperCase of one character, as far as the alphabet is concerned: besides a-z these are all the
   * characters whose upper case consists of ASCII letters; any other upper case is outside the
   * alphabet, as the character itself is.
   */
  function Upper(c: char): string
  {
    if 'a' <= c <= 'z' then [(c as int - 32) as char]
    else match c
      case '\U{DF}' => "SS"
      case '\U{131}' => "I"
      case '\U{17F}' => "S"
      case '\U{FB00}' => "FF"
      case '\U{FB01}' => "FI"
      case '\U{FB02}' => "FL"
      case '\U{FB03}' => "FFI"
      case '\U{FB04}' => "FFL"
      case '\U{FB05}' => "ST"
      case '\U{FB06}' => "ST"
      case _ => [c]
  }

  /** The characters \s matches. */
  predicate IsSpace(c: char)
  {
    c in {' ', '\t', '\n', '\r', '\U{B}', '\U{C}', '\U{A0}', '\U{1680}', '\U{2028}', '\U{2029}', '\U{202F}', '\U{205F}', '\U{3000}', '\U{FEFF}'}
    || '\U{2000}' <= c <= '\U{200A}'
  }

  function Uppercase(s: string): string
  {
    if s == "" then "" else Upper(s[0]) + Uppercase(s[1..])
  }

  function DropPadding(s: string): string
  {
    if s != "" && s[|s| - 1] == '=' then DropPadding(s[..|s| - 1]) else s
  }

  function DropSpaces(s: string): string
  {
    if s == "" then "" else (if IsSpace(s[0]) then "" else [s[0]]) + DropSpaces(s[1..])
  }

  function Clean(s: string): string { DropSpaces(DropPadding(Uppercase(s))) }

  lemma TakeQuintet(bytes: seq<Byte>, value: nat, bits: nat, q: Quintet)
    requires bits + 5 <= 32
    ensures ByteBits(bytes) + Low(Push(value, q, 5), bits + 5) == ByteBits(bytes) + Low(value, bits) + Low(q, 5)
  {
    Sizes();
    LowAppend(value, q, bits, 5);
    assert ByteBits(bytes) + (Low(value, bits) + Low(q, 5)) == ByteBits(bytes) + Low(value, bits) + Low(q, 5);
  }

  lemma EmitByte(bytes: seq<Byte>, value: nat, bits: nat)
    requires bits >= 8
    ensures And(Shr(value, bits - 8), 255) < 256
    ensures ByteBits(bytes + [And(Shr(value, bits - 8), 255)]) + Low(value, bits - 8) == ByteBits(bytes) + Low(value, bits)
  {
    Sizes();
    TopBits(value, bits, 8);
    var b := And(Shr(value, bits - 8), 255);
    OneByteMore(bytes, b);
    Assoc(ByteBits(bytes), Low(b, 8), Low(value, bits - 8));
  }

  /** The bytes so far and the `bits` low bits of value hold the bits of the first `i` characters. */
  ghost predicate Read(clean: string, i: nat, qs: seq<Quintet>, out: seq<Byte>, value: nat, bits: nat)
  {
    i <= |clean| && Letters(qs) == clean[..i] && ByteBits(out) + Low(value, bits) == QuintetBits(qs)
  }

  lemma ReadsQuintet(clean: string, i: nat, qs: seq<Quintet>, out: seq<Byte>, value: nat, bits: nat, q: Quintet)
    requires i < |clean| && Index(clean[i]) == Some(q) && bits < 8 && Read(clean, i, qs, out, value, bits)
    ensures Read(clean, i + 1, qs + [q], out, Push(value, q, 5), bits + 5)
  {
    TakeQuintet(out, value, bits, q);
    OneQuintetMore(qs, q);
    OneLetterMore(qs, q);
    Prefix(clean, i);
  }

  lemma Prefix(s: string, i: nat)
    requires i < |s|
    ensures s[..i + 1] == s[..i] + [s[i]]
  {
  }

  lemma EmitsByte(clean: string, i: nat, qs: seq<Quintet>, out: seq<Byte>, value: nat, bits: nat)
    requires bits >= 8 && Read(clean, i, qs, out, value, bits)
    ensures And(Shr(value, bits - 8), 255) < 256
    ensures Read(clean, i, qs, out + [And(Shr(value, bits - 8), 255)], value, bits - 8)
  {
    EmitByte(out, value, bits);
  }

  predicate InAlphabet(s: string)
  {
    forall i | 0 <= i < |s| :: Index(s[i]).Some?
  }

  lemma OneMoreInAlphabet(s: string, i: nat)
    requires i < |s| && InAlphabet(s[..i]) && Index(s[i]).Some?
    ensures InAlphabet(s[..i + 1])
  {
  }

  lemma ReadAll(clean: string, qs: seq<Quintet>, out: seq<Byte>, value: nat, bits: nat)
    requires bits < 8 && Read(clean, |clean|, qs, out, value, bits)
    ensures Letters(qs) == clean && Decodes(qs, out)
  {
  }

  /** Fails exactly when the cleaned input has a character outside the alphabet. */
  method Base32Decode(input: string) returns (r: Result<seq<Byte>, string>, ghost qs: seq<Quintet>)
    ensures r.Ok? <==> InAlphabet(Clean(input))
    ensures r.Ok? ==> Letters(qs) == Clean(input) && Decodes(qs, r.value)
  {
    var clean := Clean(input);
    var bits: nat, value: nat := 0, 0;
    var out: seq<Byte> := [];
    qs := [];
    var i := 0;
    while i < |clean|
      invariant 0 <= i <= |clean| && bits < 8
      invariant InAlphabet(clean[..i])
      invariant Read(clean, i, qs, out, value, bits)
    {
      var idx := Index(clean[i]);
      if idx.None? { return Err("invalid base32 secret"), qs; }
      OneMoreInAlphabet(clean, i);
      ReadsQuintet(clean, i, qs, out, value, bits, idx.value);
      value := Push(value, idx.value, 5);
      bits := bits + 5;
      qs := qs + [idx.value];
      i := i + 1;
      if bits >= 8 {
        EmitsByte(clean, i, qs, out, value, bits);
        out := out + [And(Shr(value, bits - 8), 255)];
        bits := bits - 8;
      }
    }
    assert clean[..i] == clean;
    ReadAll(clean, qs, out, value, bits);
    return Ok(out), qs;
  }

  // ---- round trip --------------------------------------------------------------------------------------------

  lemma {:induction false} CleanLetters(qs: seq<Quintet>)
    ensures Clean(Letters(qs)) == Letters(qs)
  {
    var s := Letters(qs);
    assert forall i | 0 <= i < |s| :: Upper(s[i]) == [s[i]] && !IsSpace(s[i]) && s[i] != '=';
    AlreadyUpper(s);
    NoSpaces(s);
  }

  lemma {:induction false} AlreadyUpper(s: string)
    requires forall i | 0 <= i < |s| :: Upper(s[i]) == [s[i]]
    ensures Uppercase(s) == s
  {
    if s != "" {
      AlreadyUpper(s[1..]);
      assert [s[0]] + s[1..] == s;
    }
  }

  lemma {:induction false} NoSpaces(s: string)
    requires forall i | 0 <= i < |s| :: !IsSpace(s[i])
    ensures DropSpaces(s) == s
  {
    if s != "" {
      NoSpaces(s[1..]);
      assert [s[0]] + s[1..] == s;
    }
  }

  lemma {:induction false} LettersInjective(a: seq<Quintet>, b: seq<Quintet>)
    requires Letters(a) == Letters(b)
    ensures a == b
  {
  }

  /** What was encoded is what is decoded, and the encoding has ceil(8n / 5) letters. */
  lemma RoundTrip(qs: seq<Quintet>, bytes: seq<Byte>, back: seq<Byte>)
    requires Encodes(qs, bytes)
    ensures Clean(Letters(qs)) == Letters(qs)
    ensures Decodes(qs, back) <==> back == bytes
    ensures |qs| == (8 * |bytes| + 4) / 5
  {
    CleanLetters(qs);
    QuintetBitsLength(qs);
    ByteBitsLength(bytes);
    ByteBitsLength(back);
    var fill :| 0 <= fill < 5 && QuintetBits(qs) == ByteBits(bytes) + Zeros(fill);
    if back == bytes {
      assert |Zeros(fill)| < 8 && QuintetBits(qs) == ByteBits(back) + Zeros(fill);
    }
    if Decodes(qs, back) {
      var rest: Bits :| |rest| < 8 && QuintetBits(qs) == ByteBits(back) + rest;
      SplitEqual(ByteBits(bytes), Zeros(fill), ByteBits(back), rest);
      ByteBitsInjective(bytes, back);
    }
  }

  /** An encoding has the length of section 6 of RFC 4648 without padding, and only its letters. */
  lemma EncodedText(qs: seq<Quintet>, bytes: seq<Byte>)
    requires Encodes(qs, bytes)
    ensures |Letters(qs)| == (8 * |bytes| + 4) / 5 && InAlphabet(Letters(qs))
  {
    RoundTrip(qs, bytes, bytes);
    forall i | 0 <= i < |qs| ensures Index(Letters(qs)[i]).Some? { IndexOfLetter(qs[i]); }
  }

  /** encode, then decode: every byte sequence comes back. */
  method EncodeThenDecode(buf: seq<Byte>) returns (text: string, back: Result<seq<Byte>, string>)
    ensures back == Ok(buf)
    ensures |text| == (8 * |buf| + 4) / 5
  {
    ghost var qs, qs';
    text, qs := Base32Encode(buf);
    RoundTrip(qs, buf, buf);
    back, qs' := Base32Decode(text);
    LettersInjective(qs, qs');
    RoundTrip(qs, buf, back.value);
  }

  // ---- what is stripped --------------------------------------------------------------------------------

  lemma {:induction false} UppercaseOf(a: string, b: string)
    ensures Uppercase(a + b) == Uppercase(a) + Uppercase(b)
  {
    if a == "" {
      assert a + b == b;
    } else {
      assert (a + b)[0] == a[0] && (a + b)[1..] == a[1..] + b;
      UppercaseOf(a[1..], b);
    }
  }

  lemma {:induction false} PaddingInside(a: string, b: string)
    requires a != "" && a[|a| - 1] != '='
    ensures DropPadding(a + b) == a + DropPadding(b)
    decreases |b|
  {
    if b == "" {
      assert a + b == a;
    } else {
      var s := a + b;
      assert s[|s| - 1] == b[|b| - 1];
      if b[|b| - 1] == '=' {
        assert s[..|s| - 1] == a + b[..|b| - 1];
        PaddingInside(a, b[..|b| - 1]);
      }
    }
  }

  lemma {:induction false} CleanFirst(c: char, d: char, s: string)
    requires Upper(c) == [d] && d != '='
    ensures Clean([c] + s) == (if IsSpace(d) then "" else [d]) + Clean(s)
  {
    UppercaseFirst(c, s);
    PaddingInside([d], Uppercase(s));
    SpacesFirst(d, DropPadding(Uppercase(s)));
  }

  lemma {:induction false} UppercaseFirst(c: char, s: string)
    ensures Uppercase([c] + s) == Upper(c) + Uppercase(s)
  {
    assert ([c] + s)[1..] == s;
  }

  lemma {:induction false} SpacesFirst(d: char, s: string)
    ensures DropSpaces([d] + s) == (if IsSpace(d) then "" else [d]) + DropSpaces(s)
  {
    assert ([d] + s)[1..] == s;
  }

  lemma {:induction false} PaddingLast(s: string)
    ensures Clean(s + "=") == Clean(s)
  {
    UppercaseOf(s, "=");
    EqualsStays();
    assert (Uppercase(s) + "=")[..|Uppercase(s)|] == Uppercase(s);
  }

  lemma {:induction false} EqualsStays()
    ensures Uppercase("=") == "="
  {
    assert "="[1..] == "";
  }

  /**
   * The secret is read without regard to case, to white space and to equals signs at its end: a letter
   * counts as its capital, a digit as itself, and white space not at all.
   */
  lemma {:induction false} CleanReads(c: char, s: string)
    ensures Clean("") == "" && Clean(s + "=") == Clean(s)
    ensures 'A' <= c <= 'Z' || '2' <= c <= '7' ==> Clean([c] + s) == [c] + Clean(s)
    ensures 'a' <= c <= 'z' ==> Clean([c] + s) == [(c as int - 32) as char] + Clean(s)
    ensures c in " \t\n\r" ==> Clean([c] + s) == Clean(s)
  {
    PaddingLast(s);
    if 'A' <= c <= 'Z' || '2' <= c <= '7' || c in " \t\n\r" { CleanFirst(c, c, s); }
    if 'a' <= c <= 'z' { CleanFirst(c, (c as int - 32) as char, s); }
  }
}
