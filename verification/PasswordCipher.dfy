/**
 * The legacy reversible password cipher. Strings are sequences of UTF-16 code units, as in
 * JavaScript; the Windows-1252 codec is a parameter.
 */
module PasswordCipher {
  import opened Common

  type Text = seq<nat>

  /** One code unit to its byte and back. */
  datatype Codec = Codec(encode: nat -> nat, decode: nat -> nat)

  /**
   * What is used of Windows-1252: ASCII and the Latin-1 half are the identity in both directions, no
   * byte from 128 to 159 stands for the code unit of the same value, and an encoded unit is a byte.
   */
  ghost predicate IsWindows1252(c: Codec)
  {
    && (forall u :: c.encode(u) < 256)
    && (forall u | 0 <= u < 128 || 160 <= u < 256 :: c.encode(u) == u && c.decode(u) == u)
    && (forall b | 128 <= b < 160 :: c.decode(b) != b)
  }

  /** The published assignment of the bytes 128 to 159; 0xFFFD marks the unassigned ones. */
  const HIGH: seq<nat> := [
    0x20AC, 0xFFFD, 0x201A, 0x0192, 0x201E, 0x2026, 0x2020, 0x2021, 0x02C6, 0x2030, 0x0160, 0x2039, 0x0152, 0xFFFD, 0x017D, 0xFFFD,
    0xFFFD, 0x2018, 0x2019, 0x201C, 0x201D, 0x2022, 0x2013, 0x2014, 0x02DC, 0x2122, 0x0161, 0x203A, 0x0153, 0xFFFD, 0x017E, 0x0178]

  function TableIndex(u: nat, n: nat): (b: nat)
    requires n <= 32
    ensures b < 256
  {
    if n == 0 then '?' as nat else if HIGH[n - 1] == u then 127 + n else TableIndex(u, n - 1)
  }

  function PublishedTable(): Codec
  {
    Codec(u => if u < 128 || 160 <= u < 256 then u else TableIndex(u, 32),
          b => if 128 <= b < 160 then HIGH[b - 128] else b)
  }

  lemma {:induction false} PublishedTableFits()
    ensures IsWindows1252(PublishedTable())
  {
    assert forall i :: 0 <= i < 32 ==> HIGH[i] >= 160;
  }

  // ---- decrypt --------------------------------------------------------------------------------------

  /** A C# char: the value modulo 65536. */
  function Unit(raw: int): (u: nat)
    ensures u < 65536
  {
    raw % 65536
  }

  /** The code unit congruent to the value modulo 65536. */
  predicate IsUnitOf(raw: int, u: nat)
  {
    u < 65536 && (raw - u) % 65536 == 0
  }

  lemma {:induction false} UnitFits(raw: int)
    ensures IsUnitOf(raw, Unit(raw))
  {
  }

  function Decrypted(c: Codec, s: Text): (r: Text)
  {
    if s == [] || |s| % 2 != 0 then []
    else seq<nat>(|s| / 2, i requires 0 <= i < |s| / 2 => Unit(255 - (c.encode(s[i]) + c.encode(s[|s| / 2 + i]))))
  }

  /** Half as long, each unit from the bytes of the two halves at its place. */
  ghost predicate IsDecrypted(c: Codec, s: Text, r: Text)
  {
    2 * |r| == |s| && forall i :: 0 <= i < |r| ==> IsUnitOf(255 - (c.encode(s[i]) + c.encode(s[|r| + i])), r[i])
  }

  lemma {:induction false} DecryptedUnits(c: Codec, s: Text)
    requires |s| % 2 == 0
    ensures IsDecrypted(c, s, Decrypted(c, s))
  {
    var r := Decrypted(c, s);
    forall i | 0 <= i < |r| ensures IsUnitOf(255 - (c.encode(s[i]) + c.encode(s[|r| + i])), r[i]) {
      UnitFits(255 - (c.encode(s[i]) + c.encode(s[|s| / 2 + i])));
    }
  }

  /** Code units that the format can store. */
  predicate Storable(u: nat)
  {
    3 <= u <= 127 || 160 <= u <= 189
  }

  datatype Failure = Empty | Unsupported | SelfCheckFailed

  const MIN := 33
  const MAX := 126

  /** The character at `i` takes two code units: a high surrogate followed by a low one. */
  predicate IsPair(s: Text, i: nat)
  {
    i + 1 < |s| && 0xD800 <= s[i] < 0xDC00 && 0xDC00 <= s[i + 1] < 0xE000
  }

  /** The unit passes the check inside the loop; the self-check may still refuse it. */
  predicate Encodable(c: Codec, u: nat)
  {
    c.decode(c.encode(u)) == u && 3 <= c.encode(u) <= 189
  }

  /** Printable halves d and r whose sum belongs to the byte p of each unit. */
  ghost predicate Halves(c: Codec, plaintext: Text, d: Text, r: Text)
  {
    && |d| == |r| <= |plaintext|
    && forall i :: 0 <= i < |d| ==>
      && MIN <= d[i] <= MAX && MIN <= r[i] <= MAX && d[i] + r[i] == 255 - c.encode(plaintext[i])
      && Encodable(c, plaintext[i])
  }

  lemma {:induction false} HalvesDecrypt(c: Codec, plaintext: Text, d: Text, r: Text)
    requires IsWindows1252(c) && Halves(c, plaintext, d, r) && |d| == |plaintext| > 0
    ensures |Decrypted(c, d + r)| == |plaintext|
    ensures forall i :: 0 <= i < |plaintext| ==> Decrypted(c, d + r)[i] == c.encode(plaintext[i])
  {
  }

  /** Of the encodable units, exactly the storable ones are their own byte. */
  lemma {:induction false} OwnByte(c: Codec, u: nat)
    requires IsWindows1252(c)
    ensures Storable(u) <==> Encodable(c, u) && c.encode(u) == u
  {
  }

  class LegacyPasswordCipher {
    const codec: Codec

    constructor (codec: Codec)
      ensures this.codec == codec
    {
      this.codec := codec;
    }

    method Decrypt(s: Text) returns (result: Text)
      ensures result == Decrypted(codec, s)
      ensures if |s| % 2 != 0 then result == [] else IsDecrypted(codec, s, result)
    {
      if |s| % 2 == 0 { DecryptedUnits(codec, s); }
      if s == [] || |s| % 2 != 0 { return []; }
      var half := |s| / 2;
      var dpass, rnumbers := s[..half], s[half..];
      result := [];
      for i := 0 to half
        invariant |result| == i && forall j :: 0 <= j < i ==> result[j] == Decrypted(codec, s)[j]
      {
        var raw := 255 - (codec.encode(dpass[i]) + codec.encode(rnumbers[i]));
        result := result + [raw % 65536];
      }
    }

    /**
     * For every choice of the key bytes: succeeds exactly on non-empty texts of storable code units.
     * The result is printable ASCII of twice the length and decrypts to the plaintext.
     */
    method Encrypt(plaintext: Text) returns (r: Result<Text, Failure>)
      requires IsWindows1252(codec)
      ensures r.Ok? <==> plaintext != [] && forall i :: 0 <= i < |plaintext| ==> 3 <= plaintext[i] <= 127 || 160 <= plaintext[i] <= 189
      ensures r.Ok? ==> |r.value| == 2 * |plaintext| && forall i :: 0 <= i < |r.value| ==> 33 <= r.value[i] <= 126
      ensures r.Ok? ==> Decrypted(codec, r.value) == plaintext
      ensures r == Err(Empty) <==> plaintext == []
      ensures r == Err(SelfCheckFailed) ==> exists i :: 0 <= i < |plaintext| && 128 <= codec.encode(plaintext[i]) < 160
    {
      if plaintext == [] { return Err(Empty); }
      var dpass: Text, rnumbers: Text := [], [];
      var i := 0;
      while i < |plaintext|
        invariant i == |dpass| <= |plaintext| && Halves(codec, plaintext, dpass, rnumbers)
      {
        // A character outside the basic plane never encodes to a single byte.
        if IsPair(plaintext, i) {
          assert !Storable(plaintext[i]);
          return Err(Unsupported);
        }
        var p := codec.encode(plaintext[i]);
        if codec.decode(p) != plaintext[i] {
          OwnByte(codec, plaintext[i]);
          return Err(Unsupported);
        }
        var sum := 255 - p;
        var low := if MIN < sum - MAX then sum - MAX else MIN;
        var high := if sum - MIN < MAX then sum - MIN else MAX;
        if low > high {
          OwnByte(codec, plaintext[i]);
          return Err(Unsupported);
        }
        var key: nat :| low <= key <= high;
        dpass := dpass + [sum - key];
        rnumbers := rnumbers + [key];
        i := i + 1;
      }
      var cipher := dpass + rnumbers;
      HalvesDecrypt(codec, plaintext, dpass, rnumbers);
      var check := Decrypt(cipher);
      forall k | 0 <= k < |plaintext| ensures Storable(plaintext[k]) <==> check[k] == plaintext[k] {
        OwnByte(codec, plaintext[k]);
      }
      if check != plaintext {
        Differs(codec, plaintext, check);
        return Err(SelfCheckFailed);
      }
      return Ok(cipher);
    }
  }

  /** The self-check only refuses characters whose byte is in the upper control range. */
  lemma {:induction false} Differs(c: Codec, plaintext: Text, check: Text)
    requires IsWindows1252(c) && |check| == |plaintext| && check != plaintext
    requires forall i :: 0 <= i < |plaintext| ==> check[i] == c.encode(plaintext[i]) && Encodable(c, plaintext[i])
    ensures exists i :: 0 <= i < |plaintext| && check[i] != plaintext[i] && 128 <= c.encode(plaintext[i]) < 160
  {
  }
}
