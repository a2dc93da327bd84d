/** BASE64URL without padding (section 2 of RFC 7515, section 5 of RFC 4648), encoder and
    decoder. The decoder is Go's: it skips CR and LF wherever they stand, and in strict
    mode refuses unused low bits that are not zero. */
module Base64Url {
  import opened ValidationPolicy

  type Byte = b: int | 0 <= b < 256
  type Sextet = v: int | 0 <= v < 64

  function Letter(v: Sextet): (c: char)
    ensures Value(c) == Some(v)
  {
    if v < 26 then 'A' + v as char
    else if v < 52 then 'a' + (v - 26) as char
    else if v < 62 then '0' + (v - 52) as char
    else if v == 62 then '-' else '_'
  }

  function Value(c: char): (v: Option<Sextet>)
    ensures v.Some? ==> c != '\n' && c != '\r' && c != '='
  {
    if 'A' <= c <= 'Z' then Some(c as int - 'A' as int)
    else if 'a' <= c <= 'z' then Some(c as int - 'a' as int + 26)
    else if '0' <= c <= '9' then Some(c as int - '0' as int + 52)
    else if c == '-' then Some(62)
    else if c == '_' then Some(63)
    else None
  }

  lemma LetterOfValue(c: char)
    requires Value(c).Some?
    ensures Letter(Value(c).value) == c
  {
  }

  /** `n` characters in a row. */
  function Run(first: char, n: nat): (r: string)
    requires first as int + n < 128
    ensures |r| == n && forall i :: 0 <= i < n ==> r[i] as int == first as int + i
    decreases n
  {
    if n == 0 then "" else [first] + Run(first + 1 as char, n - 1)
  }

  /** Table 2 in section 5 of RFC 4648: capitals, small letters, digits, minus, underline. */
  function Alphabet(): (r: string)
    ensures |r| == 64
  {
    Run('A', 26) + Run('a', 26) + Run('0', 10) + "-_"
  }

  lemma AlphabetIsStandard(c: char)
    ensures forall v: Sextet :: Letter(v) == Alphabet()[v] && Value(Alphabet()[v]) == Some(v)
    ensures Value(c).Some? <==> c in Alphabet()
  {
    hide Letter, Value, Alphabet;
    forall v: Sextet
      ensures Letter(v) == Alphabet()[v] && Value(Alphabet()[v]) == Some(v)
    {
      LetterIsInTable(v);
    }
    if Value(c).Some? {
      LetterOfValue(c);
      assert Alphabet()[Value(c).value] == c;
    }
  }

  lemma LetterIsInTable(v: Sextet)
    ensures Letter(v) == Alphabet()[v]
  {
    hide Letter, Value, Alphabet;
    TableCode(v);
    LetterCode(v);
  }

  function Code(v: Sextet): int {
    if v < 26 then 65 + v else if v < 52 then 97 + v - 26 else if v < 62 then 48 + v - 52 else if v == 62 then 45 else 95
  }

  lemma LetterCode(v: Sextet)
    ensures Letter(v) as int == Code(v)
  {
    hide Value;
  }

  lemma TableCode(v: Sextet)
    ensures Alphabet()[v] as int == Code(v)
  {
    hide Run;
  }

  function Encode(b: seq<Byte>): string {
    if |b| == 0 then ""
    else if |b| == 1 then [Letter(b[0] / 4), Letter(b[0] % 4 * 16)]
    else if |b| == 2 then [Letter(b[0] / 4), Letter(b[0] % 4 * 16 + b[1] / 16), Letter(b[1] % 16 * 4)]
    else
      [Letter(b[0] / 4), Letter(b[0] % 4 * 16 + b[1] / 16), Letter(b[1] % 16 * 4 + b[2] / 64), Letter(b[2] % 64)]
      + Encode(b[3..])
  }

  function SkipNewlines(s: string): string {
    if s == "" then ""
    else if s[0] == '\n' || s[0] == '\r' then SkipNewlines(s[1..])
    else [s[0]] + SkipNewlines(s[1..])
  }

  /** Four sextets as three bytes. */
  function Packed(v0: Sextet, v1: Sextet, v2: Sextet, v3: Sextet): seq<Byte> {
    [v0 * 4 + v1 / 16, v1 % 16 * 16 + v2 / 4, v2 % 4 * 64 + v3]
  }

  /** Quantum by quantum; a last quantum of two or three letters carries spare bits. */
  function DecodeQuanta(strict: bool, s: string): Option<seq<Byte>> {
    if |s| == 0 then Some([])
    else if |s| == 1 || Value(s[0]).None? || Value(s[1]).None? then None
    else
      var v0, v1 := Value(s[0]).value, Value(s[1]).value;
      if |s| == 2 then
        if strict && v1 % 16 != 0 then None else Some([v0 * 4 + v1 / 16])
      else if Value(s[2]).None? then None
      else
        var v2 := Value(s[2]).value;
        if |s| == 3 then
          if strict && v2 % 4 != 0 then None else Some([v0 * 4 + v1 / 16, v1 % 16 * 16 + v2 / 4])
        else if Value(s[3]).None? then None
        else
          var v3 := Value(s[3]).value;
          var rest := DecodeQuanta(strict, s[4..]);
          if rest.None? then None
          else Some(Packed(v0, v1, v2, v3) + rest.value)
  }

  function Decode(strict: bool, s: string): Option<seq<Byte>> {
    DecodeQuanta(strict, SkipNewlines(s))
  }

  lemma BytesBack(b0: Byte, b1: Byte, b2: Byte)
    ensures Packed(b0 / 4, b0 % 4 * 16 + b1 / 16, b1 % 16 * 4 + b2 / 64, b2 % 64) == [b0, b1, b2]
  {
  }

  /** Four letters, and whatever follows them. */
  lemma DecodeFour(strict: bool, v0: Sextet, v1: Sextet, v2: Sextet, v3: Sextet, rest: string)
    requires DecodeQuanta(strict, rest).Some?
    ensures DecodeQuanta(strict, [Letter(v0), Letter(v1), Letter(v2), Letter(v3)] + rest)
            == Some(Packed(v0, v1, v2, v3) + DecodeQuanta(strict, rest).value)
  {
    hide Letter, Value, Packed;
    assert ([Letter(v0), Letter(v1), Letter(v2), Letter(v3)] + rest)[4..] == rest;
  }

  lemma DecodeThree(strict: bool, b0: Byte, b1: Byte)
    ensures DecodeQuanta(strict, [Letter(b0 / 4), Letter(b0 % 4 * 16 + b1 / 16), Letter(b1 % 16 * 4)]) == Some([b0, b1])
  {
    hide Letter, Value;
  }

  lemma DecodeTwo(strict: bool, b0: Byte)
    ensures DecodeQuanta(strict, [Letter(b0 / 4), Letter(b0 % 4 * 16)]) == Some([b0])
  {
    hide Letter, Value;
  }

  lemma {:induction false} DecodeOfEncode(strict: bool, b: seq<Byte>)
    ensures DecodeQuanta(strict, Encode(b)) == Some(b)
  {
    hide Letter, Value, Packed, DecodeQuanta;
    if |b| >= 3 {
      DecodeOfEncode(strict, b[3..]);
      DecodeFour(strict, b[0] / 4, b[0] % 4 * 16 + b[1] / 16, b[1] % 16 * 4 + b[2] / 64, b[2] % 64, Encode(b[3..]));
      BytesBack(b[0], b[1], b[2]);
      assert b == [b[0], b[1], b[2]] + b[3..];
    } else if |b| == 2 {
      DecodeThree(strict, b[0], b[1]);
      assert b == [b[0], b[1]];
    } else if |b| == 1 {
      DecodeTwo(strict, b[0]);
      assert b == [b[0]];
    } else {
      DecodeNone(strict);
      assert b == [];
    }
  }

  lemma DecodeNone(strict: bool)
    ensures DecodeQuanta(strict, "") == Some([])
  {
  }

  lemma Regroup(v0: Sextet, v1: Sextet, v2: Sextet, v3: Sextet)
    ensures
      var b := Packed(v0, v1, v2, v3);
      && |b| == 3
      && b[0] / 4 == v0
      && b[0] % 4 * 16 + b[1] / 16 == v1
      && b[1] % 16 * 4 + b[2] / 64 == v2
      && b[2] % 64 == v3
  {
  }

  lemma RegroupTwo(v0: Sextet, v1: Sextet, v2: Sextet)
    requires v2 % 4 == 0
    ensures
      var b0, b1 := v0 * 4 + v1 / 16, v1 % 16 * 16 + v2 / 4;
      b0 / 4 == v0 && b0 % 4 * 16 + b1 / 16 == v1 && b1 % 16 * 4 == v2
  {
  }

  lemma RegroupOne(v0: Sextet, v1: Sextet)
    requires v1 % 16 == 0
    ensures (v0 * 4 + v1 / 16) / 4 == v0 && (v0 * 4 + v1 / 16) % 4 * 16 == v1
  {
  }

  lemma EncodeQuantum(b: seq<Byte>, rest: seq<Byte>)
    requires |b| == 3
    ensures Encode(b + rest) ==
              [Letter(b[0] / 4), Letter(b[0] % 4 * 16 + b[1] / 16), Letter(b[1] % 16 * 4 + b[2] / 64), Letter(b[2] % 64)]
              + Encode(rest)
  {
    assert (b + rest)[3..] == rest;
  }

  lemma EncodePacked(v0: Sextet, v1: Sextet, v2: Sextet, v3: Sextet, rest: seq<Byte>)
    ensures Encode(Packed(v0, v1, v2, v3) + rest) == [Letter(v0), Letter(v1), Letter(v2), Letter(v3)] + Encode(rest)
  {
    hide Letter, Encode, Packed;
    Regroup(v0, v1, v2, v3);
    EncodeQuantum(Packed(v0, v1, v2, v3), rest);
  }

  lemma DecodeQuantum(s: string)
    requires |s| >= 4 && DecodeQuanta(true, s).Some?
    ensures forall i :: 0 <= i < 4 ==> Value(s[i]).Some?
    ensures DecodeQuanta(true, s[4..]).Some?
    ensures DecodeQuanta(true, s).value ==
              Packed(Value(s[0]).value, Value(s[1]).value, Value(s[2]).value, Value(s[3]).value)
              + DecodeQuanta(true, s[4..]).value
  {
    hide Value, Packed;
  }

  lemma EncodeOfDecodeThree(s: string)
    requires |s| == 3 && DecodeQuanta(true, s).Some?
    ensures Encode(DecodeQuanta(true, s).value) == s
  {
    hide Letter, Value;
    LetterOfValue(s[0]);
    LetterOfValue(s[1]);
    LetterOfValue(s[2]);
    RegroupTwo(Value(s[0]).value, Value(s[1]).value, Value(s[2]).value);
    assert s == [s[0], s[1], s[2]];
  }

  lemma EncodeOfDecodeTwo(s: string)
    requires |s| == 2 && DecodeQuanta(true, s).Some?
    ensures Encode(DecodeQuanta(true, s).value) == s
  {
    hide Letter, Value;
    LetterOfValue(s[0]);
    LetterOfValue(s[1]);
    RegroupOne(Value(s[0]).value, Value(s[1]).value);
    assert s == [s[0], s[1]];
  }

  lemma EncodeOfDecodeLess(s: string)
    requires |s| < 2 && DecodeQuanta(true, s).Some?
    ensures Encode(DecodeQuanta(true, s).value) == s
  {
  }

  lemma {:induction false} EncodeOfDecode(s: string)
    requires DecodeQuanta(true, s).Some?
    ensures Encode(DecodeQuanta(true, s).value) == s
  {
    hide Encode, Letter, Value, DecodeQuanta, Packed;
    if |s| < 2 {
      EncodeOfDecodeLess(s);
    } else if |s| == 2 {
      EncodeOfDecodeTwo(s);
    } else if |s| == 3 {
      EncodeOfDecodeThree(s);
    } else {
      DecodeQuantum(s);
      EncodeOfDecode(s[4..]);
      forall i | 0 <= i < 4 ensures Letter(Value(s[i]).value) == s[i] { LetterOfValue(s[i]); }
      EncodePacked(Value(s[0]).value, Value(s[1]).value, Value(s[2]).value, Value(s[3]).value, DecodeQuanta(true, s[4..]).value);
      assert s == s[..4] + s[4..] && s[..4] == [s[0], s[1], s[2], s[3]];
    }
  }

  /** The strict decoder yields `b` from exactly the encoding of `b`, with CR and LF
      strewn in at will. */
  lemma DecodesIff(s: string, b: seq<Byte>)
    ensures Decode(true, s) == Some(b) <==> SkipNewlines(s) == Encode(b)
  {
    hide DecodeQuanta, Encode, SkipNewlines;
    DecodeOfEncode(true, b);
    if Decode(true, s).Some? {
      EncodeOfDecode(SkipNewlines(s));
    }
  }

  /** The letters of a quantum are the base-64 digits of its bytes' big-endian value, as in
      section 4 of RFC 4648; a short last quantum is filled up with zero bits. */
  lemma QuantumIsBigEndian(s: string)
    requires 2 <= |s| <= 4 && DecodeQuanta(true, s).Some?
    ensures forall i :: 0 <= i < |s| ==> Value(s[i]).Some?
    ensures |DecodeQuanta(true, s).value| == |s| - 1
    ensures
      var b: seq<int>, v := DecodeQuanta(true, s).value, seq(|s|, i requires 0 <= i < |s| && Value(s[i]).Some? => Value(s[i]).value as int);
      match |s|
      case 4 => b[0] * 65536 + b[1] * 256 + b[2] == ((v[0] * 64 + v[1]) * 64 + v[2]) * 64 + v[3]
      case 3 => (b[0] * 256 + b[1]) * 4 == (v[0] * 64 + v[1]) * 64 + v[2]
      case _ => b[0] * 16 == v[0] * 64 + v[1]
  {
    hide Value;
    if |s| == 4 {
      assert s[4..] == "";
    }
  }

  lemma {:induction false} NothingToSkip(s: string)
    requires '\n' !in s && '\r' !in s
    ensures SkipNewlines(s) == s
  {
    if s != "" {
      assert s == [s[0]] + s[1..];
      NothingToSkip(s[1..]);
    }
  }

  lemma {:induction false} SkippedIsSubset(s: string)
    ensures forall c :: c in SkipNewlines(s) <==> c in s && c != '\n' && c != '\r'
  {
    if s != "" {
      assert s == [s[0]] + s[1..];
      SkippedIsSubset(s[1..]);
    }
  }

  /** A padding character anywhere is refused, strict or not. */
  lemma {:induction false} PaddingRefused(strict: bool, s: string)
    requires '=' in s
    ensures DecodeQuanta(strict, s).None?
  {
    if |s| >= 4 && DecodeQuanta(strict, s).Some? {
      assert s == [s[0], s[1], s[2], s[3]] + s[4..];
      PaddingRefused(strict, s[4..]);
    }
  }
}
