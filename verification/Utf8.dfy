/** UTF-8: Go's utf8.DecodeRune, and the encoding of RFC 3629 (sections 3 and 4) it reads. */
module Utf8 {
  type Byte = b: int | 0 <= b < 256

  const RUNE_ERROR := 0xFFFD

  /** A Unicode scalar value: no surrogates. */
  predicate Scalar(r: int) { 0 <= r < 0xD800 || 0xE000 <= r <= 0x10FFFF }

  /** The length a leading byte announces and the range of the byte after it; length 0 for a
      byte that cannot lead. */
  function Lead(b: Byte): (nat, int, int) {
    if 0xC2 <= b <= 0xDF then (2, 0x80, 0xBF)
    else if b == 0xE0 then (3, 0xA0, 0xBF)
    else if b == 0xED then (3, 0x80, 0x9F)
    else if 0xE1 <= b <= 0xEF then (3, 0x80, 0xBF)
    else if b == 0xF0 then (4, 0x90, 0xBF)
    else if 0xF1 <= b <= 0xF3 then (4, 0x80, 0xBF)
    else if b == 0xF4 then (4, 0x80, 0x8F)
    else (0, 0, 0)
  }

  predicate Continues(b: Byte) { 0x80 <= b <= 0xBF }

  /** The first rune and its size; an invalid first byte is (U+FFFD, 1). */
  function DecodeRune(s: seq<Byte>): (int, nat)
    requires s != []
  {
    if s[0] < 0x80 then (s[0], 1)
    else
      var (size, lo, hi) := Lead(s[0]);
      if size == 0 || |s| < size || !(lo <= s[1] <= hi) then (RUNE_ERROR, 1)
      else if size == 2 then (Join6(Bits(s[0], 0xC0), s[1]), 2)
      else if !Continues(s[2]) then (RUNE_ERROR, 1)
      else if size == 3 then (Join6(Join6(Bits(s[0], 0xE0), s[1]), s[2]), 3)
      else if !Continues(s[3]) then (RUNE_ERROR, 1)
      else (Join6(Join6(Join6(Bits(s[0], 0xF0), s[1]), s[2]), s[3]), 4)
  }

  /** A byte without its marker bits. */
  function Bits(b: int, marker: int): int { b - marker }

  /** Six more bits, from a continuation byte. */
  function Join6(high: int, b: int): int { high * 64 + Bits(b, 0x80) }

  /** The last six bits as a continuation byte. */
  function Low6(r: int): Byte { 0x80 + r % 64 }

  /** RFC 3629 section 3. */
  function EncodeRune(r: int): seq<Byte>
    requires Scalar(r)
  {
    if r < 0x80 then [r]
    else if r < 0x800 then [0xC0 + r / 64, Low6(r)]
    else if r < 0x10000 then [0xE0 + r / 64 / 64, Low6(r / 64), Low6(r)]
    else [0xF0 + r / 64 / 64 / 64, Low6(r / 64 / 64), Low6(r / 64), Low6(r)]
  }

  predicate Scalars(rs: seq<int>) { forall i | 0 <= i < |rs| :: Scalar(rs[i]) }

  function EncodeAll(rs: seq<int>): seq<Byte>
    requires Scalars(rs)
  {
    if rs == [] then [] else EncodeRune(rs[0]) + EncodeAll(rs[1..])
  }

  lemma {:induction false} DecodeSize(s: seq<Byte>)
    requires s != []
    ensures 1 <= DecodeRune(s).1 <= |s|
  {
  }

  /** The runes a Go loop over DecodeRune sees. */
  function Runes(s: seq<Byte>): seq<int>
    decreases |s|
  {
    if s == [] then [] else [DecodeRune(s).0] + Runes(After(s))
  }

  /** What follows the first rune. */
  function After(s: seq<Byte>): (rest: seq<Byte>)
    requires s != []
    ensures |rest| < |s|
  {
    DecodeSize(s);
    s[DecodeRune(s).1..]
  }

  /** utf8.Valid. */
  predicate Valid(s: seq<Byte>)
    decreases |s|
  {
    s == [] || (DecodeRune(s) != (RUNE_ERROR, 1) && Valid(After(s)))
  }

  lemma {:induction false} JoinLow(r: int)
    ensures Join6(r / 64, Low6(r)) == r && Continues(Low6(r))
  {
  }

  lemma {:induction false} LowJoin(high: int, b: Byte)
    requires Continues(b)
    ensures Join6(high, b) / 64 == high && Low6(Join6(high, b)) == b
  {
  }

  lemma {:induction false} Decode2(s: seq<Byte>, r: int)
    requires 0x80 <= r < 0x800 && |s| >= 2 && s[0] == 0xC0 + r / 64 && s[1] == Low6(r)
    ensures DecodeRune(s) == (r, 2)
  {
    JoinLow(r);
  }

  lemma {:induction false} Decode3(s: seq<Byte>, r: int)
    requires 0x800 <= r < 0x10000 && Scalar(r)
    requires |s| >= 3 && s[0] == 0xE0 + r / 64 / 64 && s[1] == Low6(r / 64) && s[2] == Low6(r)
    ensures DecodeRune(s) == (r, 3)
  {
    JoinLow(r);
    JoinLow(r / 64);
    assert s[0] == 0xED ==> r / 64 < 0xD800 / 64;
  }

  lemma {:induction false} Decode4(s: seq<Byte>, r: int)
    requires 0x10000 <= r <= 0x10FFFF && |s| >= 4
    requires s[0] == 0xF0 + r / 64 / 64 / 64 && s[1] == Low6(r / 64 / 64) && s[2] == Low6(r / 64) && s[3] == Low6(r)
    ensures DecodeRune(s) == (r, 4)
  {
    JoinLow(r);
    JoinLow(r / 64);
    JoinLow(r / 64 / 64);
  }

  /** Decoding undoes encoding, whatever follows. */
  lemma {:induction false} DecodeOfEncode(r: int, rest: seq<Byte>)
    requires Scalar(r)
    ensures DecodeRune(EncodeRune(r) + rest) == (r, |EncodeRune(r)|)
  {
    var s := EncodeRune(r) + rest;
    if r < 0x80 {
    } else if r < 0x800 {
      Decode2(s, r);
    } else if r < 0x10000 {
      Decode3(s, r);
    } else {
      Decode4(s, r);
    }
  }

  lemma {:induction false} Encode2(s: seq<Byte>)
    requires s != [] && DecodeRune(s).1 == 2
    ensures Scalar(DecodeRune(s).0) && |s| >= 2 && EncodeRune(DecodeRune(s).0) == [s[0], s[1]]
  {
    LowJoin(Bits(s[0], 0xC0), s[1]);
  }

  lemma {:induction false} Encode3(s: seq<Byte>)
    requires s != [] && DecodeRune(s).1 == 3
    ensures Scalar(DecodeRune(s).0) && |s| >= 3 && EncodeRune(DecodeRune(s).0) == [s[0], s[1], s[2]]
  {
    var a := Join6(Bits(s[0], 0xE0), s[1]);
    LowJoin(Bits(s[0], 0xE0), s[1]);
    LowJoin(a, s[2]);
    assert s[0] == 0xE0 ==> a >= 0x20;
    assert s[0] == 0xED ==> a < 0xD800 / 64;
  }

  lemma {:induction false} Encode4(s: seq<Byte>)
    requires s != [] && DecodeRune(s).1 == 4
    ensures Scalar(DecodeRune(s).0) && |s| >= 4 && EncodeRune(DecodeRune(s).0) == [s[0], s[1], s[2], s[3]]
  {
    var a := Join6(Bits(s[0], 0xF0), s[1]);
    LowJoin(Bits(s[0], 0xF0), s[1]);
    LowJoin(a, s[2]);
    LowJoin(Join6(a, s[2]), s[3]);
    assert s[0] == 0xF0 ==> a >= 0x10;
    assert s[0] == 0xF4 ==> a < 0x110;
  }

  /** What decodes without an error is the encoding of its rune. */
  lemma {:induction false} EncodeOfDecode(s: seq<Byte>)
    requires s != [] && DecodeRune(s) != (RUNE_ERROR, 1)
    ensures Scalar(DecodeRune(s).0)
    ensures 1 <= DecodeRune(s).1 <= |s|
    ensures s[..DecodeRune(s).1] == EncodeRune(DecodeRune(s).0)
  {
    DecodeSize(s);
    var n := DecodeRune(s).1;
    if n == 1 {
      assert s[..1] == [s[0]];
    } else if n == 2 {
      Encode2(s);
    } else if n == 3 {
      Encode3(s);
    } else {
      Encode4(s);
    }
  }

  lemma {:induction false} RunesAreScalars(s: seq<Byte>)
    ensures Scalars(Runes(s))
    decreases |s|
  {
    if s != [] {
      RunesAreScalars(After(s));
      FirstIsScalar(s);
    }
  }

  lemma {:induction false} FirstIsScalar(s: seq<Byte>)
    requires s != []
    ensures Scalar(DecodeRune(s).0)
  {
    if DecodeRune(s) != (RUNE_ERROR, 1) {
      EncodeOfDecode(s);
    }
  }

  /** One encoded rune in front of anything is read as that rune. */
  lemma {:induction false} ReadsEncoded(r: int, rest: seq<Byte>)
    requires Scalar(r)
    ensures EncodeRune(r) + rest != []
    ensures DecodeRune(EncodeRune(r) + rest).0 == r && After(EncodeRune(r) + rest) == rest
    ensures DecodeRune(EncodeRune(r) + rest) != (RUNE_ERROR, 1)
  {
    DecodeOfEncode(r, rest);
  }

  lemma {:induction false} ConsOfEncoded(r: int, rest: seq<Byte>)
    requires Scalar(r)
    ensures Runes(EncodeRune(r) + rest) == [r] + Runes(rest)
    ensures Valid(EncodeRune(r) + rest) <==> Valid(rest)
  {
    ReadsEncoded(r, rest);
  }

  lemma {:induction false} FirstOfEncoded(rs: seq<int>, rest: seq<Byte>)
    requires Scalars(rs) && rs != []
    ensures Runes(EncodeAll(rs) + rest) == [rs[0]] + Runes(EncodeAll(rs[1..]) + rest)
    ensures Valid(EncodeAll(rs) + rest) <==> Valid(EncodeAll(rs[1..]) + rest)
  {
    ConsOfEncoded(rs[0], EncodeAll(rs[1..]) + rest);
    assert EncodeAll(rs) + rest == EncodeRune(rs[0]) + (EncodeAll(rs[1..]) + rest);
  }

  lemma {:induction false} NothingEncoded(rest: seq<Byte>)
    ensures EncodeAll([]) + rest == rest
  {
  }

  lemma {:induction false} RunesOfEncoded(rs: seq<int>, rest: seq<Byte>)
    requires Scalars(rs)
    ensures Runes(EncodeAll(rs) + rest) == rs + Runes(rest)
    ensures Valid(EncodeAll(rs) + rest) <==> Valid(rest)
  {
    NothingEncoded(rest);
    hide DecodeRune, EncodeRune, Runes, EncodeAll, Valid;
    if rs != [] {
      FirstOfEncoded(rs, rest);
      RunesOfEncoded(rs[1..], rest);
    }
  }

  lemma {:induction false} FirstIsEncoding(s: seq<Byte>)
    requires s != [] && DecodeRune(s) != (RUNE_ERROR, 1)
    ensures Scalar(DecodeRune(s).0) && s == EncodeRune(DecodeRune(s).0) + After(s)
  {
    EncodeOfDecode(s);
  }

  lemma {:induction false} EncodeHead(rs: seq<int>)
    requires rs != [] && Scalar(rs[0]) && Scalars(rs[1..])
    ensures Scalars(rs) && EncodeAll(rs) == EncodeRune(rs[0]) + EncodeAll(rs[1..])
  {
    forall i | 0 <= i < |rs| ensures Scalar(rs[i]) {
      assert i > 0 ==> rs[i] == rs[1..][i - 1];
    }
  }

  lemma {:induction false} ValidIsEncoded(s: seq<Byte>)
    requires Valid(s)
    ensures Scalars(Runes(s)) && EncodeAll(Runes(s)) == s
    decreases |s|
  {
    if s != [] {
      FirstIsEncoding(s);
      ValidIsEncoded(After(s));
      var rs := Runes(s);
      assert rs[0] == DecodeRune(s).0 && rs[1..] == Runes(After(s));
      EncodeHead(rs);
    }
  }

  /** utf8.Valid accepts exactly the RFC's encodings of scalar values. */
  lemma {:induction false} ValidExactly(s: seq<Byte>)
    ensures Valid(s) <==> exists rs: seq<int> | Scalars(rs) :: EncodeAll(rs) == s
  {
    if Valid(s) {
      ValidIsEncoded(s);
    }
    if rs: seq<int> :| Scalars(rs) && EncodeAll(rs) == s {
      RunesOfEncoded(rs, []);
      assert EncodeAll(rs) + [] == s;
    }
  }
}
