/** appendJSONString, the one-pass escaper of metrics.push: proved equal to a per-rune
    escape, whose output a JSON parser (RFC 8259 section 7) reads back. */
module JsonEscape {
  import opened Wrappers
  import opened Utf8

  const QUOTE: Byte := 0x22
  const BACKSLASH: Byte := 0x5C

  function HexDigit(d: int): Byte
    requires 0 <= d < 16
  {
    if d < 10 then 0x30 + d else 0x57 + d
  }

  /** An ASCII byte as it goes out. */
  function EscapeAscii(c: Byte): seq<Byte>
    requires c < 0x80
  {
    if c == QUOTE || c == BACKSLASH then [BACKSLASH, c]
    else if c == 0x0A then [BACKSLASH, 0x6E]
    else if c == 0x0D then [BACKSLASH, 0x72]
    else if c == 0x09 then [BACKSLASH, 0x74]
    else if c < 0x20 then [BACKSLASH, 0x75, 0x30, 0x30, HexDigit(c / 16), HexDigit(c % 16)]
    else [c]
  }

  predicate LineSeparator(r: int) { r == 0x2028 || r == 0x2029 }

  function EscapeSeparator(r: int): seq<Byte>
    requires LineSeparator(r)
  {
    [BACKSLASH, 0x75, 0x32, 0x30, 0x32, HexDigit(r % 16)]
  }

  const REPLACEMENT: seq<Byte> := [0xEF, 0xBF, 0xBD]

  /** The first rune as it goes out. */
  function EscapeFirst(s: seq<Byte>): seq<Byte>
    requires s != []
  {
    if s[0] < 0x80 then EscapeAscii(s[0])
    else
      DecodeSize(s);
      var (r, size) := DecodeRune(s);
      if r == RUNE_ERROR && size == 1 then REPLACEMENT
      else if LineSeparator(r) then EscapeSeparator(r)
      else s[..size]
  }

  /** The escape rune by rune. */
  function Escaped(s: seq<Byte>): seq<Byte>
    decreases |s|
  {
    if s == [] then []
    else EscapeFirst(s) + Escaped(After(s))
  }

  /** The lagging start: what was copied, the run since `start` and the rest make the whole. */
  ghost predicate Lagging(out: seq<Byte>, s: seq<Byte>, start: nat, i: nat, goal: seq<Byte>) {
    start <= i <= |s| && out + s[start..i] + Escaped(s[i..]) == goal
  }

  lemma {:induction false} EscapedCons(s: seq<Byte>, i: nat, size: nat)
    requires i < |s| && size == DecodeRune(s[i..]).1
    ensures i + size <= |s| && Escaped(s[i..]) == EscapeFirst(s[i..]) + Escaped(s[i + size..])
  {
    DecodeSize(s[i..]);
    assert After(s[i..]) == s[i..][size..] == s[i + size..];
  }

  /** A rune that goes out as it is only moves the end of the run. */
  lemma {:induction false} RunGrows(out: seq<Byte>, s: seq<Byte>, start: nat, i: nat, goal: seq<Byte>, size: nat)
    requires Lagging(out, s, start, i, goal) && i < |s| && size == DecodeRune(s[i..]).1
    requires size <= |s| - i && EscapeFirst(s[i..]) == s[i..i + size]
    ensures Lagging(out, s, start, i + size, goal)
  {
    EscapedCons(s, i, size);
    hide Escaped, EscapeFirst, DecodeRune;
    assert s[start..i + size] == s[start..i] + s[i..i + size];
  }

  /** An escaped rune ends the run, copies it and starts a new one. */
  lemma {:induction false} RunEnds(out: seq<Byte>, s: seq<Byte>, start: nat, i: nat, goal: seq<Byte>, size: nat, next: seq<Byte>)
    requires Lagging(out, s, start, i, goal) && i < |s| && size == DecodeRune(s[i..]).1
    requires next == out + s[start..i] + EscapeFirst(s[i..])
    ensures i + size <= |s| && Lagging(next, s, i + size, i + size, goal)
  {
    EscapedCons(s, i, size);
    hide Escaped, EscapeFirst, DecodeRune;
    assert s[i + size..i + size] == [];
  }

  /** What a rune of at least two bytes goes out as. */
  lemma {:induction false} FirstOfHigh(s: seq<Byte>, i: nat)
    requires i < |s| && s[i] >= 0x80
    ensures var (r, size) := DecodeRune(s[i..]);
            i + size <= |s| && size >= 1 &&
            EscapeFirst(s[i..]) == if r == RUNE_ERROR && size == 1 then REPLACEMENT
                                   else if LineSeparator(r) then EscapeSeparator(r)
                                   else s[i..i + size]
  {
    DecodeSize(s[i..]);
    assert s[i..][..DecodeRune(s[i..]).1] == s[i..i + DecodeRune(s[i..]).1];
  }

  lemma {:induction false} FirstOfAscii(s: seq<Byte>, i: nat)
    requires i < |s| && s[i] < 0x80
    ensures EscapeFirst(s[i..]) == EscapeAscii(s[i]) && DecodeRune(s[i..]) == (s[i] as int, 1)
    ensures s[i..i + 1] == [s[i]]
  {
  }

  lemma {:induction false} LagsAtFirst(out: seq<Byte>, s: seq<Byte>)
    ensures Lagging(out, s, 0, 0, out + Escaped(s))
  {
    assert s[0..] == s;
  }

  lemma {:induction false} LagsAtLast(out: seq<Byte>, s: seq<Byte>, start: nat, goal: seq<Byte>)
    requires Lagging(out, s, start, |s|, goal)
    ensures out + s[start..] == goal
  {
    assert s[start..|s|] == s[start..];
  }

  /** The escape of one ASCII byte. */
  method EscapeByte(c: Byte) returns (esc: seq<Byte>)
    requires c < 0x20 || c == QUOTE || c == BACKSLASH
    ensures esc == EscapeAscii(c)
  {
    if c == QUOTE || c == BACKSLASH {
      return [BACKSLASH, c];
    } else if c == 0x0A {
      return [BACKSLASH, 0x6E];
    } else if c == 0x0D {
      return [BACKSLASH, 0x72];
    } else if c == 0x09 {
      return [BACKSLASH, 0x74];
    }
    return [BACKSLASH, 0x75, 0x30, 0x30, HexDigit(c / 16), HexDigit(c % 16)];
  }

  /** One ASCII byte of the loop. */
  method AdvanceAscii(before: seq<Byte>, s: seq<Byte>, start: nat, i: nat, ghost goal: seq<Byte>)
      returns (out: seq<Byte>, start': nat, i': nat)
    requires Lagging(before, s, start, i, goal) && i < |s| && s[i] < 0x80
    ensures i < i' <= |s| && start' <= i' && Lagging(out, s, start', i', goal)
  {
    hide Escaped, EscapeFirst, DecodeRune, EscapeAscii;
    var c := s[i];
    FirstOfAscii(s, i);
    if c >= 0x20 && c != QUOTE && c != BACKSLASH {
      PlainAscii(c);
      RunGrows(before, s, start, i, goal, 1);
      return before, start, i + 1;
    }
    var esc := EscapeByte(c);
    out := before + s[start..i] + esc;
    RunEnds(before, s, start, i, goal, 1, out);
    return out, i + 1, i + 1;
  }

  lemma {:induction false} PlainAscii(c: Byte)
    requires 0x20 <= c < 0x80 && c != QUOTE && c != BACKSLASH
    ensures EscapeAscii(c) == [c]
  {
  }

  /** One rune of the loop that starts with a byte from 0x80 on. */
  method AdvanceHigh(before: seq<Byte>, s: seq<Byte>, start: nat, i: nat, ghost goal: seq<Byte>)
      returns (out: seq<Byte>, start': nat, i': nat)
    requires Lagging(before, s, start, i, goal) && i < |s| && s[i] >= 0x80
    ensures i < i' <= |s| && start' <= i' && Lagging(out, s, start', i', goal)
  {
    hide Escaped, EscapeFirst, DecodeRune, EscapeSeparator;
    FirstOfHigh(s, i);
    var (r, size) := DecodeRune(s[i..]);
    if r == RUNE_ERROR && size == 1 {
      out := before + s[start..i] + REPLACEMENT;
    } else if LineSeparator(r) {
      out := before + s[start..i] + EscapeSeparator(r);
    } else {
      RunGrows(before, s, start, i, goal, size);
      return before, start, i + size;
    }
    RunEnds(before, s, start, i, goal, size, out);
    return out, i + size, i + size;
  }

  /** The loop: bytes that need no escape are copied in runs, from `start`. */
  method AppendJSONString(dst: seq<Byte>, s: seq<Byte>) returns (out: seq<Byte>)
    ensures out == dst + [QUOTE] + Escaped(s) + [QUOTE]
  {
    out := dst + [QUOTE];
    var start: nat, i: nat := 0, 0;
    ghost var goal := out + Escaped(s);
    LagsAtFirst(out, s);
    hide Escaped, Lagging;
    while i < |s|
      invariant start <= i <= |s| && Lagging(out, s, start, i, goal)
      decreases |s| - i
    {
      if s[i] < 0x80 {
        out, start, i := AdvanceAscii(out, s, start, i, goal);
      } else {
        out, start, i := AdvanceHigh(out, s, start, i, goal);
      }
    }
    LagsAtLast(out, s, start, goal);
    out := out + s[start..];
    out := out + [QUOTE];
  }

  // ---- a JSON string (RFC 8259 section 7), over code points ----

  function HexValue(c: int): Option<int> {
    if 0x30 <= c <= 0x39 then Some(c - 0x30)
    else if 0x41 <= c <= 0x46 then Some(c - 0x37)
    else if 0x61 <= c <= 0x66 then Some(c - 0x57)
    else None
  }

  function Hex4(t: seq<int>): Option<int>
    requires |t| >= 4
  {
    match (HexValue(t[0]), HexValue(t[1]), HexValue(t[2]), HexValue(t[3]))
    case (Some(a), Some(b), Some(c), Some(d)) => Some(a * 0x1000 + b * 0x100 + c * 0x10 + d)
    case _ => None
  }

  /** The letter escapes. */
  function ShortEscape(c: int): Option<int> {
    if c == 0x22 || c == 0x5C || c == 0x2F then Some(c)
    else if c == 0x62 then Some(0x08)
    else if c == 0x66 then Some(0x0C)
    else if c == 0x6E then Some(0x0A)
    else if c == 0x72 then Some(0x0D)
    else if c == 0x74 then Some(0x09)
    else None
  }

  /** A surrogate pair right after the first `\u` code unit. */
  function LowSurrogate(t: seq<int>): Option<int> {
    if |t| >= 6 && t[0] == 0x5C && t[1] == 0x75 then
      match Hex4(t[2..])
      case Some(u) => if 0xDC00 <= u <= 0xDFFF then Some(u) else None
      case None => None
    else None
  }

  function Cons(r: int, parsed: Option<(seq<int>, seq<int>)>): Option<(seq<int>, seq<int>)> {
    match parsed
    case Some((rs, rest)) => Some(([r] + rs, rest))
    case None => None
  }

  /** The characters up to the closing quote, and what follows it. */
  function ParseChars(t: seq<int>): Option<(seq<int>, seq<int>)>
    decreases |t|
  {
    if t == [] || t[0] < 0x20 then None
    else if t[0] == 0x22 then Some(([], t[1..]))
    else if t[0] != 0x5C then Cons(t[0], ParseChars(t[1..]))
    else if |t| >= 2 && ShortEscape(t[1]).Some? then Cons(ShortEscape(t[1]).value, ParseChars(t[2..]))
    else if |t| < 6 || t[1] != 0x75 || Hex4(t[2..]).None? then None
    else
      var u := Hex4(t[2..]).value;
      match LowSurrogate(t[6..])
      case Some(low) =>
        if 0xD800 <= u <= 0xDBFF
        then Cons(0x10000 + (u - 0xD800) * 0x400 + (low - 0xDC00), ParseChars(t[12..]))
        else Cons(u, ParseChars(t[6..]))
      case None => Cons(u, ParseChars(t[6..]))
  }

  /** A whole JSON string. */
  function ParseString(t: seq<int>): Option<seq<int>> {
    if t == [] || t[0] != 0x22 then None
    else
      match ParseChars(t[1..])
      case Some((rs, rest)) => if rest == [] then Some(rs) else None
      case None => None
  }

  // ---- the round trip ----

  /** The code points a rune goes out as. */
  function EscapeRune(r: int): seq<int>
    requires Scalar(r)
  {
    if r < 0x80 then EscapeAscii(r) else if LineSeparator(r) then EscapeSeparator(r) else [r]
  }

  function EscapeRunes(rs: seq<int>): seq<int>
    requires Scalars(rs)
  {
    if rs == [] then [] else EscapeRune(rs[0]) + EscapeRunes(rs[1..])
  }

  lemma {:induction false} AsciiEncodesItself(t: seq<int>)
    requires forall i | 0 <= i < |t| :: 0 <= t[i] < 0x80
    ensures Scalars(t) && EncodeAll(t) == t
  {
    if t != [] {
      AsciiEncodesItself(t[1..]);
      assert t == [t[0]] + t[1..];
    }
  }

  lemma {:induction false} EncodeAppend(a: seq<int>, b: seq<int>)
    requires Scalars(a) && Scalars(b)
    ensures Scalars(a + b) && EncodeAll(a + b) == EncodeAll(a) + EncodeAll(b)
  {
    if a == [] {
      assert a + b == b;
    } else {
      EncodeAppend(a[1..], b);
      assert (a + b)[1..] == a[1..] + b;
      assert (a + b)[0] == a[0];
      EncodeHead(a + b);
      EncodeHead(a);
    }
  }

  lemma {:induction false} EscapeRuneScalars(r: int)
    requires Scalar(r)
    ensures Scalars(EscapeRune(r))
    ensures r < 0x80 ==> EncodeAll(EscapeRune(r)) == EscapeAscii(r)
    ensures LineSeparator(r) ==> EncodeAll(EscapeRune(r)) == EscapeSeparator(r)
    ensures r >= 0x80 && !LineSeparator(r) ==> EncodeAll(EscapeRune(r)) == EncodeRune(r)
  {
    if r < 0x80 || LineSeparator(r) {
      AsciiEncodesItself(EscapeRune(r));
    } else {
      assert EncodeAll([r]) == EncodeRune(r) + EncodeAll([]);
    }
  }

  lemma {:induction false} EscapeRunesScalars(rs: seq<int>)
    requires Scalars(rs)
    ensures Scalars(EscapeRunes(rs))
  {
    if rs != [] {
      EscapeRuneScalars(rs[0]);
      EscapeRunesScalars(rs[1..]);
    }
  }

  /** The bytes that go out are the encoding of the escaped runes. */
  lemma {:induction false} EscapedIsEncoded(s: seq<Byte>)
    ensures Scalars(Runes(s)) && Scalars(EscapeRunes(Runes(s)))
    ensures Escaped(s) == EncodeAll(EscapeRunes(Runes(s)))
    decreases |s|
  {
    RunesAreScalars(s);
    EscapeRunesScalars(Runes(s));
    if s != [] {
      var r, rest := DecodeRune(s).0, After(s);
      EscapedIsEncoded(rest);
      FirstIsEncoded(s);
      EscapeRuneScalars(r);
      EncodeAppend(EscapeRune(r), EscapeRunes(Runes(rest)));
      assert Runes(s)[1..] == Runes(rest) && Runes(s)[0] == r;
    }
  }

  lemma {:induction false} FirstIsEncoded(s: seq<Byte>)
    requires s != []
    ensures Scalar(DecodeRune(s).0)
    ensures Scalars(EscapeRune(DecodeRune(s).0)) && EscapeFirst(s) == EncodeAll(EscapeRune(DecodeRune(s).0))
  {
    DecodeSize(s);
    var (r, size) := DecodeRune(s);
    if r == RUNE_ERROR && size == 1 {
      assert EncodeRune(RUNE_ERROR) == REPLACEMENT;
    } else {
      EncodeOfDecode(s);
      if s[0] >= 0x80 { HighRunes(s); }
    }
    EscapeRuneScalars(r);
  }

  lemma {:induction false} HighRunes(s: seq<Byte>)
    requires s != [] && s[0] >= 0x80 && DecodeRune(s) != (RUNE_ERROR, 1)
    ensures DecodeRune(s).0 >= 0x80
  {
    EncodeOfDecode(s);
  }

  /** Reading one escaped rune gives the rune. */
  lemma {:induction false} ParseRune(r: int, t: seq<int>)
    requires Scalar(r)
    ensures ParseChars(EscapeRune(r) + t) == Cons(r, ParseChars(t))
  {
    var e := EscapeRune(r);
    assert (e + t)[|e|..] == t;
    if |e| == 6 {
      var u := e + t;
      assert u[2..][0] == e[2] && u[2..][1] == e[3] && u[2..][2] == e[4] && u[2..][3] == e[5];
      if r < 0x80 {
        assert r == r / 16 * 16 + r % 16;
      }
      assert Hex4(u[2..]) == Some(r);
    }
  }

  lemma {:induction false} ParseRunes(rs: seq<int>)
    requires Scalars(rs)
    ensures ParseChars(EscapeRunes(rs) + [0x22]) == Some((rs, []))
  {
    if rs == [] {
      assert EscapeRunes(rs) + [0x22] == [0x22];
      assert [0x22][1..] == [];
    } else {
      var e, more := EscapeRune(rs[0]), EscapeRunes(rs[1..]) + [0x22];
      assert EscapeRunes(rs) + [0x22] == e + more;
      ParseRune(rs[0], more);
      ParseRunes(rs[1..]);
      assert [rs[0]] + rs[1..] == rs;
    }
  }

  /** Round trip: for every byte string the output is valid UTF-8 and one JSON string, and
      reading it gives the input's runes, each byte of invalid UTF-8 as U+FFFD. */
  lemma {:induction false} RoundTrip(s: seq<Byte>)
    ensures var out := [QUOTE] + Escaped(s) + [QUOTE];
            Valid(out) && ParseString(Runes(out)) == Some(Runes(s))
  {
    var out := [QUOTE] + Escaped(s) + [QUOTE];
    EscapedIsEncoded(s);
    var cps := EscapeRunes(Runes(s));
    AsciiEncodesItself([0x22]);
    EncodeAppend(cps, [0x22]);
    EncodeAppend([0x22], cps + [0x22]);
    var all := [0x22] + (cps + [0x22]);
    assert out == EncodeAll(all);
    RunesOfEncoded(all, []);
    assert out + [] == out && all + [] == all;
    assert all[1..] == cps + [0x22];
    ParseRunes(Runes(s));
  }

  /** Text that is valid UTF-8 comes back as it was. */
  lemma {:induction false} RoundTripOfValid(s: seq<Byte>)
    requires Valid(s)
    ensures var read := ParseString(Runes([QUOTE] + Escaped(s) + [QUOTE]));
            read.Some? && Scalars(read.value) && EncodeAll(read.value) == s
  {
    RoundTrip(s);
    ValidIsEncoded(s);
  }

  // ---- what the output looks like ----

  /** Goes out as it is: everything but quote, backslash, control characters and the two line
      separators. */
  predicate AsIs(r: int) { r >= 0x20 && r != 0x22 && r != 0x5C && r != 0x2028 && r != 0x2029 }

  lemma {:induction false} EscapeRuneExactly(r: int)
    requires Scalar(r)
    ensures AsIs(r) <==> EscapeRune(r) == [r]
    ensures forall i | 0 <= i < |EscapeRune(r)| :: EscapeRune(r)[i] >= 0x20 && !LineSeparator(EscapeRune(r)[i])
    ensures r == 0x22 || r == 0x5C ==> EscapeRune(r) == [0x5C, r]
    ensures r == 0x0A ==> EscapeRune(r) == [0x5C, 0x6E]
    ensures r == 0x0D ==> EscapeRune(r) == [0x5C, 0x72]
    ensures r == 0x09 ==> EscapeRune(r) == [0x5C, 0x74]
    ensures 0 <= r < 0x20 && r != 0x0A && r != 0x0D && r != 0x09 ==>
              |EscapeRune(r)| == 6 && EscapeRune(r)[..4] == [0x5C, 0x75, 0x30, 0x30] && Hex4(EscapeRune(r)[2..]) == Some(r)
    ensures r == 0x2028 || r == 0x2029 ==> EscapeRune(r) == [0x5C, 0x75, 0x32, 0x30, 0x32, 0x38 + (r - 0x2028)]
  {
    if 0 <= r < 0x20 {
      assert r == r / 16 * 16 + r % 16;
    }
  }

  /** The output has no control character and no line separator, whatever the input has. */
  lemma {:induction false} OutputIsSafe(s: seq<Byte>)
    ensures var out := Runes([QUOTE] + Escaped(s) + [QUOTE]);
            forall i | 0 <= i < |out| :: out[i] >= 0x20 && out[i] != 0x2028 && out[i] != 0x2029
  {
    var all := OutputRunes(s);
    SafeRunes(Runes(s));
    hide Runes, EscapeRunes, Escaped, EncodeAll;
  }

  /** The output's runes: the escaped ones, in quotes. */
  lemma {:induction false} OutputRunes(s: seq<Byte>) returns (all: seq<int>)
    ensures Scalars(Runes(s)) && all == [0x22] + (EscapeRunes(Runes(s)) + [0x22])
    ensures Runes([QUOTE] + Escaped(s) + [QUOTE]) == all
  {
    EscapedIsEncoded(s);
    var cps := EscapeRunes(Runes(s));
    AsciiEncodesItself([0x22]);
    hide Escaped, EscapeRunes, EncodeAll;
    EncodeAppend(cps, [0x22]);
    EncodeAppend([0x22], cps + [0x22]);
    all := [0x22] + (cps + [0x22]);
    assert [QUOTE] + Escaped(s) + [QUOTE] == EncodeAll(all);
    NoRunes();
    hide Runes;
    RunesOfEncoded(all, []);
    assert EncodeAll(all) + [] == EncodeAll(all) && all + [] == all;
  }

  lemma {:induction false} NoRunes()
    ensures Runes([]) == []
  {
  }

  lemma {:induction false} SafeRunes(rs: seq<int>)
    requires Scalars(rs)
    ensures forall i | 0 <= i < |EscapeRunes(rs)| :: EscapeRunes(rs)[i] >= 0x20 && !LineSeparator(EscapeRunes(rs)[i])
  {
    if rs != [] {
      EscapeRuneExactly(rs[0]);
      hide EscapeRune;
      SafeRunes(rs[1..]);
    }
  }

  lemma {:induction false} NothingEscaped(rs: seq<int>)
    requires Scalars(rs) && forall i | 0 <= i < |rs| :: AsIs(rs[i])
    ensures EscapeRunes(rs) == rs
  {
    if rs != [] {
      EscapeRuneExactly(rs[0]);
      hide EscapeRune;
      NothingEscaped(rs[1..]);
      assert rs == [rs[0]] + rs[1..];
    }
  }

  /** Valid text without such characters goes out byte for byte: nothing else is escaped. */
  lemma {:induction false} PlainTextAsIs(s: seq<Byte>)
    requires Valid(s) && forall i | 0 <= i < |Runes(s)| :: AsIs(Runes(s)[i])
    ensures Escaped(s) == s
  {
    EscapedIsEncoded(s);
    NothingEscaped(Runes(s));
    ValidIsEncoded(s);
  }
}
