/** Lines as a person writes them: words of bare, quoted and escaped pieces, blanks between, a
    comment behind. Whatever the spelling, the tokenizer reads the words, and a file's lookups
    answer what its lines say. */
module UciSpelling {
  import opened Wrappers
  import opened Text
  import opened UciText
  import opened UciFile

  // ---- spellings ----

  /** What stands between double quotes: a character, or any character behind a backslash. */
  datatype Inner = Raw(c: char) | Behind(c: char)

  datatype Piece = Plain(c: char) | Single(s: string) | Double(inner: seq<Inner>) | Escaped(c: char)

  function InnerText(inner: seq<Inner>): string {
    if inner == [] then ""
    else (match inner[0] case Raw(c) => [c] case Behind(c) => ['\\', c]) + InnerText(inner[1..])
  }

  function InnerValue(inner: seq<Inner>): string {
    seq(|inner|, i requires 0 <= i < |inner| => inner[i].c)
  }

  predicate ValidInner(inner: seq<Inner>) {
    forall i | 0 <= i < |inner| && inner[i].Raw? :: inner[i].c != '"' && inner[i].c != '\\'
  }

  function PieceText(p: Piece): string {
    match p
    case Plain(c) => [c]
    case Single(s) => "'" + s + "'"
    case Double(inner) => "\"" + InnerText(inner) + "\""
    case Escaped(c) => ['\\', c]
  }

  function PieceValue(p: Piece): string {
    match p
    case Plain(c) => [c]
    case Single(s) => s
    case Double(inner) => InnerValue(inner)
    case Escaped(c) => [c]
  }

  predicate ValidPiece(p: Piece) {
    match p
    case Plain(c) => c != ' ' && c != '\t' && c != '\'' && c != '"' && c != '\\'
    case Single(s) => forall i | 0 <= i < |s| :: s[i] != '\''
    case Double(inner) => ValidInner(inner)
    case Escaped(_) => true
  }

  lemma {:induction false} InnerRead(inner: seq<Inner>, rest: string, cur: string)
    requires ValidInner(inner)
    ensures DoubleQuoted(InnerText(inner) + "\"" + rest, cur) == Some((cur + InnerValue(inner), rest))
    decreases |inner|
  {
    var s := InnerText(inner) + "\"" + rest;
    if inner == [] {
      assert s[1..] == rest && cur + [] == cur;
    } else {
      var tail := InnerText(inner[1..]) + "\"" + rest;
      var c := inner[0].c;
      assert InnerValue(inner) == [c] + InnerValue(inner[1..]);
      InnerRead(inner[1..], rest, cur + [c]);
      Assoc(cur, [c], InnerValue(inner[1..]));
      assert s == (if inner[0].Raw? then [c] else ['\\', c]) + tail;
      assert inner[0].Raw? ==> c != '"' && c != '\\';
      hide InnerText, InnerValue;
      InnerStep(inner[0], tail, cur);
    }
  }

  lemma {:induction false} InnerStep(i: Inner, tail: string, cur: string)
    requires i.Raw? ==> i.c != '"' && i.c != '\\'
    ensures DoubleQuoted((if i.Raw? then [i.c] else ['\\', i.c]) + tail, cur) == DoubleQuoted(tail, cur + [i.c])
  {
    var s := (if i.Raw? then [i.c] else ['\\', i.c]) + tail;
    if i.Raw? { assert s[1..] == tail; } else { assert s[2..] == tail; }
  }

  /** Each piece adds its value to the word, whatever it holds. */
  lemma {:induction false} PieceRead(p: Piece, rest: string, words: seq<string>, cur: string, inWord: bool)
    requires ValidPiece(p) && (p == Plain('#') ==> inWord)
    ensures WordsFrom(PieceText(p) + rest, words, cur, inWord) == WordsFrom(rest, words, cur + PieceValue(p), true)
  {
    var s := PieceText(p) + rest;
    match p {
      case Plain(c) =>
        assert s[1..] == rest;
      case Single(t) =>
        PlainPiece(t, rest, words, cur, inWord);
      case Double(inner) =>
        assert s == "\"" + (InnerText(inner) + "\"" + rest);
        assert s[1..] == InnerText(inner) + "\"" + rest;
        InnerRead(inner, rest, cur);
      case Escaped(c) =>
        assert s[2..] == rest;
    }
  }

  /** A double-quoted value, with its quotes and backslashes behind backslashes. */
  function Guarded(v: string): seq<Inner> {
    seq(|v|, i requires 0 <= i < |v| => if v[i] == '"' || v[i] == '\\' then Behind(v[i]) else Raw(v[i]))
  }

  lemma {:induction false} DoubleQuotedPiece(v: string, rest: string, words: seq<string>, cur: string, inWord: bool)
    ensures WordsFrom("\"" + InnerText(Guarded(v)) + "\"" + rest, words, cur, inWord) == WordsFrom(rest, words, cur + v, true)
  {
    assert InnerValue(Guarded(v)) == v;
    PieceRead(Double(Guarded(v)), rest, words, cur, inWord);
  }

  // ---- words and lines ----

  type Word = seq<Piece>

  function WordText(w: Word): string { if w == [] then "" else PieceText(w[0]) + WordText(w[1..]) }

  function WordValue(w: Word): string { if w == [] then "" else PieceValue(w[0]) + WordValue(w[1..]) }

  predicate ValidWord(w: Word) { w != [] && w[0] != Plain('#') && forall i | 0 <= i < |w| :: ValidPiece(w[i]) }

  predicate Blanks(s: string) { forall i | 0 <= i < |s| :: s[i] == ' ' || s[i] == '\t' }

  lemma {:induction false} PiecesRead(w: Word, rest: string, words: seq<string>, cur: string, inWord: bool)
    requires (forall i | 0 <= i < |w| :: ValidPiece(w[i])) && (w != [] && w[0] == Plain('#') ==> inWord)
    ensures WordsFrom(WordText(w) + rest, words, cur, inWord) == WordsFrom(rest, words, cur + WordValue(w), inWord || w != [])
    decreases |w|
  {
    if w == [] {
      assert WordText(w) + rest == rest && cur + "" == cur;
    } else {
      var tail := WordText(w[1..]) + rest;
      assert WordText(w) + rest == PieceText(w[0]) + tail;
      PieceRead(w[0], tail, words, cur, inWord);
      PiecesRead(w[1..], rest, words, cur + PieceValue(w[0]), true);
      Assoc(cur, PieceValue(w[0]), WordValue(w[1..]));
    }
  }

  lemma {:induction false} BlanksRead(blanks: string, rest: string, words: seq<string>)
    requires Blanks(blanks)
    ensures WordsFrom(blanks + rest, words, "", false) == WordsFrom(rest, words, "", false)
  {
    if blanks == [] {
      assert blanks + rest == rest;
    } else {
      assert (blanks + rest)[1..] == blanks[1..] + rest;
      BlanksRead(blanks[1..], rest, words);
    }
  }

  /** A word and the blanks before it. */
  datatype Spaced = Spaced(before: string, word: Word)

  /** Words with blanks before each (one at least, but before the first), blanks behind and
      perhaps a comment. */
  function LineText(ws: seq<Spaced>, end: string): string {
    if ws == [] then end else ws[0].before + WordText(ws[0].word) + LineText(ws[1..], end)
  }

  function Values(ws: seq<Spaced>): seq<string> {
    seq(|ws|, i requires 0 <= i < |ws| => WordValue(ws[i].word))
  }

  predicate ValidEnd(end: string, words: bool) {
    exists k | 0 <= k <= |end| ::
      Blanks(end[..k]) && (k == |end| || (end[k] == '#' && (words ==> k > 0)))
  }

  predicate ValidLine(ws: seq<Spaced>, end: string) {
    && (forall i | 0 <= i < |ws| :: Blanks(ws[i].before) && ValidWord(ws[i].word) && (i > 0 ==> ws[i].before != ""))
    && ValidEnd(end, ws != [])
  }

  lemma {:induction false} EndRead(end: string, words: seq<string>, cur: string, inWord: bool)
    requires ValidEnd(end, inWord)
    ensures WordsFrom(end, words, cur, inWord) == Some(if inWord then words + [cur] else words)
    decreases |end|
  {
    var k :| 0 <= k <= |end| && Blanks(end[..k]) && (k == |end| || (end[k] == '#' && (inWord ==> k > 0)));
    if k > 0 {
      assert IsBlank(end[..k][0]) && end[..k][0] == end[0];
      var rest := end[1..];
      assert rest[..k - 1] == end[..k][1..];
      assert Blanks(rest[..k - 1]) && (k - 1 == |rest| || rest[k - 1] == '#');
      assert ValidEnd(rest, false);
      EndRead(rest, if inWord then words + [cur] else words, if inWord then "" else cur, false);
    }
  }

  lemma {:induction false} SpacedRead(ws: seq<Spaced>, end: string, words: seq<string>, cur: string, inWord: bool)
    requires forall i | 0 <= i < |ws| :: Blanks(ws[i].before) && ValidWord(ws[i].word) && (i > 0 || inWord ==> ws[i].before != "")
    requires ValidEnd(end, ws != [] || inWord) && (!inWord ==> cur == "")
    ensures WordsFrom(LineText(ws, end), words, cur, inWord) == Some((if inWord then words + [cur] else words) + Values(ws))
    decreases |ws|
  {
    var so := if inWord then words + [cur] else words;
    if ws == [] {
      EndRead(end, words, cur, inWord);
      assert Values(ws) == [] && so + [] == so;
    } else {
      var w, tail := ws[0], LineText(ws[1..], end);
      hide WordText, WordValue, WordsFrom, ValidEnd, Blanks, ValidWord;
      assert LineText(ws, end) == w.before + WordText(w.word) + tail;
      NextRead(w.before, w.word, tail, words, cur, inWord);
      hide LineText, Values;
      var rest := ws[1..];
      assert forall i | 0 <= i < |rest| :: rest[i] == ws[i + 1];
      SpacedRead(rest, end, so, WordValue(w.word), true);
      ValuesCons(ws);
      Assoc(so, [WordValue(w.word)], Values(rest));
    }
  }

  lemma {:induction false} ValuesCons(ws: seq<Spaced>)
    requires ws != []
    ensures Values(ws) == [WordValue(ws[0].word)] + Values(ws[1..])
  {
    hide WordValue;
  }

  /** The blanks before a word, and the word. */
  lemma {:induction false} NextRead(before: string, w: Word, rest: string, words: seq<string>, cur: string, inWord: bool)
    requires Blanks(before) && ValidWord(w) && (inWord ==> before != "") && (!inWord ==> cur == "")
    ensures WordsFrom(before + WordText(w) + rest, words, cur, inWord) ==
            WordsFrom(rest, if inWord then words + [cur] else words, WordValue(w), true)
  {
    hide WordsFrom, WordText, WordValue;
    var so := if inWord then words + [cur] else words;
    Assoc(before, WordText(w), rest);
    FirstBlank(before, WordText(w) + rest, words, cur, inWord);
    PiecesRead(w, rest, so, "", false);
    assert "" + WordValue(w) == WordValue(w);
  }

  lemma {:induction false} FirstBlank(before: string, rest: string, words: seq<string>, cur: string, inWord: bool)
    requires Blanks(before) && (inWord ==> before != "") && (!inWord ==> cur == "")
    ensures WordsFrom(before + rest, words, cur, inWord) == WordsFrom(rest, if inWord then words + [cur] else words, "", false)
  {
    if inWord {
      assert (before + rest)[1..] == before[1..] + rest;
      BlanksRead(before[1..], rest, words + [cur]);
    } else {
      BlanksRead(before, rest, words);
    }
  }

  /** Every such line is read as its words' values, in order. */
  lemma {:induction false} LineRead(ws: seq<Spaced>, end: string)
    requires ValidLine(ws, end)
    ensures Words(LineText(ws, end)) == Some(Values(ws))
  {
    SpacedRead(ws, end, [], "", false);
    assert [] + Values(ws) == Values(ws);
  }

  /** A quote that is not closed makes the line none, whatever stands before it. */
  lemma {:induction false} Unclosed(w: Word, rest: string, inner: seq<Inner>, words: seq<string>, cur: string, inWord: bool)
    requires (forall i | 0 <= i < |w| :: ValidPiece(w[i])) && (w != [] && w[0] == Plain('#') ==> inWord)
    ensures (forall i | 0 <= i < |rest| :: rest[i] != '\'') ==> WordsFrom(WordText(w) + ("'" + rest), words, cur, inWord) == None
    ensures ValidInner(inner) ==> WordsFrom(WordText(w) + ("\"" + InnerText(inner)), words, cur, inWord) == None
  {
    PiecesRead(w, "'" + rest, words, cur, inWord);
    PiecesRead(w, "\"" + InnerText(inner), words, cur, inWord);
    assert ("'" + rest)[1..] == rest && ("\"" + InnerText(inner))[1..] == InnerText(inner);
    if ValidInner(inner) { NeverCloses(inner, cur + WordValue(w)); }
    hide WordText;
  }

  lemma {:induction false} NeverCloses(inner: seq<Inner>, cur: string)
    requires ValidInner(inner)
    ensures DoubleQuoted(InnerText(inner), cur) == None
    decreases |inner|
  {
    if inner != [] {
      var s, tail, c := InnerText(inner), InnerText(inner[1..]), inner[0].c;
      NeverCloses(inner[1..], cur + [c]);
      match inner[0]
      case Raw(_) => assert s[1..] == tail;
      case Behind(_) => assert s[2..] == tail;
    }
  }

  /** A backslash that ends the line stands for itself. */
  lemma {:induction false} LastBackslash(w: Word, words: seq<string>)
    requires ValidWord(w)
    ensures WordsFrom(WordText(w) + "\\", words, "", false) == Some(words + [WordValue(w) + "\\"])
  {
    PiecesRead(w, "\\", words, "", false);
    assert "" + WordValue(w) == WordValue(w) && "\\"[1..] == "";
    hide WordText, WordValue;
  }

  // ---- what a file's lookups answer ----

  predicate IsHeader(raw: string) { Words(raw).Some? && |Words(raw).value| >= 2 && Words(raw).value[0] == "config" }

  predicate IsLine(raw: string, word: string, key: string) {
    Words(raw).Some? && |Words(raw).value| >= 2 && Words(raw).value[0] == word && Words(raw).value[1] == key
  }

  lemma {:induction false} HeaderOne(m: nat, header: string)
    requires IsHeader(header)
    ensures ParseOne(m, header).1 == [Sec(Words(header).value[1], Third(Words(header).value))]
    ensures ParseOne(m, header).0.kind == Header && ParseOne(m, header).0.section == m
  {
    hide Words;
  }

  lemma {:induction false} OtherOne(m: nat, line: string)
    requires !IsHeader(line)
    ensures ParseOne(m, line).1 == [] && ParseOne(m, line).0.section == m - 1
  {
    hide Words;
  }

  predicate SectionsIn(lines: seq<Line>, lo: int, hi: int) { forall i | 0 <= i < |lines| :: lo <= lines[i].section < hi }

  /** Lines count from the sections before to those after. */
  lemma {:induction false} LinesBetween(n: nat, raws: seq<string>)
    ensures var f := ParseFrom(n, raws); SectionsIn(f.lines, n - 1, n + |f.sections|)
    decreases |raws|
  {
    if raws == [] {
      assert ParseFrom(n, raws).lines == [];
    } else {
      hide ParseFrom, ParseOne, SectionsIn;
      var one := ParseOne(n, raws[0]);
      var m := n + |one.1|;
      OneSection(n, raws[0]);
      LinesBetween(m, raws[1..]);
      assert raws == [raws[0]] + raws[1..];
      ParseCons(n, raws[0], raws[1..]);
      OneMoreLine(one.0, ParseFrom(m, raws[1..]).lines, n - 1, m + |ParseFrom(m, raws[1..]).sections|);
    }
  }

  lemma {:induction false} OneSection(n: nat, raw: string)
    ensures n - 1 <= ParseOne(n, raw).0.section < n + |ParseOne(n, raw).1|
  {
    hide Words, Third;
  }

  lemma {:induction false} OneMoreLine(l: Line, lines: seq<Line>, lo: int, hi: int)
    requires lo <= l.section < hi && (SectionsIn(lines, lo, hi) || exists k :: k >= lo && SectionsIn(lines, k, hi))
    ensures SectionsIn([l] + lines, lo, hi)
  {
    var all := [l] + lines;
    forall i | 0 <= i < |all| ensures lo <= all[i].section < hi {
      if i > 0 { assert all[i] == lines[i - 1]; }
    }
  }

  lemma {:induction false} NoHeaders(n: nat, raws: seq<string>)
    requires forall i | 0 <= i < |raws| :: !IsHeader(raws[i])
    ensures ParseFrom(n, raws).sections == []
    decreases |raws|
  {
    if raws != [] {
      assert !IsHeader(raws[0]);
      assert forall i | 0 <= i < |raws[1..]| :: raws[1..][i] == raws[i + 1];
      NoHeaders(n, raws[1..]);
    }
  }

  lemma {:induction false} NamesOf(n: nat, raws: seq<string>, name: string)
    requires forall i | 0 <= i < |raws| && IsHeader(raws[i]) :: Third(Words(raws[i]).value) != name
    ensures forall k | 0 <= k < |ParseFrom(n, raws).sections| :: ParseFrom(n, raws).sections[k].name != name
    decreases |raws|
  {
    if raws != [] {
      var (line, secs) := ParseOne(n, raws[0]);
      assert secs != [] ==> IsHeader(raws[0]) && secs == [Sec(Words(raws[0]).value[1], Third(Words(raws[0]).value))];
      assert forall i | 0 <= i < |raws[1..]| :: raws[1..][i] == raws[i + 1];
      NamesOf(n + |secs|, raws[1..], name);
    }
  }

  predicate NoOption(lines: seq<Line>, idx: int, option: string) { forall i | 0 <= i < |lines| :: !IsOption(lines[i], idx, option) }

  lemma {:induction false} NoSuchLine(n: nat, raws: seq<string>, option: string, idx: int)
    requires forall i | 0 <= i < |raws| :: !IsLine(raws[i], "option", option)
    ensures NoOption(ParseFrom(n, raws).lines, idx, option)
    decreases |raws|
  {
    if raws != [] {
      var one := ParseOne(n, raws[0]);
      var m := n + |one.1|;
      assert !IsLine(raws[0], "option", option);
      assert !IsOption(one.0, idx, option);
      assert forall i | 0 <= i < |raws[1..]| :: raws[1..][i] == raws[i + 1];
      NoSuchLine(m, raws[1..], option, idx);
      assert raws == [raws[0]] + raws[1..];
      ParseCons(n, raws[0], raws[1..]);
      hide ParseOne, ParseFrom, IsOption;
      OneMoreOther(one.0, ParseFrom(m, raws[1..]).lines, idx, option);
    }
  }

  lemma {:induction false} OneMoreOther(l: Line, lines: seq<Line>, idx: int, option: string)
    requires !IsOption(l, idx, option) && NoOption(lines, idx, option)
    ensures NoOption([l] + lines, idx, option)
  {
    hide IsOption;
    var all := [l] + lines;
    forall i | 0 <= i < |all| ensures !IsOption(all[i], idx, option) {
      if i > 0 { assert all[i] == lines[i - 1]; }
    }
  }

  /** A file's lines: up to a section's header, the header, up to an option's line, that line,
      the rest. */
  function Assembled(a: seq<string>, header: string, b: seq<string>, line: string, c: seq<string>): seq<string> {
    a + ([header] + (b + ([line] + c)))
  }

  lemma {:induction false} ParseAssembled(a: seq<string>, header: string, b: seq<string>, line: string, c: seq<string>)
    requires IsHeader(header) && (forall i | 0 <= i < |b| :: !IsHeader(b[i])) && !IsHeader(line)
    ensures var f := ParseFrom(0, Assembled(a, header, b, line, c));
            var m := |ParseFrom(0, a).sections|;
            && |f.lines| == |a| + 1 + |b| + 1 + |c| && |f.sections| > m
            && f.lines[..|a|] == ParseFrom(0, a).lines && f.lines[|a|] == ParseOne(m, header).0
            && f.lines[|a| + 1..|a| + 1 + |b|] == ParseFrom(m + 1, b).lines
            && f.lines[|a| + 1 + |b|] == ParseOne(m + 1, line).0
            && f.sections[..m] == ParseFrom(0, a).sections && f.sections[m].name == Third(Words(header).value)
  {
    hide ParseFrom, ParseOne, Words, Third;
    var fa := ParseFrom(0, a);
    var m := |fa.sections|;
    var fb, fc, tail := ParseFrom(m + 1, b), ParseFrom(m + 1, c), b + ([line] + c);
    var h, l := ParseOne(m, header).0, ParseOne(m + 1, line).0;
    HeaderOne(m, header);
    OtherOne(m + 1, line);
    NoHeaders(m + 1, b);
    AfterHeader(m, b, line, c);
    ParseFromHeader(a, header, tail);
    LineCounts(a, m, b, c);
    Slices(fa.lines, h, fb.lines, l, fc.lines);
    FirstAfter(fa.sections, Sec(Words(header).value[1], Third(Words(header).value)), ParseFrom(m + 1, tail).sections);
  }

  lemma {:induction false} LineCounts(a: seq<string>, m: nat, b: seq<string>, c: seq<string>)
    ensures |ParseFrom(0, a).lines| == |a| && |ParseFrom(m + 1, b).lines| == |b| && |ParseFrom(m + 1, c).lines| == |c|
  {
    hide ParseFrom;
    ParseFromRaws(0, a);
    ParseFromRaws(m + 1, b);
    ParseFromRaws(m + 1, c);
  }

  lemma {:induction false} AfterHeader(m: nat, b: seq<string>, line: string, c: seq<string>)
    requires ParseFrom(m + 1, b).sections == [] && ParseOne(m + 1, line).1 == []
    ensures ParseFrom(m + 1, b + ([line] + c)).lines ==
            ParseFrom(m + 1, b).lines + ([ParseOne(m + 1, line).0] + ParseFrom(m + 1, c).lines)
  {
    hide ParseFrom, ParseOne;
    ParseCons(m + 1, line, c);
    ParseAppend(m + 1, b, [line] + c);
  }

  lemma {:induction false} Slices<T>(a: seq<T>, h: T, b: seq<T>, l: T, c: seq<T>)
    ensures var s := a + ([h] + (b + ([l] + c)));
            && |s| == |a| + 1 + |b| + 1 + |c| && s[..|a|] == a && s[|a|] == h
            && s[|a| + 1..|a| + 1 + |b|] == b && s[|a| + 1 + |b|] == l
  {
  }

  lemma {:induction false} FirstAfter<T>(a: seq<T>, x: T, b: seq<T>)
    ensures var s := a + ([x] + b); |s| > |a| && s[..|a|] == a && s[|a|] == x
  {
  }

  /** Get answers the value of the first line of the option in the first section of the name,
      however section and option are spelled. */
  lemma {:induction false} GetAnswers(a: seq<string>, header: string, b: seq<string>, line: string, c: seq<string>,
                                      name: string, option: string, value: string)
    requires IsHeader(header) && Third(Words(header).value) == name
    requires forall i | 0 <= i < |a| && IsHeader(a[i]) :: Third(Words(a[i]).value) != name
    requires forall i | 0 <= i < |b| :: !IsHeader(b[i]) && !IsLine(b[i], "option", option)
    requires Words(line) == Some(["option", option, value])
    ensures Get(ParseFrom(0, Assembled(a, header, b, line, c)), name, option) == Some(value)
  {
    hide ParseFrom, ParseOne, SectionIndex, OptionAt, SectionsIn, NoOption, IsOption, Assembled, Words;
    var f := ParseFrom(0, Assembled(a, header, b, line, c));
    var m := |ParseFrom(0, a).sections|;
    NamesOf(0, a, name);
    LinesBetween(0, a);
    NoSuchLine(m + 1, b, option, m);
    OptionOne(m, line, option, value);
    HeaderOne(m, header);
    ParseAssembled(a, header, b, line, c);
    hide IsHeader, IsLine, Third;
    FirstSection(f.sections, m, name);
    FirstOptionAmong(f.lines, |a|, |b|, m, option);
  }

  lemma {:induction false} OptionOne(m: nat, line: string, option: string, value: string)
    requires Words(line) == Some(["option", option, value])
    ensures ParseOne(m + 1, line).0 == Line(line, OptionLine, m, option, value) && !IsHeader(line)
  {
    hide Words;
  }

  lemma {:induction false} FirstOptionAmong(lines: seq<Line>, na: nat, nb: nat, m: int, option: string)
    requires |lines| > na + 1 + nb && SectionsIn(lines[..na], -1, m) && lines[na].kind == Header
    requires NoOption(lines[na + 1..na + 1 + nb], m, option) && IsOption(lines[na + 1 + nb], m, option)
    ensures OptionAt(lines, m, option) == na + 1 + nb
  {
    forall k | 0 <= k < na + 1 + nb ensures !IsOption(lines[k], m, option) {
      if k < na { assert lines[k] == lines[..na][k]; }
      else if k > na { assert lines[k] == lines[na + 1..na + 1 + nb][k - na - 1]; }
    }
    FirstOption(lines, m, option, na + 1 + nb);
  }

  lemma {:induction false} FirstSection(sections: seq<Sec>, m: nat, name: string)
    requires m < |sections| && sections[m].name == name && forall k | 0 <= k < m :: sections[..m][k].name != name
    ensures SectionIndex(sections, name) == m
  {
    assert forall k | 0 <= k < m :: sections[..m][k] == sections[k];
  }

  lemma {:induction false} FirstOption(lines: seq<Line>, idx: int, option: string, at: nat)
    requires at < |lines| && IsOption(lines[at], idx, option) && forall k | 0 <= k < at :: !IsOption(lines[k], idx, option)
    ensures OptionAt(lines, idx, option) == at
  {
  }

  // ---- lists ----

  /** The values of the lines `list key value` among some lines, in order. */
  function Listed(raws: seq<string>, key: string): seq<string> {
    if raws == [] then []
    else (if IsLine(raws[0], "list", key) then [Third(Words(raws[0]).value)] else []) + Listed(raws[1..], key)
  }

  lemma {:induction false} ListedLines(m: nat, raws: seq<string>, key: string)
    requires forall i | 0 <= i < |raws| :: !IsHeader(raws[i])
    ensures UciFile.Values(ParseFrom(m + 1, raws).lines, ListLine, m, key) == Listed(raws, key)
    decreases |raws|
  {
    if raws != [] {
      var one := ParseOne(m + 1, raws[0]);
      assert !IsHeader(raws[0]);
      assert one.1 == [] && (IsEntry(one.0, ListLine, m, key) <==> IsLine(raws[0], "list", key));
      assert IsLine(raws[0], "list", key) ==> one.0.value == Third(Words(raws[0]).value);
      assert forall i | 0 <= i < |raws[1..]| :: raws[1..][i] == raws[i + 1];
      ListedLines(m, raws[1..], key);
      assert raws == [raws[0]] + raws[1..];
      ParseCons(m + 1, raws[0], raws[1..]);
      hide ParseOne, ParseFrom, IsLine, IsEntry, IsHeader;
      var rest := ParseFrom(m + 1, raws[1..]).lines;
      assert ([one.0] + rest)[1..] == rest;
    }
  }

  lemma {:induction false} NoneElsewhere(lines: seq<Line>, idx: int, key: string)
    requires forall i | 0 <= i < |lines| :: lines[i].section != idx || lines[i].kind != ListLine
    ensures UciFile.Values(lines, ListLine, idx, key) == []
  {
    if lines != [] {
      assert !IsEntry(lines[0], ListLine, idx, key);
      assert forall i | 0 <= i < |lines[1..]| :: lines[1..][i] == lines[i + 1];
      NoneElsewhere(lines[1..], idx, key);
    }
  }

  lemma {:induction false} ValuesOver(a: seq<Line>, b: seq<Line>, idx: int, key: string)
    ensures UciFile.Values(a + b, ListLine, idx, key) == UciFile.Values(a, ListLine, idx, key) + UciFile.Values(b, ListLine, idx, key)
  {
    if a == [] {
      assert a + b == b;
    } else {
      assert (a + b)[1..] == a[1..] + b;
      ValuesOver(a[1..], b, idx, key);
    }
  }

  lemma {:induction false} LaterSections(m: nat, raws: seq<string>)
    requires raws == [] || IsHeader(raws[0])
    ensures var f := ParseFrom(m + 1, raws); SectionsIn(f.lines, m + 1, m + 1 + |f.sections|)
  {
    if raws != [] {
      hide ParseOne, ParseFrom, IsHeader, Words, Third, SectionsIn;
      var one := ParseOne(m + 1, raws[0]);
      HeaderOne(m + 1, raws[0]);
      LinesBetween(m + 2, raws[1..]);
      assert raws == [raws[0]] + raws[1..];
      ParseCons(m + 1, raws[0], raws[1..]);
      var rest := ParseFrom(m + 2, raws[1..]);
      OneMoreLine(one.0, rest.lines, m + 1, m + 2 + |rest.sections|);
    }
  }

  lemma {:induction false} ValuesAmong(a: seq<Line>, h: Line, b: seq<Line>, c: seq<Line>, idx: int, key: string, lo: int, hi: int)
    requires SectionsIn(a, lo, idx) && h.kind != ListLine && SectionsIn(c, idx + 1, hi)
    ensures UciFile.Values(a + ([h] + (b + c)), ListLine, idx, key) == UciFile.Values(b, ListLine, idx, key)
  {
    NoneElsewhere(a, idx, key);
    NoneElsewhere([h], idx, key);
    NoneElsewhere(c, idx, key);
    hide UciFile.Values, SectionsIn;
    ValuesOver(a, [h] + (b + c), idx, key);
    ValuesOver([h], b + c, idx, key);
    ValuesOver(b, c, idx, key);
  }

  lemma {:induction false} ParseFromHeader(a: seq<string>, header: string, rest: seq<string>)
    requires IsHeader(header)
    ensures var fa := ParseFrom(0, a);
            var m := |fa.sections|;
            var later := ParseFrom(m + 1, rest);
            ParseFrom(0, a + ([header] + rest)) ==
            Contents(fa.lines + ([ParseOne(m, header).0] + later.lines),
                     fa.sections + ([Sec(Words(header).value[1], Third(Words(header).value))] + later.sections))
            && ParseOne(m, header).0.kind == Header
  {
    hide ParseOne, ParseFrom, Words, Third;
    var m := |ParseFrom(0, a).sections|;
    HeaderOne(m, header);
    hide IsHeader;
    ParseCons(m, header, rest);
    ParseAppend(0, a, [header] + rest);
  }

  /** GetList answers the values of the list's lines in the first section of the name, in the
      order of the file. */
  lemma {:induction false} GetListAnswers(a: seq<string>, header: string, b: seq<string>, c: seq<string>, name: string, key: string)
    requires IsHeader(header) && Third(Words(header).value) == name
    requires forall i | 0 <= i < |a| && IsHeader(a[i]) :: Third(Words(a[i]).value) != name
    requires (forall i | 0 <= i < |b| :: !IsHeader(b[i])) && (c == [] || IsHeader(c[0]))
    ensures GetList(ParseFrom(0, a + ([header] + (b + c))), name, key) == Listed(b, key)
  {
    var m := |ParseFrom(0, a).sections|;
    NoHeaders(m + 1, b);
    var lines, sections := ListParts(a, header, b, c, name);
    ListedLines(m, b, key);
    hide ParseFrom, Listed, UciFile.Values, SectionIndex, Words, IsHeader;
  }

  /** The section's place, and its list lines among all lines. */
  lemma {:induction false} ListParts(a: seq<string>, header: string, b: seq<string>, c: seq<string>, name: string)
      returns (lines: seq<Line>, sections: seq<Sec>)
    requires IsHeader(header) && Third(Words(header).value) == name
    requires forall i | 0 <= i < |a| && IsHeader(a[i]) :: Third(Words(a[i]).value) != name
    requires var m := |ParseFrom(0, a).sections|; ParseFrom(m + 1, b).sections == [] && (c == [] || IsHeader(c[0]))
    ensures var m := |ParseFrom(0, a).sections|;
            && ParseFrom(0, a + ([header] + (b + c))) == Contents(lines, sections)
            && m < |sections| && SectionIndex(sections, name) == m
            && forall key :: UciFile.Values(lines, ListLine, m, key) == UciFile.Values(ParseFrom(m + 1, b).lines, ListLine, m, key)
  {
    hide ParseFrom, ParseOne, UciFile.Values, SectionIndex, Words, IsHeader, SectionsIn;
    var m := |ParseFrom(0, a).sections|;
    lines, sections := HeaderParts(a, header, b + c, name);
    ListAmong(a, header, b, c, m, lines);
  }

  lemma {:induction false} HeaderParts(a: seq<string>, header: string, rest: seq<string>, name: string)
      returns (lines: seq<Line>, sections: seq<Sec>)
    requires IsHeader(header) && Third(Words(header).value) == name
    requires forall i | 0 <= i < |a| && IsHeader(a[i]) :: Third(Words(a[i]).value) != name
    ensures var m := |ParseFrom(0, a).sections|;
            && ParseFrom(0, a + ([header] + rest)) == Contents(lines, sections)
            && m < |sections| && SectionIndex(sections, name) == m
            && ParseOne(m, header).0.kind == Header
            && lines == ParseFrom(0, a).lines + ([ParseOne(m, header).0] + ParseFrom(m + 1, rest).lines)
  {
    var fa := ParseFrom(0, a);
    var m := |fa.sections|;
    NamesOf(0, a, name);
    ParseFromHeader(a, header, rest);
    hide ParseFrom, ParseOne, SectionIndex, Words, IsHeader;
    var later, sec := ParseFrom(m + 1, rest), Sec(Words(header).value[1], name);
    lines, sections := fa.lines + ([ParseOne(m, header).0] + later.lines), fa.sections + ([sec] + later.sections);
    FirstAfter(fa.sections, sec, later.sections);
    FirstSection(sections, m, name);
  }

  lemma {:induction false} ListAmong(a: seq<string>, header: string, b: seq<string>, c: seq<string>, m: nat, lines: seq<Line>)
    requires m == |ParseFrom(0, a).sections| && ParseFrom(m + 1, b).sections == [] && (c == [] || IsHeader(c[0]))
    requires ParseOne(m, header).0.kind == Header
    requires lines == ParseFrom(0, a).lines + ([ParseOne(m, header).0] + ParseFrom(m + 1, b + c).lines)
    ensures forall key :: UciFile.Values(lines, ListLine, m, key) == UciFile.Values(ParseFrom(m + 1, b).lines, ListLine, m, key)
  {
    hide ParseFrom, ParseOne, SectionsIn, UciFile.Values, IsHeader;
    LinesBetween(0, a);
    LaterSections(m, c);
    TwoParts(m + 1, b, c);
    AmongAll(ParseFrom(0, a).lines, ParseOne(m, header).0, ParseFrom(m + 1, b).lines, ParseFrom(m + 1, c).lines, m,
             m + 1 + |ParseFrom(m + 1, c).sections|);
  }

  lemma {:induction false} TwoParts(n: nat, b: seq<string>, c: seq<string>)
    requires ParseFrom(n, b).sections == []
    ensures ParseFrom(n, b + c).lines == ParseFrom(n, b).lines + ParseFrom(n, c).lines
  {
    hide ParseFrom;
    ParseAppend(n, b, c);
  }

  lemma {:induction false} AmongAll(a: seq<Line>, h: Line, b: seq<Line>, c: seq<Line>, idx: int, hi: int)
    requires SectionsIn(a, -1, idx) && h.kind != ListLine && SectionsIn(c, idx + 1, hi)
    ensures forall key :: UciFile.Values(a + ([h] + (b + c)), ListLine, idx, key) == UciFile.Values(b, ListLine, idx, key)
  {
    hide SectionsIn, UciFile.Values;
    forall key ensures UciFile.Values(a + ([h] + (b + c)), ListLine, idx, key) == UciFile.Values(b, ListLine, idx, key) {
      ValuesAmong(a, h, b, c, idx, key, -1, hi);
    }
  }

  /** Options and lists before any section belong to none. */
  lemma {:induction false} BeforeAnySection(raw: string)
    ensures ParseOne(0, raw).0.kind == Other || ParseOne(0, raw).0.kind == Header
    ensures ParseOne(0, raw).0.kind == Header <==> IsHeader(raw)
  {
  }

  // ---- from the bytes of a file ----

  lemma {:induction false} ParseJoined(raws: seq<string>)
    requires (forall i | 0 <= i < |raws| :: Clean(raws[i])) && raws != [""]
    ensures Parse(JoinLines(raws)) == ParseFrom(0, raws)
  {
    NoCrLfOfLines(raws);
    if raws != [] {
      SplitOfJoined(raws);
      if |raws| == 1 { assert raws[0] != ""; }
      assert JoinLines(raws) != "\n" by {
        if |raws| > 1 { SplitOfJoined(raws[1..]); }
      }
    }
  }

  /** An option whose value stands in double quotes, anywhere in a file. */
  function DoubleLine(option: string, value: string): string {
    "option " + option + " " + WordText([Double(Guarded(value))])
  }

  lemma {:induction false} DoubleLineRead(option: string, value: string)
    requires ValidName(option)
    ensures Words(DoubleLine(option, value)) == Some(["option", option, value])
  {
    var w := [Double(Guarded(value))];
    BareWord("option", option + " " + WordText(w), []);
    BareWord(option, WordText(w), ["option"]);
    assert DoubleLine(option, value) == "option" + " " + (option + " " + WordText(w));
    assert InnerValue(Guarded(value)) == value && w[1..] == [];
    assert WordText(w) + "" == WordText(w) && WordValue(w) == value && "" + value == value;
    hide WordText, WordValue;
    PiecesRead(w, "", ["option", option], "", false);
    assert [] + ["option"] == ["option"] && ["option"] + [option] == ["option", option];
    assert ["option", option] + [value] == ["option", option, value];
  }

  /** From the file's bytes to the answer: Get reads a double-quoted value as what stands between
      the quotes. */
  lemma {:induction false} DoubleQuotedGet(a: seq<string>, header: string, b: seq<string>, c: seq<string>, name: string, option: string, value: string)
    requires ValidName(option) && IsHeader(header) && Third(Words(header).value) == name
    requires forall i | 0 <= i < |a| && IsHeader(a[i]) :: Third(Words(a[i]).value) != name
    requires forall i | 0 <= i < |b| :: !IsHeader(b[i]) && !IsLine(b[i], "option", option)
    requires var raws := Assembled(a, header, b, DoubleLine(option, value), c); forall i | 0 <= i < |raws| :: Clean(raws[i])
    ensures Get(Parse(JoinLines(Assembled(a, header, b, DoubleLine(option, value), c))), name, option) == Some(value)
  {
    var line := DoubleLine(option, value);
    DoubleLineRead(option, value);
    GetAnswers(a, header, b, line, c, name, option, value);
    var raws := Assembled(a, header, b, line, c);
    assert |raws| >= 2;
    hide Assembled, IsHeader, IsLine, Get, DoubleLine, Clean;
    ParseJoined(raws);
  }

  /** The same lines with carriage returns before the newlines. */
  function JoinCrLf(raws: seq<string>): string {
    if raws == [] then "" else raws[0] + "\r\n" + JoinCrLf(raws[1..])
  }

  lemma {:induction false} NoCrLfOfCrLf(raw: string, rest: string)
    requires Clean(raw)
    ensures NoCrLf(raw + "\r\n" + rest) == raw + "\n" + NoCrLf(rest)
  {
    var s := raw + "\r\n" + rest;
    if raw == [] {
      assert s[2..] == rest;
    } else {
      assert s[1..] == raw[1..] + "\r\n" + rest;
      assert !(s[0] == '\r' && s[1] == '\n') by {
        if |raw| > 1 { assert s[1] == raw[1]; }
      }
      NoCrLfOfCrLf(raw[1..], rest);
    }
  }

  lemma {:induction false} CrLfJoined(raws: seq<string>)
    requires forall i | 0 <= i < |raws| :: Clean(raws[i])
    ensures NoCrLf(JoinCrLf(raws)) == JoinLines(raws)
  {
    if raws != [] {
      NoCrLfOfCrLf(raws[0], JoinCrLf(raws[1..]));
      CrLfJoined(raws[1..]);
    }
  }

  /** A file with DOS line ends is parsed as the same file without. */
  lemma {:induction false} CrLfIsLf(raws: seq<string>)
    requires forall i | 0 <= i < |raws| :: Clean(raws[i])
    ensures Parse(JoinCrLf(raws)) == Parse(JoinLines(raws))
  {
    CrLfJoined(raws);
    NoCrLfOfLines(raws);
  }
}
