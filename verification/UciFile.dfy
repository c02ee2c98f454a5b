/** The line-preserving UCI editor: files parsed line by line, edited in place and written
    back with every other line as it was. */
module UciFile {
  import opened Wrappers
  import opened Text
  import opened UciText

  datatype Kind = Other | Header | OptionLine | ListLine

  /** `section` counts the headers up to here, from -1. */
  datatype Line = Line(raw: string, kind: Kind, section: int, key: string, value: string)

  datatype Sec = Sec(typ: string, name: string)

  datatype Contents = Contents(lines: seq<Line>, sections: seq<Sec>)

  // ---- parsing ----

  function Third(words: seq<string>): string {
    if |words| > 2 then words[2] else ""
  }

  /** One line after `n` sections, and the section it starts, if any. */
  function ParseOne(n: nat, raw: string): (Line, seq<Sec>) {
    var plain := Line(raw, Other, n - 1, "", "");
    match Words(raw)
    case None => (plain, [])
    case Some(words) =>
      if |words| < 2 then (plain, [])
      else if words[0] == "config" then (Line(raw, Header, n, "", ""), [Sec(words[1], Third(words))])
      else if words[0] == "option" && n > 0 then (Line(raw, OptionLine, n - 1, words[1], Third(words)), [])
      else if words[0] == "list" && n > 0 then (Line(raw, ListLine, n - 1, words[1], Third(words)), [])
      else (plain, [])
  }

  function ParseFrom(n: nat, raws: seq<string>): Contents
    decreases |raws|
  {
    if raws == [] then Contents([], [])
    else
      var (line, secs) := ParseOne(n, raws[0]);
      var rest := ParseFrom(n + |secs|, raws[1..]);
      Contents([line] + rest.lines, secs + rest.sections)
  }

  function Parse(data: string): Contents {
    var text := TrimNewline(NoCrLf(data));
    if text == "" then Contents([], []) else ParseFrom(0, Split(text))
  }

  function Raws(lines: seq<Line>): seq<string> {
    seq(|lines|, i requires 0 <= i < |lines| => lines[i].raw)
  }

  function Bytes(f: Contents): string { JoinLines(Raws(f.lines)) }

  /** What the file holds is what its lines say. */
  ghost predicate Coherent(f: Contents) { f == ParseFrom(0, Raws(f.lines)) }

  /** Every line can be written and read back as one line. */
  predicate CleanLines(f: Contents) {
    (forall i | 0 <= i < |f.lines| :: Clean(f.lines[i].raw)) && Raws(f.lines) != [""]
  }

  lemma {:induction false} ParseFromRaws(n: nat, raws: seq<string>)
    ensures |ParseFrom(n, raws).lines| == |raws| && Raws(ParseFrom(n, raws).lines) == raws
    decreases |raws|
  {
    if raws != [] {
      var (line, secs) := ParseOne(n, raws[0]);
      assert line.raw == raws[0];
      hide ParseOne;
      ParseFromRaws(n + |secs|, raws[1..]);
      var rest := ParseFrom(n + |secs|, raws[1..]).lines;
      assert Raws([line] + rest) == [raws[0]] + Raws(rest);
    }
  }

  lemma {:induction false} ParseAppend(n: nat, a: seq<string>, b: seq<string>)
    ensures var fa := ParseFrom(n, a);
            var fb := ParseFrom(n + |fa.sections|, b);
            ParseFrom(n, a + b) == Contents(fa.lines + fb.lines, fa.sections + fb.sections)
    decreases |a|
  {
    if a == [] {
      assert a + b == b;
      var fb := ParseFrom(n, b);
      assert [] + fb.lines == fb.lines && [] + fb.sections == fb.sections;
    } else {
      hide ParseFrom, ParseOne;
      var first, tail := a[0], a[1..];
      assert a == [first] + tail;
      var (line, secs) := ParseOne(n, first);
      var m := n + |secs|;
      var rest := ParseFrom(m, tail);
      var fb := ParseFrom(m + |rest.sections|, b);
      ParseAppend(m, tail, b);
      ParseCons(n, first, tail);
      ParseCons(n, first, tail + b);
      Assoc([first], tail, b);
      Assoc([line], rest.lines, fb.lines);
      Assoc(secs, rest.sections, fb.sections);
    }
  }

  lemma {:induction false} ParsedIsCoherent(data: string)
    ensures Coherent(Parse(data))
  {
    var text := TrimNewline(NoCrLf(data));
    if text == "" {
      assert Raws([]) == [];
    } else {
      ParseFromRaws(0, Split(text));
    }
  }

  lemma {:induction false} NoCrKeeps(s: string)
    requires forall i | 0 <= i < |s| :: s[i] != '\r'
    ensures NoCrLf(s) == s
  {
    if s != [] {
      NoCrKeeps(s[1..]);
    }
  }

  /** Without carriage returns every parsed line is clean. */
  lemma {:induction false} ParsedIsClean(data: string)
    requires forall i | 0 <= i < |data| :: data[i] != '\r'
    ensures CleanLines(Parse(data))
  {
    NoCrKeeps(data);
    var text := TrimNewline(data);
    if text != "" {
      var raws := Split(text);
      ParseFromRaws(0, raws);
      SplitGivesLines(text);
      SplitOfPieces(text);
      forall i | 0 <= i < |raws| ensures Clean(Parse(data).lines[i].raw) {
        assert Raws(Parse(data).lines)[i] == raws[i];
        if raws[i] != [] { assert raws[i][|raws[i]| - 1] in text; }
      }
      assert Split(text) == [""] ==> |JoinLines(Split(text))| == 1;
    }
  }

  lemma {:induction false} SplitOfPieces(s: string)
    ensures forall i, c | 0 <= i < |Split(s)| && c in Split(s)[i] :: c in s
    decreases |s|
  {
    var k := IndexOf(s, '\n');
    if k < |s| {
      var rest := Split(s[k + 1..]);
      SplitOfPieces(s[k + 1..]);
      forall i, c | 0 <= i < |Split(s)| && c in Split(s)[i] ensures c in s {
        if i > 0 {
          assert Split(s)[i] == rest[i - 1];
          assert c in s[k + 1..];
        }
      }
    }
  }

  // ---- writing and reading back ----

  lemma {:induction false} ReadsBackClean(f: Contents)
    requires Coherent(f) && CleanLines(f)
    ensures Parse(Bytes(f)) == f
  {
    var raws := Raws(f.lines);
    forall i | 0 <= i < |raws| ensures Clean(raws[i]) { assert raws[i] == f.lines[i].raw; }
    NoCrLfOfLines(raws);
    if raws == [] {
      assert f.lines == [];
    } else {
      SplitOfJoined(raws);
    }
  }

  lemma {:induction false} JoinedRaw(raws: seq<string>, i: nat) returns (at: nat)
    requires i < |raws|
    ensures at + |raws[i]| < |JoinLines(raws)|
    ensures JoinLines(raws)[at..at + |raws[i]|] == raws[i] && JoinLines(raws)[at + |raws[i]|] == '\n'
  {
    var all := JoinLines(raws);
    if i == 0 {
      at := 0;
      assert all[..|raws[0]|] == raws[0];
    } else {
      var k := JoinedRaw(raws[1..], i - 1);
      var head := raws[0] + "\n";
      at := |head| + k;
      var rest := JoinLines(raws[1..]);
      assert all == head + rest;
      assert all[at..at + |raws[i]|] == rest[k..k + |raws[i]|];
    }
  }

  function NewlineCount(s: string): nat {
    if s == [] then 0 else (if s[0] == '\n' then 1 else 0) + NewlineCount(s[1..])
  }

  lemma {:induction false} CountAppend(a: string, b: string)
    ensures NewlineCount(a + b) == NewlineCount(a) + NewlineCount(b)
  {
    if a == [] {
      assert a + b == b;
    } else {
      CountAppend(a[1..], b);
      assert (a + b)[1..] == a[1..] + b;
    }
  }

  lemma {:induction false} NoNewlines(s: string)
    ensures NewlineCount(s) == 0 <==> OneLine(s)
  {
    if s != [] {
      NoNewlines(s[1..]);
      assert OneLine(s) <==> s[0] != '\n' && OneLine(s[1..]) by {
        if OneLine(s[1..]) && s[0] != '\n' {
          forall i | 0 <= i < |s| ensures s[i] != '\n' { assert i > 0 ==> s[i] == s[1..][i - 1]; }
        }
      }
    }
  }

  lemma {:induction false} CountJoined(raws: seq<string>)
    ensures NewlineCount(JoinLines(raws)) >= |raws|
    ensures NewlineCount(JoinLines(raws)) == |raws| ==> forall i | 0 <= i < |raws| :: OneLine(raws[i])
    ensures (forall i | 0 <= i < |raws| :: OneLine(raws[i])) ==> NewlineCount(JoinLines(raws)) == |raws|
  {
    if raws != [] {
      CountJoined(raws[1..]);
      CountAppend(raws[0] + "\n", JoinLines(raws[1..]));
      CountAppend(raws[0], "\n");
      assert "\n"[1..] == "";
      NoNewlines(raws[0]);
      if (forall i | 0 <= i < |raws| :: OneLine(raws[i])) {
        assert forall i | 0 <= i < |raws[1..]| :: OneLine(raws[1..][i]);
      }
    }
  }

  lemma {:induction false} NoCrLfEnds(s: string)
    requires s != [] && s[|s| - 1] == '\n'
    ensures var t := NoCrLf(s); t != [] && t[|t| - 1] == '\n'
    decreases |s|
  {
    if s[0] == '\r' && |s| > 1 && s[1] == '\n' {
      if |s| > 2 { NoCrLfEnds(s[2..]); }
    } else if |s| > 1 {
      NoCrLfEnds(s[1..]);
    }
  }

  /** A text that keeps its length has no line that ends in a carriage return. */
  lemma {:induction false} JoinedClean(raws: seq<string>, i: nat)
    requires i < |raws| && OneLine(raws[i]) && |NoCrLf(JoinLines(raws))| == |JoinLines(raws)|
    ensures Clean(raws[i])
  {
    var data, raw := JoinLines(raws), raws[i];
    NoCrLfShorter(data);
    var at := JoinedRaw(raws, i);
    if raw != [] {
      var last := at + |raw| - 1;
      assert data[at..at + |raw|][|raw| - 1] == data[last];
      assert data[last + 1] == '\n';
    }
  }

  lemma {:induction false} ReadsBackOnlyClean(f: Contents)
    requires Coherent(f) && Parse(Bytes(f)) == f
    ensures CleanLines(f)
  {
    var raws := Raws(f.lines);
    var data := Bytes(f);
    var text := TrimNewline(NoCrLf(data));
    if text == "" {
      assert f.lines == [] && raws == [];
    } else {
      ParseFromRaws(0, Split(text));
      assert raws == Split(text);
      SplitGivesLines(text);
      assert data == text + "\n";
      NoCrLfEnds(data);
      NoCrLfShorter(data);
      forall i: nat | i < |raws| ensures Clean(f.lines[i].raw) {
        assert raws[i] == f.lines[i].raw;
        JoinedClean(raws, i);
      }
      assert raws == [""] ==> |JoinLines(raws)| == 1;
    }
  }

  /** Exactly when writing a file and parsing it again gives the same lines, sections, keys
      and values: no line holds a newline or ends in a carriage return, and the file is not
      a single empty line. */
  lemma {:induction false} ReadsBackExactly(f: Contents)
    requires Coherent(f)
    ensures Parse(Bytes(f)) == f <==> CleanLines(f)
  {
    if CleanLines(f) { ReadsBackClean(f); }
    if Parse(Bytes(f)) == f { ReadsBackOnlyClean(f); }
  }

  // ---- lookups ----

  function SectionIndex(sections: seq<Sec>, name: string): (i: nat)
    ensures i <= |sections|
    ensures i < |sections| ==> sections[i].name == name
    ensures forall k | 0 <= k < i :: sections[k].name != name
  {
    if sections == [] || sections[0].name == name then 0 else 1 + SectionIndex(sections[1..], name)
  }

  predicate IsOption(l: Line, idx: int, option: string) {
    IsEntry(l, OptionLine, idx, option)
  }

  /** The first line of the option, or the number of lines. */
  function OptionAt(lines: seq<Line>, idx: int, option: string): (i: nat)
    ensures i <= |lines|
    ensures i < |lines| ==> IsOption(lines[i], idx, option)
    ensures forall k | 0 <= k < i :: !IsOption(lines[k], idx, option)
  {
    if lines == [] || IsOption(lines[0], idx, option) then 0 else 1 + OptionAt(lines[1..], idx, option)
  }

  function Get(f: Contents, section: string, option: string): Option<string> {
    var idx := SectionIndex(f.sections, section);
    if idx == |f.sections| then None
    else
      var at := OptionAt(f.lines, idx, option);
      if at == |f.lines| then None else Some(f.lines[at].value)
  }

  predicate IsEntry(l: Line, kind: Kind, idx: int, key: string) {
    l.kind == kind && l.section == idx && l.key == key
  }

  /** The values of the lines of a kind with a key in a section, in file order. */
  function Values(lines: seq<Line>, kind: Kind, idx: int, key: string): seq<string> {
    if lines == [] then []
    else (if IsEntry(lines[0], kind, idx, key) then [lines[0].value] else []) + Values(lines[1..], kind, idx, key)
  }

  function GetList(f: Contents, section: string, option: string): seq<string> {
    var idx := SectionIndex(f.sections, section);
    if idx == |f.sections| then [] else Values(f.lines, ListLine, idx, option)
  }

  // ---- edits ----

  /** The place behind the section's options and lists; `at` is the best one so far. */
  function InsertAt(lines: seq<Line>, idx: int, i: nat, at: int): int
    requires i <= |lines|
    decreases |lines| - i
  {
    if i == |lines| then at
    else
      var l := lines[i];
      InsertAt(lines, idx, i + 1,
               if l.section == idx && (l.kind == OptionLine || l.kind == ListLine || (l.kind == Header && at < 0)) then i + 1 else at)
  }

  function NewOption(idx: int, option: string, value: string): Line {
    Line(OptionRaw(option, value), OptionLine, idx, option, value)
  }

  function SetLines(lines: seq<Line>, idx: int, option: string, value: string): seq<Line>
    requires OptionAt(lines, idx, option) < |lines| || 0 <= InsertAt(lines, idx, 0, -1) <= |lines|
  {
    var at := OptionAt(lines, idx, option);
    if at < |lines| then lines[at := NewOption(idx, option, value)]
    else
      var p := InsertAt(lines, idx, 0, -1);
      lines[..p] + [NewOption(idx, option, value)] + lines[p..]
  }

  datatype SetError = InvalidName | NoSection

  function WithoutOption(lines: seq<Line>, idx: int, option: string): seq<Line> {
    if lines == [] then []
    else (if IsOption(lines[0], idx, option) then [] else [lines[0]]) + WithoutOption(lines[1..], idx, option)
  }

  function Delete(f: Contents, section: string, option: string): Contents {
    var idx := SectionIndex(f.sections, section);
    if idx == |f.sections| then f else f.(lines := WithoutOption(f.lines, idx, option))
  }

  function SpaceBefore(f: Contents): seq<Line> {
    if f.lines != [] && !AllSpace(f.lines[|f.lines| - 1].raw) then [Line("", Other, |f.sections| - 1, "", "")] else []
  }

  predicate AllSpace(s: string) { forall i | 0 <= i < |s| :: IsSpace(s[i]) }

  function EnsureSection(f: Contents, typ: string, name: string): Contents {
    if SectionIndex(f.sections, name) < |f.sections| then f
    else Contents(f.lines + SpaceBefore(f) + [Line(ConfigRaw(typ, name), Header, |f.sections|, "", "")],
                  f.sections + [Sec(typ, name)])
  }

  // ---- where the lines of a section are ----

  /** In a coherent file a line belongs to the last section started by then. */
  lemma {:induction false} LineSection(n: nat, raws: seq<string>, i: nat)
    requires i < |raws|
    ensures var f := ParseFrom(n, raws);
            |f.lines| == |raws| && f.lines[i].section == n + |ParseFrom(n, raws[..i + 1]).sections| - 1
            && f.lines[i].raw == raws[i]
    ensures ParseFrom(n, raws[..i + 1]).sections <= ParseFrom(n, raws).sections
  {
    hide ParseFrom;
    ParseFromRaws(n, raws);
    assert raws == raws[..i + 1] + raws[i + 1..];
    ParseAppend(n, raws[..i + 1], raws[i + 1..]);
    assert raws[..i + 1] == raws[..i] + [raws[i]];
    ParseAppend(n, raws[..i], [raws[i]]);
    ParseFromRaws(n, raws[..i]);
    ParseFromRaws(n, raws[..i + 1]);
    OneLineParsed(n + |ParseFrom(n, raws[..i]).sections|, raws[i]);
    var f, first := ParseFrom(n, raws), ParseFrom(n, raws[..i + 1]);
    assert f.lines[i] == first.lines[i];
    assert Raws(f.lines)[i] == f.lines[i].raw;
  }

  lemma {:induction false} OneLineParsed(n: nat, raw: string)
    ensures var f := ParseFrom(n, [raw]);
            |f.lines| == 1 && f.lines[0].section == n + |f.sections| - 1
  {
    ParseCons(n, raw, []);
    assert [raw] + [] == [raw];
  }

  /** Every section has a header line. */
  lemma {:induction false} HasHeader(n: nat, raws: seq<string>, idx: int) returns (h: nat)
    requires n <= idx < n + |ParseFrom(n, raws).sections|
    ensures h < |ParseFrom(n, raws).lines|
    ensures ParseFrom(n, raws).lines[h].kind == Header && ParseFrom(n, raws).lines[h].section == idx
    decreases |raws|
  {
    var (line, secs) := ParseOne(n, raws[0]);
    if |secs| == 1 && idx == n {
      h := 0;
    } else {
      h := HasHeader(n + |secs|, raws[1..], idx);
      h := h + 1;
    }
  }

  lemma {:induction false} InsertSpot(lines: seq<Line>, idx: int, i: nat, at: int)
    requires i <= |lines| && at <= i && (at == -1 || (at > 0 && lines[at - 1].section == idx))
    ensures InsertAt(lines, idx, i, at) <= |lines|
    ensures InsertAt(lines, idx, i, at) == -1 || (InsertAt(lines, idx, i, at) > 0 && lines[InsertAt(lines, idx, i, at) - 1].section == idx)
    ensures (at > 0 || exists k | i <= k < |lines| :: lines[k].kind == Header && lines[k].section == idx) ==>
              InsertAt(lines, idx, i, at) > 0
    decreases |lines| - i
  {
    if i < |lines| {
      var l := lines[i];
      var next := if l.section == idx && (l.kind == OptionLine || l.kind == ListLine || (l.kind == Header && at < 0)) then i + 1 else at;
      InsertSpot(lines, idx, i + 1, next);
    }
  }

  predicate HeaderOf(l: Line, idx: int) { l.kind == Header && l.section == idx }

  ghost predicate Headed(lines: seq<Line>, idx: int) { exists h | 0 <= h < |lines| :: HeaderOf(lines[h], idx) }

  /** What the editor's operations rely on: lines belong to sections there are, and every
      section has its header. */
  ghost predicate Placed(f: Contents) {
    (forall i | 0 <= i < |f.lines| :: f.lines[i].section < |f.sections|) &&
    (forall idx | 0 <= idx < |f.sections| :: Headed(f.lines, idx))
  }

  lemma {:induction false} CoherentIsPlaced(f: Contents)
    requires Coherent(f)
    ensures Placed(f)
  {
    hide ParseFrom;
    forall i: nat | i < |f.lines| ensures f.lines[i].section < |f.sections| {
      LineSection(0, Raws(f.lines), i);
    }
    forall idx | 0 <= idx < |f.sections| ensures Headed(f.lines, idx) {
      var h := HasHeader(0, Raws(f.lines), idx);
      assert HeaderOf(f.lines[h], idx);
    }
  }

  /** Where Set inserts: right after a line of its section. */
  lemma {:induction false} InsertsInSection(f: Contents, idx: nat)
    requires Placed(f) && idx < |f.sections|
    ensures var p := InsertAt(f.lines, idx, 0, -1);
            0 < p <= |f.lines| && f.lines[p - 1].section == idx
  {
    assert Headed(f.lines, idx);
    var h :| 0 <= h < |f.lines| && HeaderOf(f.lines[h], idx);
    InsertSpot(f.lines, idx, 0, -1);
  }

  function Set(f: Contents, section: string, option: string, value: string): Result<Contents, SetError>
    requires Placed(f)
  {
    if !ValidName(option) then Err(InvalidName)
    else
      var idx := SectionIndex(f.sections, section);
      if idx == |f.sections| then Err(NoSection)
      else
        InsertsInSection(f, idx);
        Ok(f.(lines := SetLines(f.lines, idx, option, value)))
  }

  // ---- edits keep the file coherent ----

  lemma {:induction false} ParseOption(n: nat, idx: int, option: string, value: string)
    requires ValidName(option) && n > 0 && idx == n - 1
    ensures ParseOne(n, OptionRaw(option, value)) == (NewOption(idx, option, value), [])
  {
    OptionReadsBack(option, value);
  }

  /** Parsing a first line and the rest. */
  lemma {:induction false} ParseCons(n: nat, raw: string, raws: seq<string>)
    ensures var (line, secs) := ParseOne(n, raw);
            var rest := ParseFrom(n + |secs|, raws);
            ParseFrom(n, [raw] + raws) == Contents([line] + rest.lines, secs + rest.sections)
  {
    assert ([raw] + raws)[1..] == raws;
  }

  lemma {:induction false} OptionsStartNothing(n: nat, raw: string)
    ensures var (line, secs) := ParseOne(n, raw);
            line.raw == raw && (line.kind == OptionLine ==> secs == [] && line.section == n - 1)
  {
  }

  /** A file cut in two: the second part only needs to know how many sections there were. */
  lemma {:induction false} CutCoherent(f: Contents, p: nat)
    requires Coherent(f) && p <= |f.lines|
    ensures var a := ParseFrom(0, Raws(f.lines[..p]));
            var b := ParseFrom(|a.sections|, Raws(f.lines[p..]));
            a.lines == f.lines[..p] && b.lines == f.lines[p..] && f.sections == a.sections + b.sections
  {
    var raws := Raws(f.lines);
    assert raws == Raws(f.lines[..p]) + Raws(f.lines[p..]);
    ParseAppend(0, Raws(f.lines[..p]), Raws(f.lines[p..]));
    var a := ParseFrom(0, Raws(f.lines[..p]));
    var b := ParseFrom(|a.sections|, Raws(f.lines[p..]));
    ParseFromRaws(0, Raws(f.lines[..p]));
    assert f.lines == a.lines + b.lines && |a.lines| == p;
    assert f.lines[..p] == a.lines && f.lines[p..] == b.lines;
  }

  /** An option line may be put after any line of its section. */
  lemma {:induction false} InsertCoherent(f: Contents, p: nat, idx: nat, option: string, value: string)
    requires Coherent(f) && 0 < p <= |f.lines| && f.lines[p - 1].section == idx && ValidName(option)
    ensures Coherent(f.(lines := f.lines[..p] + [NewOption(idx, option, value)] + f.lines[p..]))
  {
    var l := NewOption(idx, option, value);
    var a, b := f.lines[..p], f.lines[p..];
    CutCoherent(f, p);
    LineSection(0, Raws(f.lines), p - 1);
    assert Raws(f.lines)[..p] == Raws(a);
    var n := |ParseFrom(0, Raws(a)).sections|;
    assert n == idx + 1;
    ParseOption(n, idx, option, value);
    JoinCoherent(a, l, b, n, f.sections);
  }

  lemma {:induction false} JoinCoherent(a: seq<Line>, l: Line, b: seq<Line>, n: nat, sections: seq<Sec>)
    requires var fa := ParseFrom(0, Raws(a));
             fa.lines == a && |fa.sections| == n && ParseOne(n, l.raw) == (l, []) &&
             ParseFrom(n, Raws(b)).lines == b && sections == fa.sections + ParseFrom(n, Raws(b)).sections
    ensures Coherent(Contents(a + [l] + b, sections))
  {
    hide ParseFrom, ParseOne;
    assert Raws(a + [l] + b) == Raws(a) + ([l.raw] + Raws(b));
    ParseAppend(0, Raws(a), [l.raw] + Raws(b));
    ParseCons(n, l.raw, Raws(b));
    assert [] + ParseFrom(n, Raws(b)).sections == ParseFrom(n, Raws(b)).sections;
    assert a + ([l] + b) == a + [l] + b;
  }

  lemma {:induction false} FirstIsOption(n: nat, c: seq<Line>, idx: int, option: string)
    requires c != [] && c == ParseFrom(n, Raws(c)).lines && IsOption(c[0], idx, option)
    ensures n == idx + 1
    ensures c[1..] == ParseFrom(n, Raws(c[1..])).lines
    ensures ParseFrom(n, Raws(c[1..])).sections == ParseFrom(n, Raws(c)).sections
  {
    hide ParseFrom, ParseOne;
    assert Raws(c) == [c[0].raw] + Raws(c[1..]);
    ParseCons(n, c[0].raw, Raws(c[1..]));
    OptionsStartNothing(n, c[0].raw);
    var rest := ParseFrom(n, Raws(c[1..]));
    assert [] + rest.sections == rest.sections;
    assert c[0] == ParseOne(n, c[0].raw).0;
  }

  lemma {:induction false} ReplaceCoherent(f: Contents, p: nat, idx: nat, option: string, value: string)
    requires Coherent(f) && p < |f.lines| && IsOption(f.lines[p], idx, option) && ValidName(option)
    ensures Coherent(f.(lines := f.lines[p := NewOption(idx, option, value)]))
  {
    hide ParseFrom, ParseOne;
    var l, a, c := NewOption(idx, option, value), f.lines[..p], f.lines[p..];
    CutCoherent(f, p);
    var n := |ParseFrom(0, Raws(a)).sections|;
    FirstIsOption(n, c, idx, option);
    ParseOption(n, idx, option, value);
    JoinCoherent(a, l, c[1..], n, f.sections);
    assert f.lines[p := l] == a + [l] + c[1..];
  }

  lemma {:induction false} SetCoherent(f: Contents, section: string, option: string, value: string)
    requires Coherent(f) && Placed(f) && Set(f, section, option, value).Ok?
    ensures Coherent(Set(f, section, option, value).value)
  {
    var idx := SectionIndex(f.sections, section);
    InsertsInSection(f, idx);
    var at := OptionAt(f.lines, idx, option);
    if at < |f.lines| {
      ReplaceCoherent(f, at, idx, option, value);
    } else {
      InsertCoherent(f, InsertAt(f.lines, idx, 0, -1), idx, option, value);
    }
  }

  lemma {:induction false} WithoutCons(l: Line, lines: seq<Line>, idx: int, option: string)
    ensures WithoutOption([l] + lines, idx, option) ==
            (if IsOption(l, idx, option) then [] else [l]) + WithoutOption(lines, idx, option)
  {
    assert ([l] + lines)[1..] == lines;
  }

  lemma {:induction false} KeepOrDrop(n: nat, line: Line, secs: seq<Sec>, less: seq<Line>, sections: seq<Sec>, drop: bool)
    requires (line, secs) == ParseOne(n, line.raw) && (drop ==> secs == [])
    requires Contents(less, sections) == ParseFrom(n + |secs|, Raws(less))
    ensures var all := (if drop then [] else [line]) + less;
            Contents(all, secs + sections) == ParseFrom(n, Raws(all))
  {
    hide ParseFrom, ParseOne;
    if drop {
      assert [] + less == less && [] + sections == sections;
    } else {
      assert Raws([line] + less) == [line.raw] + Raws(less);
      ParseCons(n, line.raw, Raws(less));
    }
  }

  lemma {:induction false} DeleteCoherentFrom(n: nat, f: Contents, idx: int, option: string)
    requires f == ParseFrom(n, Raws(f.lines))
    ensures Contents(WithoutOption(f.lines, idx, option), f.sections) == ParseFrom(n, Raws(WithoutOption(f.lines, idx, option)))
    decreases |f.lines|
  {
    if f.lines == [] {
      assert Raws([]) == [];
    } else {
      hide ParseFrom, ParseOne, WithoutOption;
      var line, secs, rest := FirstParsed(n, f);
      DeleteCoherentFrom(n + |secs|, rest, idx, option);
      WithoutCons(line, rest.lines, idx, option);
      assert IsOption(line, idx, option) ==> secs == [];
      hide IsOption, Raws;
      var less := WithoutOption(rest.lines, idx, option);
      KeepOrDrop(n, line, secs, less, rest.sections, IsOption(line, idx, option));
    }
  }

  /** A parsed text as its first line and the rest. */
  lemma {:induction false} FirstParsed(n: nat, f: Contents) returns (line: Line, secs: seq<Sec>, rest: Contents)
    requires f == ParseFrom(n, Raws(f.lines)) && f.lines != []
    ensures (line, secs) == ParseOne(n, line.raw) && (line.kind == OptionLine ==> secs == [])
    ensures f == Contents([line] + rest.lines, secs + rest.sections)
    ensures rest == ParseFrom(n + |secs|, Raws(rest.lines)) && |rest.lines| < |f.lines|
  {
    hide ParseFrom, ParseOne;
    var raw, raws := f.lines[0].raw, Raws(f.lines[1..]);
    assert Raws(f.lines) == [raw] + raws;
    ParseCons(n, raw, raws);
    OptionsStartNothing(n, raw);
    line, secs := ParseOne(n, raw).0, ParseOne(n, raw).1;
    rest := ParseFrom(n + |secs|, raws);
    assert f.lines[1..] == rest.lines && f.lines[0] == line;
  }

  lemma {:induction false} DeleteCoherent(f: Contents, section: string, option: string)
    requires Coherent(f)
    ensures Coherent(Delete(f, section, option))
  {
    DeleteCoherentFrom(0, f, SectionIndex(f.sections, section), option);
  }

  /** A section header is read back exactly when its line's words say so: the editor writes
      the type without quotes. */
  predicate HeaderReadsBack(typ: string, name: string) {
    Words(ConfigRaw(typ, name)).Some? && var words := Words(ConfigRaw(typ, name)).value;
    |words| >= 2 && words[0] == "config" && words[1] == typ && Third(words) == name
  }

  lemma {:induction false} BareTypesReadBack(typ: string, name: string)
    requires Bare(typ)
    ensures HeaderReadsBack(typ, name)
  {
    ConfigReadsBack(typ, name);
  }

  /** A type with a blank in it loses its tail to the name. */
  lemma {:induction false} BlankTypesDoNot(head: string, tail: string, name: string)
    requires Bare(head)
    ensures !HeaderReadsBack(head + " " + tail, name)
  {
    var raw := ConfigRaw(head + " " + tail, name);
    var rest := tail + " " + Quote(name);
    assert raw == "config" + " " + (head + " " + rest);
    BareWord("config", head + " " + rest, []);
    BareWord(head, rest, ["config"]);
    assert [] + ["config"] == ["config"] && ["config"] + [head] == ["config", head];
    WordsKeepPrefix(rest, ["config", head], "", false);
    assert Words(raw).Some? ==> |Words(raw).value| >= 2 && Words(raw).value[1] == head;
    assert |head + " " + tail| > |head|;
  }

  lemma {:induction false} WordsKeepPrefix(s: string, words: seq<string>, cur: string, inWord: bool)
    ensures WordsFrom(s, words, cur, inWord).Some? ==> words <= WordsFrom(s, words, cur, inWord).value
    decreases |s|
  {
    if s == [] || (s[0] == '#' && !inWord) {
    } else if IsBlank(s[0]) {
      if inWord { WordsKeepPrefix(s[1..], words + [cur], "", false); } else { WordsKeepPrefix(s[1..], words, cur, false); }
    } else if s[0] == '\'' {
      var end := IndexOf(s[1..], '\'');
      if end < |s| - 1 { WordsKeepPrefix(s[end + 2..], words, cur + s[1..end + 1], true); }
    } else if s[0] == '"' {
      DoubleQuotedShorter(s[1..], cur);
      match DoubleQuoted(s[1..], cur) {
        case None =>
        case Some(p) => WordsKeepPrefix(p.1, words, p.0, true);
      }
    } else if s[0] == '\\' && |s| > 1 {
      WordsKeepPrefix(s[2..], words, cur + [s[1]], true);
    } else {
      WordsKeepPrefix(s[1..], words, cur + [s[0]], true);
    }
  }

  /** Characters that mean themselves, and blanks. */
  predicate Unquoted(typ: string) { forall i | 0 <= i < |typ| :: BareChar(typ[i]) || IsBlank(typ[i]) }

  predicate SomeBlank(s: string) { exists i | 0 <= i < |s| :: IsBlank(s[i]) }

  lemma {:induction false} BlanksOnly(typ: string, rest: string, words: seq<string>)
    requires forall i | 0 <= i < |typ| :: IsBlank(typ[i])
    ensures WordsFrom(typ + " " + rest, words, "", false) == WordsFrom(rest, words, "", false)
  {
    var s := typ + " " + rest;
    if typ == [] {
      assert s[1..] == rest;
    } else {
      assert s[1..] == typ[1..] + " " + rest;
      BlanksOnly(typ[1..], rest, words);
    }
  }

  /** The next word of an unquoted text has no blank in it. */
  lemma {:induction false} NextWordIsBare(typ: string, rest: string, words: seq<string>)
    requires Unquoted(typ) && exists i | 0 <= i < |typ| :: !IsBlank(typ[i])
    ensures var r := WordsFrom(typ + " " + rest, words, "", false);
            r.Some? && |r.value| > |words| ==> !SomeBlank(r.value[|words|]) && typ[0] != '#'
  {
    var s := typ + " " + rest;
    if IsBlank(typ[0]) {
      assert s[1..] == typ[1..] + " " + rest;
      NextWordIsBare(typ[1..], rest, words);
    } else if typ[0] != '#' {
      assert IsBlank(s[|typ|]);
      var k := BlankAt(s);
      assert forall i | 0 <= i < k :: s[i] == typ[i] && !IsBlank(s[..k][i]);
      assert s == s[..k] + [s[k]] + s[k + 1..];
      hide WordsFrom, BlankAt;
      FirstWord(s[..k], s[k], s[k + 1..], words);
    }
  }

  /** A bare word, a blank of either kind, and what follows. */
  lemma {:induction false} FirstWord(w: string, blank: char, after: string, words: seq<string>)
    requires Bare(w) && IsBlank(blank)
    ensures var r := WordsFrom(w + [blank] + after, words, "", false); r.Some? ==> words + [w] <= r.value
  {
    var s, tail := w + [blank] + after, [blank] + after;
    assert s[1..] == w[1..] + tail && tail[1..] == after;
    BareTail(w[1..], tail, words, [w[0]]);
    assert [w[0]] + w[1..] == w && "" + [w[0]] == [w[0]];
    WordsKeepPrefix(after, words + [w], "", false);
    hide IndexOf, DoubleQuoted;
  }

  /** The first blank of a text that has one. */
  function BlankAt(s: string): (k: nat)
    requires SomeBlank(s)
    ensures k < |s| && IsBlank(s[k]) && !SomeBlank(s[..k])
  {
    if IsBlank(s[0]) then 0 else 1 + BlankAt(s[1..])
  }

  /** For a type without quotes and backslashes: its header is read back if and only if the
      type is one bare word, or type and name are both empty. */
  lemma {:induction false} HeaderReadsBackExactly(typ: string, name: string)
    requires Unquoted(typ)
    ensures HeaderReadsBack(typ, name) <==> Bare(typ) || (typ == "" && name == "")
  {
    if Bare(typ) {
      BareTypesReadBack(typ, name);
    } else {
      var raw := ConfigRaw(typ, name);
      assert raw == "config" + " " + (typ + " " + Quote(name));
      BareWord("config", typ + " " + Quote(name), []);
      assert [] + ["config"] == ["config"];
      if exists i | 0 <= i < |typ| :: !IsBlank(typ[i]) {
        NextWordIsBare(typ, Quote(name), ["config"]);
        assert typ[0] == '#' || SomeBlank(typ);
      } else {
        BlanksOnly(typ, Quote(name), ["config"]);
        LastQuoted(name, ["config"]);
        assert ["config"] + [name] == ["config", name];
      }
    }
  }

  /** A parsed file that does not read back: its line ends in a carriage return. */
  lemma {:induction false} CarriageReturnIsLost()
    ensures var f := Parse("a\r\r\n");
            Raws(f.lines) == ["a\r"] && Parse(Bytes(f)) != f
  {
    var data := "a\r\r\n";
    var f := Parse(data);
    assert NoCrLf(data) == "a\r\n" by {
      assert data[1..] == "\r\r\n" && data[1..][1..] == "\r\n" && "\r\n"[2..] == "";
    }
    assert TrimNewline("a\r\n") == "a\r";
    OneLineFile("a\r");
    assert f == ParseFrom(0, ["a\r"]);
    hide Parse, ParseFrom, NoCrLf, TrimNewline, Split;
    assert f.lines[0].raw == Raws(f.lines)[0];
    assert !Clean(f.lines[0].raw);
    ParsedIsCoherent(data);
    ReadsBackExactly(f);
  }

  lemma {:induction false} OneLineFile(raw: string)
    requires OneLine(raw)
    ensures Split(raw) == [raw] && Raws(ParseFrom(0, [raw]).lines) == [raw]
  {
    ParseFromRaws(0, [raw]);
    assert IndexOf(raw, '\n') == |raw|;
  }

  lemma {:induction false} EmptyLines(n: nat, space: seq<Line>)
    requires space == [] || space == [Line("", Other, n - 1, "", "")]
    ensures ParseFrom(n, Raws(space)) == Contents(space, [])
  {
    assert WordsFrom("", [], "", false) == Some([]);
    if space == [] {
      assert Raws(space) == [];
    } else {
      assert Raws(space) == [""] + [];
      ParseCons(n, "", []);
      assert ParseFrom(n, []) == Contents([], []);
      assert space == [space[0]] + [];
    }
  }

  lemma {:induction false} HeaderParses(n: nat, typ: string, name: string)
    ensures var header := Line(ConfigRaw(typ, name), Header, n, "", "");
            HeaderReadsBack(typ, name) <==> ParseFrom(n, [header.raw]) == Contents([header], [Sec(typ, name)])
  {
    var raw := ConfigRaw(typ, name);
    ParseCons(n, raw, []);
    var (line, secs) := ParseOne(n, raw);
    assert [raw] + [] == [raw] && [line] + [] == [line] && secs + [] == secs;
    assert ParseFrom(n + |secs|, []) == Contents([], []);
    hide WordsFrom, ParseFrom;
    assert HeaderReadsBack(typ, name) <==> line == Line(raw, Header, n, "", "") && secs == [Sec(typ, name)];
  }

  /** EnsureSection keeps the file coherent exactly when its header reads back. */
  lemma {:induction false} EnsureCoherentExactly(f: Contents, typ: string, name: string)
    requires Coherent(f) && SectionIndex(f.sections, name) == |f.sections|
    ensures Coherent(EnsureSection(f, typ, name)) <==> HeaderReadsBack(typ, name)
  {
    hide ParseFrom, ParseOne, HeaderReadsBack;
    var space, n, raw := SpaceBefore(f), |f.sections|, ConfigRaw(typ, name);
    var header := Line(raw, Header, n, "", "");
    assert Raws(f.lines + space + [header]) == Raws(f.lines) + (Raws(space) + [raw]);
    ParseAppend(0, Raws(f.lines), Raws(space) + [raw]);
    EmptyLines(n, space);
    ParseAppend(n, Raws(space), [raw]);
    HeaderParses(n, typ, name);
    var last := ParseFrom(n, [raw]);
    var all := ParseFrom(0, Raws(f.lines + space + [header]));
    assert all.lines == f.lines + (space + last.lines) && all.sections == f.sections + ([] + last.sections);
    var g := EnsureSection(f, typ, name);
    assert g.lines == f.lines + (space + [header]) && g.sections == f.sections + [Sec(typ, name)];
    if Coherent(g) {
      assert last.lines == all.lines[|f.lines + space|..] == [header];
      assert last.sections == all.sections[n..] == [Sec(typ, name)];
    }
  }
}
