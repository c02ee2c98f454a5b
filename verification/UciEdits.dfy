/** What the editor's operations promise together: what was set is read back, everything
    else stays, and a file edited any number of times is still read back as it is. */
module UciEdits {
  import opened Wrappers
  import opened Text
  import opened UciText
  import opened UciFile

  // ---- values of a file cut in parts ----

  lemma {:induction false} ValuesCons(l: Line, lines: seq<Line>, kind: Kind, idx: int, key: string)
    ensures Values([l] + lines, kind, idx, key) ==
            (if IsEntry(l, kind, idx, key) then [l.value] else []) + Values(lines, kind, idx, key)
  {
    assert ([l] + lines)[1..] == lines;
  }

  lemma {:induction false} ValuesAppend(a: seq<Line>, b: seq<Line>, kind: Kind, idx: int, key: string)
    ensures Values(a + b, kind, idx, key) == Values(a, kind, idx, key) + Values(b, kind, idx, key)
  {
    if a == [] {
      assert a + b == b;
    } else {
      hide Values, IsEntry;
      var first, tail := a[0], a[1..];
      assert a == [first] + tail;
      ValuesAppend(tail, b, kind, idx, key);
      ValuesCons(first, tail + b, kind, idx, key);
      ValuesCons(first, tail, kind, idx, key);
      Assoc([first], tail, b);
      Assoc(if IsEntry(first, kind, idx, key) then [first.value] else [], Values(tail, kind, idx, key), Values(b, kind, idx, key));
    }
  }

  lemma {:induction false} ValuesOne(l: Line, kind: Kind, idx: int, key: string)
    ensures Values([l], kind, idx, key) == if IsEntry(l, kind, idx, key) then [l.value] else []
  {
    assert [l][1..] == [];
  }

  lemma {:induction false} NoValues(lines: seq<Line>, kind: Kind, idx: int, key: string)
    requires forall k | 0 <= k < |lines| :: !IsEntry(lines[k], kind, idx, key)
    ensures Values(lines, kind, idx, key) == []
  {
    if lines != [] {
      NoValues(lines[1..], kind, idx, key);
    }
  }

  lemma {:induction false} WithoutAppend(a: seq<Line>, b: seq<Line>, idx: int, option: string)
    ensures WithoutOption(a + b, idx, option) == WithoutOption(a, idx, option) + WithoutOption(b, idx, option)
  {
    if a == [] {
      assert a + b == b;
    } else {
      WithoutCons(a[0], a[1..] + b, idx, option);
      WithoutCons(a[0], a[1..], idx, option);
      hide WithoutOption, IsOption;
      assert a + b == [a[0]] + (a[1..] + b) && a == [a[0]] + a[1..];
      WithoutAppend(a[1..], b, idx, option);
    }
  }

  /** Dropping an option drops exactly its own values. */
  lemma {:induction false} WithoutValues(lines: seq<Line>, idx: int, option: string, kind: Kind, idx': int, key: string)
    ensures Values(WithoutOption(lines, idx, option), kind, idx', key) ==
            if kind == OptionLine && idx' == idx && key == option then [] else Values(lines, kind, idx', key)
  {
    if lines != [] {
      WithoutValues(lines[1..], idx, option, kind, idx', key);
      var rest := WithoutOption(lines[1..], idx, option);
      if IsOption(lines[0], idx, option) {
        assert [] + rest == rest;
      } else {
        assert ([lines[0]] + rest)[1..] == rest;
      }
    }
  }

  /** Get answers the first of the option's values. */
  lemma {:induction false} GetIsFirst(f: Contents, section: string, option: string)
    ensures var idx := SectionIndex(f.sections, section);
            var values := Values(f.lines, OptionLine, idx, option);
            Get(f, section, option) == if idx == |f.sections| || values == [] then None else Some(values[0])
  {
    var idx := SectionIndex(f.sections, section);
    var at := OptionAt(f.lines, idx, option);
    NoValues(f.lines[..at], OptionLine, idx, option);
    if at < |f.lines| {
      assert f.lines == f.lines[..at] + f.lines[at..];
      ValuesAppend(f.lines[..at], f.lines[at..], OptionLine, idx, option);
      assert Values(f.lines, OptionLine, idx, option)[0] == f.lines[at].value;
    } else {
      assert f.lines[..at] == f.lines;
    }
  }

  // ---- Set ----

  /** The lines of a Set: the option's first value is the new one, and nothing else changes. */
  ghost predicate OnlySet(before: seq<Line>, after: seq<Line>, idx: int, option: string, value: string) {
    var was := Values(before, OptionLine, idx, option);
    Values(after, OptionLine, idx, option) == [value] + (if was == [] then [] else was[1..]) &&
    WithoutOption(after, idx, option) == WithoutOption(before, idx, option)
  }

  lemma {:induction false} Swapped(a: seq<Line>, mid: seq<Line>, l: Line, b: seq<Line>, idx: int, option: string, value: string)
    requires l == NewOption(idx, option, value)
    requires mid == [] || (|mid| == 1 && IsOption(mid[0], idx, option))
    requires Values(a, OptionLine, idx, option) == []
    requires mid == [] ==> Values(b, OptionLine, idx, option) == []
    ensures OnlySet(a + mid + b, a + [l] + b, idx, option, value)
  {
    ValuesAppend(a + mid, b, OptionLine, idx, option);
    ValuesAppend(a, mid, OptionLine, idx, option);
    ValuesAppend(a + [l], b, OptionLine, idx, option);
    ValuesAppend(a, [l], OptionLine, idx, option);
    ValuesOne(l, OptionLine, idx, option);
    WithoutAppend(a + mid, b, idx, option);
    WithoutAppend(a, mid, idx, option);
    WithoutAppend(a + [l], b, idx, option);
    WithoutAppend(a, [l], idx, option);
    assert [l][1..] == [];
    if mid != [] {
      ValuesOne(mid[0], OptionLine, idx, option);
      assert mid == [mid[0]] && mid[1..] == [];
    }
  }

  lemma {:induction false} SetOnlySets(f: Contents, section: string, option: string, value: string)
    requires Placed(f) && Set(f, section, option, value).Ok?
    ensures var g := Set(f, section, option, value).value;
            g.sections == f.sections && OnlySet(f.lines, g.lines, SectionIndex(f.sections, section), option, value)
  {
    hide Values, WithoutOption, ParseFrom, OnlySet;
    var idx := SectionIndex(f.sections, section);
    InsertsInSection(f, idx);
    var at, l := OptionAt(f.lines, idx, option), NewOption(idx, option, value);
    if at < |f.lines| {
      var a, b := f.lines[..at], f.lines[at + 1..];
      NoValues(a, OptionLine, idx, option);
      Swapped(a, [f.lines[at]], l, b, idx, option, value);
      AroundOne(f.lines, at, l);
    } else {
      var p := InsertAt(f.lines, idx, 0, -1);
      var a, b := f.lines[..p], f.lines[p..];
      NoValues(a, OptionLine, idx, option);
      NoValues(b, OptionLine, idx, option);
      Swapped(a, [], l, b, idx, option, value);
      assert a + [] == a && f.lines == a + b;
    }
  }

  /** A Set is read back, whatever the value, and changes no other option, no list, no
      section and no other line. */
  lemma {:induction false} SetReadBack(f: Contents, section: string, option: string, value: string,
                                       section': string, key: string)
    requires Placed(f) && Set(f, section, option, value).Ok?
    ensures var g := Set(f, section, option, value).value;
            Get(g, section, option) == Some(value) && g.sections == f.sections &&
            ((SectionIndex(f.sections, section') != SectionIndex(f.sections, section) || key != option) ==>
               Get(g, section', key) == Get(f, section', key)) &&
            GetList(g, section', key) == GetList(f, section', key)
  {
    hide SetLines;
    var g := Set(f, section, option, value).value;
    var idx, idx' := SectionIndex(f.sections, section), SectionIndex(f.sections, section');
    SetOnlySets(f, section, option, value);
    GetIsFirst(g, section, option);
    GetIsFirst(f, section', key);
    GetIsFirst(g, section', key);
    WithoutValues(f.lines, idx, option, OptionLine, idx', key);
    WithoutValues(g.lines, idx, option, OptionLine, idx', key);
    WithoutValues(f.lines, idx, option, ListLine, idx', key);
    WithoutValues(g.lines, idx, option, ListLine, idx', key);
  }

  // ---- Delete ----

  /** After a Delete the option is gone, every line of it, and nothing else is. */
  lemma {:induction false} DeleteLeavesTheRest(f: Contents, section: string, option: string, section': string, key: string)
    ensures var g := Delete(f, section, option);
            Get(g, section, option) == None && g.sections == f.sections &&
            ((SectionIndex(f.sections, section') != SectionIndex(f.sections, section) || key != option) ==>
               Get(g, section', key) == Get(f, section', key)) &&
            GetList(g, section', key) == GetList(f, section', key)
  {
    var g := Delete(f, section, option);
    var idx, idx' := SectionIndex(f.sections, section), SectionIndex(f.sections, section');
    GetIsFirst(g, section, option);
    GetIsFirst(f, section', key);
    GetIsFirst(g, section', key);
    WithoutValues(f.lines, idx, option, OptionLine, idx, option);
    WithoutValues(f.lines, idx, option, OptionLine, idx', key);
    WithoutValues(f.lines, idx, option, ListLine, idx', key);
  }

  /** Deleting takes back a Set of an option that was not there. */
  lemma {:induction false} DeleteUndoesSet(f: Contents, section: string, option: string, value: string)
    requires Placed(f) && Set(f, section, option, value).Ok? && Get(f, section, option) == None
    ensures Delete(Set(f, section, option, value).value, section, option) == f
  {
    hide SetLines;
    var idx := SectionIndex(f.sections, section);
    SetOnlySets(f, section, option, value);
    NothingToDrop(f.lines, idx, option);
  }

  lemma {:induction false} NothingToDrop(lines: seq<Line>, idx: int, option: string)
    requires OptionAt(lines, idx, option) == |lines|
    ensures WithoutOption(lines, idx, option) == lines
  {
    if lines != [] {
      NothingToDrop(lines[1..], idx, option);
      assert [lines[0]] + lines[1..] == lines;
    }
  }

  // ---- EnsureSection ----

  lemma {:induction false} IndexAppend(sections: seq<Sec>, more: seq<Sec>, name: string)
    ensures SectionIndex(sections, name) < |sections| ==> SectionIndex(sections + more, name) == SectionIndex(sections, name)
    ensures SectionIndex(sections, name) == |sections| ==>
              SectionIndex(sections + more, name) == |sections| + SectionIndex(more, name)
  {
    if sections == [] {
      assert sections + more == more;
    } else {
      assert (sections + more)[1..] == sections[1..] + more;
      IndexAppend(sections[1..], more, name);
    }
  }

  lemma {:induction false} EnsureValues(f: Contents, typ: string, name: string, kind: Kind, idx: int, key: string)
    requires kind != Header && kind != Other && SectionIndex(f.sections, name) == |f.sections|
    ensures Values(EnsureSection(f, typ, name).lines, kind, idx, key) == Values(f.lines, kind, idx, key)
  {
    var space, header := SpaceBefore(f), Line(ConfigRaw(typ, name), Header, |f.sections|, "", "");
    NoValues(space, kind, idx, key);
    hide SpaceBefore, Values;
    ValuesAppend(f.lines + space, [header], kind, idx, key);
    ValuesAppend(f.lines, space, kind, idx, key);
    ValuesOne(header, kind, idx, key);
  }

  /** The section is there afterwards, empty when it was not, and every older value stays. */
  lemma {:induction false} EnsureSectionAdds(f: Contents, typ: string, name: string, section: string, key: string)
    requires Placed(f)
    ensures var g := EnsureSection(f, typ, name);
            SectionIndex(g.sections, name) < |g.sections| && f.lines <= g.lines && f.sections <= g.sections &&
            (section != name || SectionIndex(f.sections, name) < |f.sections| ==>
               Get(g, section, key) == Get(f, section, key) && GetList(g, section, key) == GetList(f, section, key)) &&
            (SectionIndex(f.sections, name) == |f.sections| ==>
               Get(g, name, key) == None && GetList(g, name, key) == [])
  {
    if SectionIndex(f.sections, name) == |f.sections| {
      NewSectionEmpty(f, typ, name, key);
      if section != name {
        OldSectionStays(f, typ, name, section, key);
      }
      hide SectionIndex, Get, GetList;
    }
  }

  lemma {:induction false} EnsuredIndex(f: Contents, typ: string, name: string, section: string)
    requires SectionIndex(f.sections, name) == |f.sections|
    ensures var was, now := SectionIndex(f.sections, section), SectionIndex(EnsureSection(f, typ, name).sections, section);
            if section == name then now == |f.sections|
            else if was < |f.sections| then now == was
            else now == |f.sections| + 1
  {
    IndexAppend(f.sections, [Sec(typ, name)], section);
    assert SectionIndex([Sec(typ, name)], section) == if section == name then 0 else 1;
  }

  lemma {:induction false} NewSectionEmpty(f: Contents, typ: string, name: string, key: string)
    requires Placed(f) && SectionIndex(f.sections, name) == |f.sections|
    ensures var g := EnsureSection(f, typ, name);
            SectionIndex(g.sections, name) < |g.sections| && Get(g, name, key) == None && GetList(g, name, key) == []
  {
    hide Values, SpaceBefore, SectionIndex, ConfigRaw;
    EnsuredIndex(f, typ, name, name);
    EnsureValues(f, typ, name, OptionLine, |f.sections|, key);
    EnsureValues(f, typ, name, ListLine, |f.sections|, key);
    NothingPastTheEnd(f, OptionLine, |f.sections|, key);
    NothingPastTheEnd(f, ListLine, |f.sections|, key);
    GetIsFirst(EnsureSection(f, typ, name), name, key);
  }

  lemma {:induction false} OldSectionStays(f: Contents, typ: string, name: string, section: string, key: string)
    requires SectionIndex(f.sections, name) == |f.sections| && section != name
    ensures var g := EnsureSection(f, typ, name);
            Get(g, section, key) == Get(f, section, key) && GetList(g, section, key) == GetList(f, section, key)
  {
    hide Values, SpaceBefore, SectionIndex, ConfigRaw;
    EnsuredIndex(f, typ, name, section);
    EnsureValues(f, typ, name, OptionLine, SectionIndex(f.sections, section), key);
    EnsureValues(f, typ, name, ListLine, SectionIndex(f.sections, section), key);
    GetIsFirst(f, section, key);
    GetIsFirst(EnsureSection(f, typ, name), section, key);
  }

  lemma {:induction false} NothingPastTheEnd(f: Contents, kind: Kind, idx: int, key: string)
    requires Placed(f) && idx >= |f.sections|
    ensures Values(f.lines, kind, idx, key) == []
  {
    NoValues(f.lines, kind, idx, key);
  }

  // ---- any number of edits ----

  datatype Edit =
    | EnsureIt(typ: string, name: string)
    | SetIt(section: string, option: string, value: string)
    | DeleteIt(section: string, option: string)

  /** A failed Set leaves the file as it was. */
  ghost function Edited(f: Contents, e: Edit): Contents
    requires Placed(f)
  {
    match e
    case EnsureIt(typ, name) => EnsureSection(f, typ, name)
    case SetIt(section, option, value) =>
      var res := Set(f, section, option, value);
      if res.Ok? then res.value else f
    case DeleteIt(section, option) => Delete(f, section, option)
  }

  lemma {:induction false} EnsurePlaced(f: Contents, typ: string, name: string)
    requires Placed(f)
    ensures Placed(EnsureSection(f, typ, name))
  {
    var g := EnsureSection(f, typ, name);
    if SectionIndex(f.sections, name) == |f.sections| {
      forall idx | 0 <= idx < |g.sections| ensures Headed(g.lines, idx) {
        if idx < |f.sections| {
          assert Headed(f.lines, idx);
          var h :| 0 <= h < |f.lines| && HeaderOf(f.lines[h], idx);
          assert HeaderOf(g.lines[h], idx);
        } else {
          assert HeaderOf(g.lines[|g.lines| - 1], idx);
        }
      }
    }
  }

  lemma {:induction false} SetPlaced(f: Contents, section: string, option: string, value: string)
    requires Placed(f) && Set(f, section, option, value).Ok?
    ensures Placed(Set(f, section, option, value).value)
  {
    var g := Set(f, section, option, value).value;
    var i := SectionIndex(f.sections, section);
    InsertsInSection(f, i);
    var at, p := OptionAt(f.lines, i, option), InsertAt(f.lines, i, 0, -1);
    forall idx | 0 <= idx < |g.sections| ensures Headed(g.lines, idx) {
      assert Headed(f.lines, idx);
      var h :| 0 <= h < |f.lines| && HeaderOf(f.lines[h], idx);
      var h' := if at < |f.lines| || h < p then h else h + 1;
      assert g.lines[h'] == f.lines[h] && HeaderOf(g.lines[h'], idx);
    }
  }

  lemma {:induction false} WithoutKeeps(lines: seq<Line>, idx: int, option: string)
    ensures forall l | l in WithoutOption(lines, idx, option) :: l in lines
    ensures forall l | l in lines && !IsOption(l, idx, option) :: l in WithoutOption(lines, idx, option)
  {
    if lines != [] { WithoutKeeps(lines[1..], idx, option); }
  }

  lemma {:induction false} DeletePlaced(f: Contents, section: string, option: string)
    requires Placed(f)
    ensures Placed(Delete(f, section, option))
  {
    var g := Delete(f, section, option);
    WithoutKeeps(f.lines, SectionIndex(f.sections, section), option);
    forall i | 0 <= i < |g.lines| ensures g.lines[i].section < |g.sections| { assert g.lines[i] in f.lines; }
    forall idx | 0 <= idx < |g.sections| ensures Headed(g.lines, idx) {
      assert Headed(f.lines, idx);
      var h :| 0 <= h < |f.lines| && HeaderOf(f.lines[h], idx);
      assert f.lines[h] in g.lines;
      var h' :| 0 <= h' < |g.lines| && g.lines[h'] == f.lines[h];
      assert HeaderOf(g.lines[h'], idx);
    }
  }

  lemma {:induction false} EditedPlaced(f: Contents, e: Edit)
    requires Placed(f)
    ensures Placed(Edited(f, e))
  {
    hide Placed, EnsureSection, Delete, Set;
    match e {
      case EnsureIt(typ, name) => EnsurePlaced(f, typ, name);
      case SetIt(section, option, value) =>
        if Set(f, section, option, value).Ok? { SetPlaced(f, section, option, value); }
      case DeleteIt(section, option) => DeletePlaced(f, section, option);
    }
  }

  ghost function RunEdits(f: Contents, edits: seq<Edit>): (g: Contents)
    requires Placed(f)
    ensures Placed(g)
    decreases |edits|
  {
    if edits == [] then f
    else
      EditedPlaced(f, edits[0]);
      RunEdits(Edited(f, edits[0]), edits[1..])
  }

  /** New sections are written so that they read back, and no value holds a newline. */
  predicate Written(e: Edit) {
    match e
    case EnsureIt(typ, name) => HeaderReadsBack(typ, name) && OneLine(typ) && OneLine(name)
    case SetIt(_, _, value) => OneLine(value)
    case DeleteIt(_, _) => true
  }

  lemma {:induction false} EditedCoherent(f: Contents, e: Edit)
    requires Coherent(f) && Placed(f) && Written(e)
    ensures Coherent(Edited(f, e))
  {
    hide ParseFrom, HeaderReadsBack, WithoutOption, SetLines;
    match e {
      case EnsureIt(typ, name) =>
        if SectionIndex(f.sections, name) == |f.sections| { EnsureCoherentExactly(f, typ, name); }
      case SetIt(section, option, value) =>
        if Set(f, section, option, value).Ok? { SetCoherent(f, section, option, value); }
      case DeleteIt(section, option) => DeleteCoherent(f, section, option);
    }
  }

  lemma {:induction false} QuoteOneLine(v: string)
    ensures OneLine(EscapeQuotes(v)) <==> OneLine(v)
  {
    if v != [] {
      QuoteOneLine(v[1..]);
      var head := if v[0] == '\'' then "'\\''" else [v[0]];
      assert OneLine(v) <==> OneLine([v[0]]) && OneLine(v[1..]) by { OneLineAppend([v[0]], v[1..]); assert v == [v[0]] + v[1..]; }
      OneLineAppend(head, EscapeQuotes(v[1..]));
    }
  }

  lemma {:induction false} OneLineAppend(a: string, b: string)
    ensures OneLine(a + b) <==> OneLine(a) && OneLine(b)
  {
    if OneLine(a + b) {
      forall i | 0 <= i < |a| ensures a[i] != '\n' { assert (a + b)[i] == a[i]; }
      forall i | 0 <= i < |b| ensures b[i] != '\n' { assert (a + b)[|a| + i] == b[i]; }
    }
  }

  /** A written line is clean exactly when it is one line: it ends in a quote. */
  lemma {:induction false} WrittenClean(head: string, v: string)
    ensures Clean(head + Quote(v)) <==> OneLine(head) && OneLine(v)
  {
    var raw := head + Quote(v);
    assert raw[|raw| - 1] == '\'';
    QuoteOneLine(v);
    OneLineAppend(head, Quote(v));
    OneLineAppend("'" + EscapeQuotes(v), "'");
    OneLineAppend("'", EscapeQuotes(v));
  }

  lemma {:induction false} OptionRawClean(option: string, value: string)
    requires ValidName(option)
    ensures Clean(OptionRaw(option, value)) <==> OneLine(value)
  {
    var head := "\toption " + option + " ";
    assert OptionRaw(option, value) == head + Quote(value);
    OneLineAppend("\toption " + option, " ");
    OneLineAppend("\toption ", option);
    WrittenClean(head, value);
  }

  lemma {:induction false} ConfigRawClean(typ: string, name: string)
    requires OneLine(typ) && OneLine(name)
    ensures Clean(ConfigRaw(typ, name))
  {
    var head := "config " + typ + " ";
    assert ConfigRaw(typ, name) == head + Quote(name);
    OneLineAppend("config " + typ, " ");
    OneLineAppend("config ", typ);
    WrittenClean(head, name);
  }

  /** With a section in it a coherent file is not a single empty line. */
  lemma {:induction false} NotOnlyEmpty(f: Contents)
    requires Coherent(f) && f.sections != []
    ensures Raws(f.lines) != [""]
  {
    EmptyLines(0, [Line("", Other, -1, "", "")]);
    assert Raws([Line("", Other, -1, "", "")]) == [""];
  }

  lemma {:induction false} EditedClean(f: Contents, e: Edit)
    requires Coherent(f) && Placed(f) && CleanLines(f) && Written(e)
    ensures CleanLines(Edited(f, e))
  {
    hide ParseFrom, HeaderReadsBack;
    var g := Edited(f, e);
    EditedCoherent(f, e);
    if g.sections != [] {
      NotOnlyEmpty(g);
    }
    match e {
      case EnsureIt(typ, name) => ConfigRawClean(typ, name);
      case SetIt(section, option, value) =>
        if Set(f, section, option, value).Ok? {
          OptionRawClean(option, value);
          InsertsInSection(f, SectionIndex(f.sections, section));
        }
      case DeleteIt(section, option) =>
        WithoutKeeps(f.lines, SectionIndex(f.sections, section), option);
        forall i | 0 <= i < |g.lines| ensures Clean(g.lines[i].raw) { assert g.lines[i] in f.lines; }
    }
  }

  lemma {:induction false} RunClean(f: Contents, edits: seq<Edit>)
    requires Coherent(f) && Placed(f) && CleanLines(f) && forall i | 0 <= i < |edits| :: Written(edits[i])
    ensures Coherent(RunEdits(f, edits)) && CleanLines(RunEdits(f, edits))
    decreases |edits|
  {
    if edits != [] {
      hide Coherent, Placed, CleanLines, Written, Edited;
      EditedPlaced(f, edits[0]);
      EditedCoherent(f, edits[0]);
      EditedClean(f, edits[0]);
      RunClean(Edited(f, edits[0]), edits[1..]);
    }
  }

  /** A file parsed from any text without carriage returns and edited any number of times is
      read back as the same lines, sections, keys and values. */
  lemma {:induction false} EditedFileReadsBack(data: string, edits: seq<Edit>)
    requires forall i | 0 <= i < |data| :: data[i] != '\r'
    requires forall i | 0 <= i < |edits| :: Written(edits[i])
    ensures Placed(Parse(data))
    ensures Parse(Bytes(RunEdits(Parse(data), edits))) == RunEdits(Parse(data), edits)
  {
    ParsedIsCoherent(data);
    ParsedIsClean(data);
    CoherentIsPlaced(Parse(data));
    RunClean(Parse(data), edits);
    ReadsBackClean(RunEdits(Parse(data), edits));
  }

  /** A Set survives writing and reading exactly when its value has no newline. */
  lemma {:induction false} SetSurvivesExactly(f: Contents, section: string, option: string, value: string)
    requires Coherent(f) && Placed(f) && CleanLines(f) && Set(f, section, option, value).Ok?
    ensures var g := Set(f, section, option, value).value;
            Parse(Bytes(g)) == g <==> OneLine(value)
    ensures OneLine(value) ==>
              Get(Parse(Bytes(Set(f, section, option, value).value)), section, option) == Some(value)
  {
    var g := Set(f, section, option, value).value;
    SetCoherent(f, section, option, value);
    ReadsBackExactly(g);
    SetReadBack(f, section, option, value, section, option);
    if OneLine(value) {
      EditedClean(f, SetIt(section, option, value));
    } else {
      OptionRawClean(option, value);
      var idx := SectionIndex(f.sections, section);
      InsertsInSection(f, idx);
      var at := if OptionAt(f.lines, idx, option) < |f.lines| then OptionAt(f.lines, idx, option) else InsertAt(f.lines, idx, 0, -1);
      assert g.lines[at].raw == OptionRaw(option, value);
    }
  }

  // ---- where a new line goes ----

  predicate EntryIn(l: Line, idx: int) { l.section == idx && (l.kind == OptionLine || l.kind == ListLine) }

  lemma {:induction false} InsertFrom(lines: seq<Line>, idx: int, i: nat, at: int)
    requires i <= |lines|
    ensures var p := InsertAt(lines, idx, i, at);
            && ((exists k | i <= k < |lines| :: EntryIn(lines[k], idx)) ==>
                  i < p <= |lines| && EntryIn(lines[p - 1], idx) && forall k | p <= k < |lines| :: !EntryIn(lines[k], idx))
            && ((forall k | i <= k < |lines| :: !EntryIn(lines[k], idx)) && at >= 0 ==> p == at)
            && ((forall k | i <= k < |lines| :: !EntryIn(lines[k], idx)) && at < 0 ==>
                  if exists k | i <= k < |lines| :: HeaderOf(lines[k], idx)
                  then i < p <= |lines| && HeaderOf(lines[p - 1], idx) && forall k | i <= k < p - 1 :: !HeaderOf(lines[k], idx)
                  else p == at)
    decreases |lines| - i
  {
    if i < |lines| {
      var next := if EntryIn(lines[i], idx) || (HeaderOf(lines[i], idx) && at < 0) then i + 1 else at;
      assert InsertAt(lines, idx, i, at) == InsertAt(lines, idx, i + 1, next);
      InsertFrom(lines, idx, i + 1, next);
      hide InsertAt;
      hide EntryIn, HeaderOf;
    }
  }

  /** Where a new option goes: right behind the latest entry of its section; behind the header
      of one without entries. */
  lemma {:induction false} InsertExactly(lines: seq<Line>, idx: int)
    requires Headed(lines, idx)
    ensures var p := InsertAt(lines, idx, 0, -1);
            && 0 < p <= |lines|
            && (forall k | p <= k < |lines| :: !EntryIn(lines[k], idx))
            && (EntryIn(lines[p - 1], idx) ||
                (HeaderOf(lines[p - 1], idx) && forall k | 0 <= k < |lines| :: !EntryIn(lines[k], idx)))
  {
    InsertFrom(lines, idx, 0, -1);
    hide InsertAt, EntryIn, HeaderOf;
  }

  /** A new section comes last, behind an empty line unless the file is empty or ends in one. */
  lemma {:induction false} NewSectionLast(f: Contents, typ: string, name: string)
    requires forall k | 0 <= k < |f.sections| :: f.sections[k].name != name
    ensures var f', n := EnsureSection(f, typ, name), |f.lines|;
            var blank := n > 0 && exists c :: c in f.lines[n - 1].raw && !IsSpace(c);
            && |f'.lines| == (if blank then n + 2 else n + 1) && f'.lines[..n] == f.lines
            && (blank ==> f'.lines[n].raw == "" && f'.lines[n].kind == Other)
            && f'.lines[|f'.lines| - 1].raw == "config " + typ + " " + Quote(name)
            && f'.sections == f.sections + [Sec(typ, name)]
  {
    var n := |f.lines|;
    if n > 0 {
      assert AllSpace(f.lines[n - 1].raw) <==> !exists c :: c in f.lines[n - 1].raw && !IsSpace(c);
    }
    hide Quote;
  }

  /** What Set refuses: an option name that is empty or has another character than letters,
      digits and underscores, and a section that is not there. */
  lemma {:induction false} SetRefused(f: Contents, section: string, option: string, value: string)
    requires Coherent(f) && Placed(f)
    ensures var good := option != "" && forall i | 0 <= i < |option| ::
              var c := option[i]; c == '_' || 'a' <= c <= 'z' || 'A' <= c <= 'Z' || '0' <= c <= '9';
            var there := exists k | 0 <= k < |f.sections| :: f.sections[k].name == section;
            && (UciFile.Set(f, section, option, value) == Err(InvalidName) <==> !good)
            && (UciFile.Set(f, section, option, value) == Err(NoSection) <==> good && !there)
            && (UciFile.Set(f, section, option, value).Ok? <==> good && there)
  {
    hide SetLines;
  }
}
