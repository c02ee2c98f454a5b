/** The UCI editor itself: a file that is parsed once, edited in place and written back. */
module UciEditor {
  import opened Wrappers
  import opened Text
  import opened UciText
  import opened UciFile
  import UciEdits

  class File {
    var lines: seq<Line>
    var sections: seq<Sec>

    ghost function Now(): Contents reads this { Contents(lines, sections) }

    ghost predicate Valid() reads this { Placed(Now()) }

    constructor Parse(data: string)
      ensures Valid() && Now() == UciFile.Parse(data)
    {
      lines, sections := [], [];
      new;
      ParsedIsCoherent(data);
      CoherentIsPlaced(UciFile.Parse(data));
      var text := TrimNewline(NoCrLf(data));
      if text == "" {
        return;
      }
      AddLines(Split(text));
    }

    method AddLines(raws: seq<string>)
      requires lines == [] && sections == []
      modifies this
      ensures Now() == ParseFrom(0, raws)
    {
      ghost var goal := ParseFrom(0, raws);
      ghost var rest := goal;
      assert raws[0..] == raws && [] + rest.lines == rest.lines && [] + rest.sections == rest.sections;
      hide ParseFrom, ParseOne;
      for n := 0 to |raws|
        invariant rest == ParseFrom(|sections|, raws[n..])
        invariant goal == Contents(lines + rest.lines, sections + rest.sections)
      {
        LineDone(Now(), goal, raws, n);
        AddLine(raws[n]);
        rest := ParseFrom(|sections|, raws[n + 1..]);
      }
      EndOfText(|sections|, raws[|raws|..]);
      assert lines + [] == lines && sections + [] == sections;
    }

    /** One line of the text. */
    method AddLine(raw: string)
      modifies this
      ensures lines == old(lines) + [ParseOne(|old(sections)|, raw).0]
      ensures sections == old(sections) + ParseOne(|old(sections)|, raw).1
    {
      var l := Line(raw, Other, |sections| - 1, "", "");
      var words := Tokenize(raw);
      if words.Some? && |words.value| >= 2 {
        var w := words.value;
        if w[0] == "config" {
          sections := sections + [Sec(w[1], Third(w))];
          l := l.(kind := Header, section := |sections| - 1);
        } else if (w[0] == "option" || w[0] == "list") && |sections| > 0 {
          l := l.(key := w[1], value := Third(w), kind := if w[0] == "option" then OptionLine else ListLine);
        }
      }
      lines := lines + [l];
    }

    method Index(name: string) returns (i: int)
      ensures i == (var k := SectionIndex(sections, name); if k < |sections| then k else -1)
    {
      for k := 0 to |sections|
        invariant forall j | 0 <= j < k :: sections[j].name != name
      {
        if sections[k].name == name {
          return k;
        }
      }
      return -1;
    }

    method Get(section: string, option: string) returns (res: Option<string>)
      ensures res == UciFile.Get(Now(), section, option)
    {
      var idx := Index(section);
      if idx < 0 {
        return None;
      }
      for i := 0 to |lines|
        invariant forall k | 0 <= k < i :: !IsOption(lines[k], idx, option)
      {
        if IsOption(lines[i], idx, option) {
          return Some(lines[i].value);
        }
      }
      return None;
    }

    method GetList(section: string, option: string) returns (out: seq<string>)
      requires Valid()
      ensures out == UciFile.GetList(Now(), section, option)
    {
      var idx := Index(section);
      if idx < 0 {
        // No line belongs to a section that is not there.
        return [];
      }
      out := [];
      assert lines[0..] == lines && [] + Values(lines, ListLine, idx, option) == Values(lines, ListLine, idx, option);
      assert Values([], ListLine, idx, option) == [];
      hide Values, Placed;
      for i := 0 to |lines|
        invariant out + Values(lines[i..], ListLine, idx, option) == Values(lines, ListLine, idx, option)
      {
        UciEdits.ValuesCons(lines[i], lines[i + 1..], ListLine, idx, option);
        assert [lines[i]] + lines[i + 1..] == lines[i..];
        if IsEntry(lines[i], ListLine, idx, option) {
          out := out + [lines[i].value];
        }
      }
      assert lines[|lines|..] == [] && out + [] == out;
    }

    method EnsureSection(typ: string, name: string)
      requires Valid()
      modifies this
      ensures Valid() && Now() == UciFile.EnsureSection(old(Now()), typ, name)
    {
      var idx := Index(name);
      if idx >= 0 {
        return;
      }
      UciEdits.EnsurePlaced(Now(), typ, name);
      ghost var was := lines;
      if lines != [] && !AllSpace(lines[|lines| - 1].raw) {
        lines := lines + [Line("", Other, |sections| - 1, "", "")];
      }
      assert lines == was + SpaceBefore(old(Now()));
      sections := sections + [Sec(typ, name)];
      lines := lines + [Line(ConfigRaw(typ, name), Header, |sections| - 1, "", "")];
    }

    method Set(section: string, option: string, value: string) returns (err: Option<SetError>)
      requires Valid()
      modifies this
      ensures Valid()
      ensures match UciFile.Set(old(Now()), section, option, value)
              case Ok(f) => err == None && Now() == f
              case Err(e) => err == Some(e) && Now() == old(Now())
    {
      if !ValidName(option) {
        return Some(InvalidName);
      }
      var idx := Index(section);
      if idx < 0 {
        return Some(NoSection);
      }
      var l := NewOption(idx, option, value);
      InsertsInSection(Now(), idx);
      UciEdits.SetPlaced(Now(), section, option, value);
      var insertAt := -1;
      ghost var f := Now();
      hide Placed, NewOption, InsertAt, SetLines, UciFile.Set, OptionAt, ValidName;
      for i := 0 to |lines|
        invariant lines == old(lines) && sections == old(sections)
        invariant forall k | 0 <= k < i :: !IsOption(lines[k], idx, option)
        invariant InsertAt(lines, idx, i, insertAt) == InsertAt(lines, idx, 0, -1)
      {
        InsertStep(lines, idx, i, insertAt);
        if lines[i].section != idx {
          continue;
        }
        match lines[i].kind {
          case OptionLine =>
            if lines[i].key == option {
              SetAtOption(f, section, option, value, i);
              lines := lines[i := l];
              return None;
            }
            insertAt := i + 1;
          case ListLine => insertAt := i + 1;
          case Header =>
            if insertAt < 0 {
              insertAt := i + 1;
            }
          case Other =>
        }
      }
      SetAtEnd(f, section, option, value, insertAt);
      lines := lines[..insertAt] + [l] + lines[insertAt..];
      return None;
    }

    method Delete(section: string, option: string)
      requires Valid()
      modifies this
      ensures Valid() && Now() == UciFile.Delete(old(Now()), section, option)
    {
      var idx := Index(section);
      if idx < 0 {
        return;
      }
      UciEdits.DeletePlaced(Now(), section, option);
      ghost var want := UciFile.Delete(Now(), section, option);
      hide Placed;
      var out: seq<Line> := [];
      assert lines[0..] == lines;
      for i := 0 to |lines|
        invariant Now() == old(Now())
        invariant out + WithoutOption(lines[i..], idx, option) == WithoutOption(lines, idx, option)
      {
        assert lines[i..][1..] == lines[i + 1..];
        if IsOption(lines[i], idx, option) {
          continue;
        }
        out := out + [lines[i]];
      }
      assert lines[|lines|..] == [] && out + [] == out;
      lines := out;
      assert Now() == want;
    }

    method Bytes() returns (b: string)
      ensures b == UciFile.Bytes(Now())
    {
      b := "";
      ghost var raws := Raws(lines);
      assert forall i | 0 <= i < |lines| :: raws[i] == lines[i].raw;
      hide Raws;
      assert raws[0..] == raws && "" + JoinLines(raws) == JoinLines(raws) && JoinLines([]) == "";
      hide JoinLines;
      for i := 0 to |lines|
        invariant b + JoinLines(raws[i..]) == JoinLines(raws)
      {
        JoinStep(raws, i);
        Assoc(b, raws[i] + "\n", JoinLines(raws[i + 1..]));
        Assoc(b, raws[i], "\n");
        b := b + lines[i].raw;
        b := b + "\n";
      }
      assert raws[|lines|..] == [] && b + "" == b;
    }
  }

  lemma {:induction false} InsertStep(lines: seq<Line>, idx: int, i: nat, at: int)
    requires i < |lines|
    ensures InsertAt(lines, idx, i, at) ==
            InsertAt(lines, idx, i + 1,
                     if lines[i].section == idx &&
                        (lines[i].kind == OptionLine || lines[i].kind == ListLine || (lines[i].kind == Header && at < 0))
                     then i + 1 else at)
  {
  }

  lemma {:induction false} SetAtOption(f: Contents, section: string, option: string, value: string, i: nat)
    requires Placed(f) && ValidName(option) && i < |f.lines| && SectionIndex(f.sections, section) < |f.sections|
    requires IsOption(f.lines[i], SectionIndex(f.sections, section), option)
    requires forall k | 0 <= k < i :: !IsOption(f.lines[k], SectionIndex(f.sections, section), option)
    ensures UciFile.Set(f, section, option, value) ==
            Ok(f.(lines := f.lines[i := NewOption(SectionIndex(f.sections, section), option, value)]))
  {
    hide Placed, NewOption, InsertAt;
    assert OptionAt(f.lines, SectionIndex(f.sections, section), option) == i;
  }

  lemma {:induction false} SetAtEnd(f: Contents, section: string, option: string, value: string, at: int)
    requires Placed(f) && ValidName(option) && SectionIndex(f.sections, section) < |f.sections|
    requires forall k | 0 <= k < |f.lines| :: !IsOption(f.lines[k], SectionIndex(f.sections, section), option)
    requires InsertAt(f.lines, SectionIndex(f.sections, section), |f.lines|, at) ==
             InsertAt(f.lines, SectionIndex(f.sections, section), 0, -1)
    ensures 0 < at <= |f.lines|
    ensures UciFile.Set(f, section, option, value) ==
            Ok(f.(lines := f.lines[..at] + [NewOption(SectionIndex(f.sections, section), option, value)] + f.lines[at..]))
  {
    InsertsInSection(f, SectionIndex(f.sections, section));
    assert InsertAt(f.lines, SectionIndex(f.sections, section), |f.lines|, at) == at;
    hide Placed, NewOption, InsertAt;
    assert OptionAt(f.lines, SectionIndex(f.sections, section), option) == |f.lines|;
  }

  lemma {:induction false} JoinStep(raws: seq<string>, i: nat)
    requires i < |raws|
    ensures JoinLines(raws[i..]) == raws[i] + "\n" + JoinLines(raws[i + 1..])
  {
    assert raws[i..][1..] == raws[i + 1..];
  }

  lemma {:induction false} EndOfText(n: nat, raws: seq<string>)
    requires raws == []
    ensures ParseFrom(n, raws) == Contents([], [])
  {
  }

  /** One line of the parse loop. */
  lemma {:induction false} LineDone(was: Contents, goal: Contents, raws: seq<string>, n: nat)
    requires n < |raws|
    requires var rest := ParseFrom(|was.sections|, raws[n..]);
             goal == Contents(was.lines + rest.lines, was.sections + rest.sections)
    ensures var (l, secs) := ParseOne(|was.sections|, raws[n]);
            var rest := ParseFrom(|was.sections + secs|, raws[n + 1..]);
            goal == Contents((was.lines + [l]) + rest.lines, (was.sections + secs) + rest.sections)
  {
    hide ParseFrom, ParseOne;
    ParseCons(|was.sections|, raws[n], raws[n + 1..]);
    assert raws[n..] == [raws[n]] + raws[n + 1..];
    var (l, secs) := ParseOne(|was.sections|, raws[n]);
    var rest := ParseFrom(|was.sections + secs|, raws[n + 1..]);
    assert was.lines + ([l] + rest.lines) == (was.lines + [l]) + rest.lines;
    assert was.sections + (secs + rest.sections) == (was.sections + secs) + rest.sections;
  }
}
