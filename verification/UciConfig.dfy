/** A UCI config as the planner edits it: sections in file order, each with its
    options in order. The parser and renderer behind it are taken as mutually
    inverse, so a config and its file are the same thing here. */
module UciConfig {
  import opened Wrappers
  import opened Text

  /** `option` values are strings, `list` values are item lists. */
  datatype Value = Str(s: string) | List(items: seq<string>) {
    /** The value read as one string: a list joins its items with blanks. */
    function AsString(): string {
      match this
      case Str(s) => s
      case List(items) => Join(items, " ")
    }

    /** The value read as a list: a string is split at white space. */
    function AsList(): seq<string> {
      match this
      case Str(s) => Fields(s)
      case List(items) => items
    }
  }

  datatype Opt = Opt(name: string, value: Value)

  datatype Section = Section(name: string, typ: string, anonymous: bool, options: seq<Opt>) {
    function Get(option: string): Option<Value> { GetOpt(options, option) }

    /** The option as a string, "" when absent. */
    function Text(option: string): string {
      match Get(option)
      case Some(v) => v.AsString()
      case None => ""
    }

    function Items(option: string): seq<string> {
      match Get(option)
      case Some(v) => v.AsList()
      case None => []
    }

    function Set(option: string, v: Value): Section {
      this.(options := SetOpt(options, option, v))
    }

    function Delete(option: string): Section {
      this.(options := DeleteOpt(options, option))
    }
  }

  type Config = seq<Section>

  function GetOpt(options: seq<Opt>, name: string): Option<Value> {
    if options == [] then None
    else if options[0].name == name then Some(options[0].value)
    else GetOpt(options[1..], name)
  }

  /** Replaces in place, or appends. */
  function SetOpt(options: seq<Opt>, name: string, v: Value): seq<Opt> {
    if options == [] then [Opt(name, v)]
    else if options[0].name == name then [Opt(name, v)] + options[1..]
    else [options[0]] + SetOpt(options[1..], name, v)
  }

  function DeleteOpt(options: seq<Opt>, name: string): seq<Opt> {
    if options == [] then []
    else (if options[0].name == name then [] else [options[0]]) + DeleteOpt(options[1..], name)
  }

  lemma {:induction false} GetIs(options: seq<Opt>, i: nat)
    requires i < |options| && forall j | 0 <= j < i :: options[j].name != options[i].name
    ensures GetOpt(options, options[i].name) == Some(options[i].value)
  {
    if i > 0 {
      GetIs(options[1..], i - 1);
    }
  }

  lemma {:induction false} GetNone(options: seq<Opt>, name: string)
    requires forall j | 0 <= j < |options| :: options[j].name != name
    ensures GetOpt(options, name) == None
  {
    if options != [] {
      GetNone(options[1..], name);
    }
  }

  lemma {:induction false} GetAfterSet(options: seq<Opt>, name: string, v: Value, other: string)
    ensures GetOpt(SetOpt(options, name, v), other) == if other == name then Some(v) else GetOpt(options, other)
  {
    if options != [] && options[0].name != name {
      GetAfterSet(options[1..], name, v, other);
    }
  }

  lemma {:induction false} GetAfterDelete(options: seq<Opt>, name: string, other: string)
    ensures GetOpt(DeleteOpt(options, name), other) == if other == name then None else GetOpt(options, other)
  {
    if options != [] {
      GetAfterDelete(options[1..], name, other);
      var t := DeleteOpt(options[1..], name);
      assert ([options[0]] + t)[1..] == t && [] + t == t;
    }
  }

  /** Deleting an option that was set where there was none gives the options back. */
  lemma {:induction false} DeleteUndoesSet(options: seq<Opt>, name: string, v: Value)
    requires GetOpt(options, name) == None
    ensures DeleteOpt(SetOpt(options, name, v), name) == options
  {
    if options == [] {
    } else {
      DeleteUndoesSet(options[1..], name, v);
      var t := SetOpt(options[1..], name, v);
      assert SetOpt(options, name, v)[1..] == t;
    }
  }

  /** Setting an option back to the value it had gives the options back. */
  lemma {:induction false} SetUndoesSet(options: seq<Opt>, name: string, v: Value, was: Value)
    requires GetOpt(options, name) == Some(was)
    ensures SetOpt(SetOpt(options, name, v), name, was) == options
  {
    if options[0].name == name {
      assert SetOpt(options, name, v)[1..] == options[1..];
    } else {
      SetUndoesSet(options[1..], name, v, was);
      assert SetOpt(options, name, v)[1..] == SetOpt(options[1..], name, v);
    }
  }

  // ---- sections by name and type ----

  ghost predicate HasName(c: Config, name: string) {
    exists i | 0 <= i < |c| :: c[i].name == name
  }

  /** Config.Section: the first section of that name. */
  function SectionAt(c: Config, name: string): (i: nat)
    ensures i <= |c|
    ensures i < |c| ==> c[i].name == name
    ensures forall k | 0 <= k < i :: c[k].name != name
  {
    if c == [] || c[0].name == name then 0 else 1 + SectionAt(c[1..], name)
  }

  ghost predicate UniqueNames(c: Config) {
    forall i, j | 0 <= i < j < |c| :: c[i].name != c[j].name
  }

  /** Without the named sections of the set: an anonymous section always stays. */
  function Drop(c: Config, owned: set<string>): Config {
    if c == [] then []
    else (if !c[0].anonymous && c[0].name in owned then [] else [c[0]]) + Drop(c[1..], owned)
  }

  predicate CarriesNone(c: Config, names: set<string>) {
    forall i | 0 <= i < |c| :: c[i].anonymous || c[i].name !in names
  }

  lemma {:induction false} DropCons(s: Section, c: Config, owned: set<string>)
    ensures Drop([s] + c, owned) == (if !s.anonymous && s.name in owned then [] else [s]) + Drop(c, owned)
  {
    assert ([s] + c)[1..] == c;
  }

  lemma {:induction false} DropAppend(a: Config, b: Config, owned: set<string>)
    ensures Drop(a + b, owned) == Drop(a, owned) + Drop(b, owned)
  {
    if a == [] {
      assert a + b == b;
    } else {
      DropAppend(a[1..], b, owned);
      DropCons(a[0], a[1..] + b, owned);
      DropCons(a[0], a[1..], owned);
      hide Drop;
      assert a + b == [a[0]] + (a[1..] + b) && a == [a[0]] + a[1..];
    }
  }

  lemma {:induction false} CarriesNoneTail(c: Config, names: set<string>)
    requires c != []
    ensures CarriesNone(c, names) <==> (c[0].anonymous || c[0].name !in names) && CarriesNone(c[1..], names)
  {
    if CarriesNone(c[1..], names) && (c[0].anonymous || c[0].name !in names) {
      forall i | 0 <= i < |c| ensures c[i].anonymous || c[i].name !in names {
        assert i > 0 ==> c[i] == c[1..][i - 1];
      }
    }
  }

  /** Drop keeps everything exactly when nothing of the set is there. */
  lemma {:induction false} DropKeepsAll(c: Config, owned: set<string>)
    ensures |Drop(c, owned)| <= |c|
    ensures |Drop(c, owned)| == |c| <==> CarriesNone(c, owned)
    ensures CarriesNone(c, owned) ==> Drop(c, owned) == c
  {
    if c != [] {
      DropKeepsAll(c[1..], owned);
      CarriesNoneTail(c, owned);
    }
  }

  lemma {:induction false} DropDropsAll(c: Config, owned: set<string>)
    requires forall i | 0 <= i < |c| :: !c[i].anonymous && c[i].name in owned
    ensures Drop(c, owned) == []
  {
    if c != [] {
      DropDropsAll(c[1..], owned);
    }
  }

  /** What Drop leaves: the sections outside the set, with no name of it. */
  lemma {:induction false} DropLeaves(c: Config, owned: set<string>)
    ensures CarriesNone(Drop(c, owned), owned)
    ensures forall i | 0 <= i < |Drop(c, owned)| :: Drop(c, owned)[i] in c
    ensures UniqueNames(c) ==> UniqueNames(Drop(c, owned))
  {
    if c != [] {
      DropLeaves(c[1..], owned);
      var rest, head := Drop(c[1..], owned), if !c[0].anonymous && c[0].name in owned then [] else [c[0]];
      assert Drop(c, owned) == head + rest;
      hide Drop;
      forall i | 0 <= i < |rest| ensures rest[i] in c {
        assert rest[i] in c[1..];
      }
      if UniqueNames(c) {
        assert UniqueNames(c[1..]);
        forall i | 0 <= i < |rest| ensures rest[i].name != c[0].name {
          assert rest[i] in c[1..];
        }
      }
    }
  }
}
