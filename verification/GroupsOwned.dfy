/** What the engine reports as its own, for the Wi-Fi plane to keep its hands off: the
    confirmed ledger's sections and options and an open window's. */
module GroupsOwned {
  import opened Wrappers
  import opened Text
  import opened SortedKeys
  import opened UciConfig
  import opened GroupsPlan
  import opened GroupsNames
  import opened GroupsNoDrift
  import opened GroupsResult
  import opened EngineModel

  datatype OwnedView = OwnedView(sections: seq<string>, dynamicVlan: seq<string>, converted: string, pending: bool)

  /** The ledgers the files may hold. */
  function Ledgers(st: Stored): seq<Ledger> {
    [st.ledger] + match st.pending
                  case Some(p) => [p.ledger]
                  case None => []
  }

  /** A file that cannot be read counts as empty. */
  function SectionsOf(f: File): Config {
    match f
    case Parsed(c) => c
    case Garbled(_) => []
  }

  function AllOwned(ledgers: seq<Ledger>, w: Config, n: Config): set<string> {
    if ledgers == [] then {}
    else AllOwned(ledgers[..|ledgers| - 1], w, n) + OwnedSet(ledgers[|ledgers| - 1], w, n)
  }

  function AllDyn(ledgers: seq<Ledger>): set<string> {
    if ledgers == [] then {} else AllDyn(ledgers[..|ledgers| - 1]) + ledgers[|ledgers| - 1].dynamicVlan.Keys
  }

  /** The newest conversion's bridge; "" for none. */
  function LastBridge(ledgers: seq<Ledger>): string {
    if ledgers == [] then ""
    else
      match ledgers[|ledgers| - 1].converted
      case Some(c) => c.bridge
      case None => LastBridge(ledgers[..|ledgers| - 1])
  }

  ghost function View(st: Stored, wireless: File, network: File): OwnedView {
    var ledgers := Ledgers(st);
    OwnedView(Keys(AllOwned(ledgers, SectionsOf(wireless), SectionsOf(network))), Keys(AllDyn(ledgers)), LastBridge(ledgers),
              st.pending.Some?)
  }

  method Owned(st: Stored, wireless: File, network: File) returns (v: OwnedView)
    ensures v == View(st, wireless, network)
  {
    var ledgers := Ledgers(st);
    var w, n := SectionsOf(wireless), SectionsOf(network);
    var sections: set<string>, dyn: set<string>, converted := {}, {}, "";
    for i := 0 to |ledgers|
      invariant sections == AllOwned(ledgers[..i], w, n) && dyn == AllDyn(ledgers[..i]) && converted == LastBridge(ledgers[..i])
    {
      assert ledgers[..i + 1][..i] == ledgers[..i];
      sections := sections + OwnedSet(ledgers[i], w, n);
      dyn := dyn + ledgers[i].dynamicVlan.Keys;
      if ledgers[i].converted.Some? {
        converted := ledgers[i].converted.value.bridge;
      }
    }
    assert ledgers[..|ledgers|] == ledgers;
    var names := Collect(sections);
    var ifaces := Collect(dyn);
    v := OwnedView(names, ifaces, converted, st.pending.Some?);
  }

  /** The view of an idle engine. */
  lemma {:induction false} ViewOfIdle(st: Stored, w: File, n: File)
    requires st.pending.None?
    ensures var v := View(st, w, n);
            (forall x :: x in v.sections <==> x in OwnedSet(st.ledger, SectionsOf(w), SectionsOf(n))) &&
            (forall x :: x in v.dynamicVlan <==> x in st.ledger.dynamicVlan) &&
            v.converted == (if st.ledger.converted.Some? then st.ledger.converted.value.bridge else "") && !v.pending
  {
    var a, ledgers := st.ledger, Ledgers(st);
    assert ledgers == [a] && [a][..0] == [];
    hide OwnedSet;
    assert AllOwned([a], SectionsOf(w), SectionsOf(n)) == OwnedSet(a, SectionsOf(w), SectionsOf(n));
    assert AllDyn([]) == {} && LastBridge([]) == "";
    assert AllDyn([a]) == a.dynamicVlan.Keys;
    assert LastBridge([a]) == if a.converted.Some? then a.converted.value.bridge else "";
  }

  /** The view while a window is open. */
  lemma {:induction false} ViewOfWindow(st: Stored, w: File, n: File)
    requires st.pending.Some?
    ensures var v := View(st, w, n);
            var p := st.pending.value.ledger;
            (forall x :: x in v.sections <==>
                         x in OwnedSet(st.ledger, SectionsOf(w), SectionsOf(n)) || x in OwnedSet(p, SectionsOf(w), SectionsOf(n))) &&
            (forall x :: x in v.dynamicVlan <==> x in st.ledger.dynamicVlan || x in p.dynamicVlan) &&
            v.converted == (if p.converted.Some? then p.converted.value.bridge
                            else if st.ledger.converted.Some? then st.ledger.converted.value.bridge else "") &&
            v.pending
  {
    var a, b := st.ledger, st.pending.value.ledger;
    var ledgers := Ledgers(st);
    assert ledgers == [a, b] && ledgers[..1] == [a] && [a][..0] == [];
    hide OwnedSet;
    assert AllOwned([a], SectionsOf(w), SectionsOf(n)) == OwnedSet(a, SectionsOf(w), SectionsOf(n));
    assert AllDyn([a]) == a.dynamicVlan.Keys;
    assert LastBridge([a]) == if a.converted.Some? then a.converted.value.bridge else "";
  }


  lemma {:induction false} WirelessUnchanged(w: Config, n: Config, d: Desired, detected: string, prev: Ledger, r: Planned, i: nat)
    requires Plan(w, n, d, detected, prev) == Ok(r) && WellNamed(w) && WellNamed(n) && WellFormed(prev, w, n) && i < |r.w|
    requires r.w[i].anonymous || r.w[i].name !in OwnedNames(r)
    requires r.w[i].name !in prev.dynamicVlan && r.w[i].name !in r.ledger.dynamicVlan
    ensures r.w[i] in w
  {
    Frame(w, n, d, detected, prev, r);
    var owned := Removed(w, n, prev);
    var stays := Drop(w, owned);
    DropLeaves(w, owned);
    assert i < |stays| && stays[i] in w && stays[i].name == r.w[i].name;
    var base := Undo(w, n, prev);
    UndoValid(w, n, prev);
    assert base.w[i] == RestoreDyn(stays[i], prev.dynamicVlan) == stays[i] by { UndoneAt(w, n, prev, i); }
    hide Undo, Drop, OwnedSet, Removed, WirelessFramed, NetworkFramed, Valid, BuildOn;
    assert BuildOn(base, d, detected, prev.converted) == Ok(r);
    if d.vlans == [] {
      assert r.w == base.w by { EmptyKeeps(base, d, detected, prev.converted, r); }
    } else {
      var managed, vids, port, net := BuiltShape(base, d, detected, prev.converted, r);
      assert r.ledger.dynamicVlan == DynBefore(base.w, managed);
      assert i < |base.w| && r.w[i] == MarkDyn(base.w[i], IfaceNames(managed));
      hide Shape, Built, SectionAt, DynBefore;
      DynBeforeAt(base.w, managed, i);
    }
  }

  lemma {:induction false} UndoneAt(w: Config, n: Config, prev: Ledger, i: nat)
    requires i < |Drop(w, Removed(w, n, prev))|
    ensures |Undo(w, n, prev).w| == |Drop(w, Removed(w, n, prev))|
    ensures Undo(w, n, prev).w[i] == RestoreDyn(Drop(w, Removed(w, n, prev))[i], prev.dynamicVlan)
  {
    hide Drop, OwnedSet, RestoreDyn;
  }

  lemma {:induction false} EmptyKeeps(base: Base, d: Desired, detected: string, prev: Option<Conversion>, r: Planned)
    requires d.vlans == [] && BuildOn(base, d, detected, prev) == Ok(r)
    ensures r.w == base.w && r.n == base.n
  {
  }

  lemma {:induction false} NetworkUnchanged(w: Config, n: Config, d: Desired, detected: string, prev: Ledger, r: Planned, i: nat)
    requires Plan(w, n, d, detected, prev) == Ok(r) && i < |r.n|
    requires r.n[i].anonymous || r.n[i].name !in OwnedNames(r)
    ensures exists s | s in n :: SameExcept(s, r.n[i], "device")
    ensures !MovesBack(prev, r.n[i].name) && !MovesNow(r, r.n[i].name) ==> r.n[i] in n
  {
    Frame(w, n, d, detected, prev, r);
    var owned := Removed(w, n, prev);
    DropLeaves(n, owned);
    hide Drop, OwnedSet, Removed, Plan, WirelessFramed, MovesBack, MovesNow;
    var stays := Drop(n, owned);
    assert i < |stays| && stays[i] in n && SameExcept(stays[i], r.n[i], "device");
    assert stays[i].name == r.n[i].name;
  }

  /** While a window is open, whatever the view does not list is the owner's: a section of
      the files as the window's apply found them, unchanged (an interface that a recorded
      conversion moves or moves back has another device, and nothing else another). */
  lemma {:induction false} UnlistedIsForeign(w: Config, n: Config, d: Desired, detected: string, r: Planned, st: Stored)
    requires st.pending.Some? && st.pending.value.ledger == r.ledger
    requires Plan(w, n, d, detected, st.ledger) == Ok(r) && WellNamed(w) && WellNamed(n) && WellFormed(st.ledger, w, n)
    ensures var v := View(st, Parsed(r.w), Parsed(r.n));
            (forall i | 0 <= i < |r.w| && (r.w[i].anonymous || r.w[i].name !in v.sections) && r.w[i].name !in v.dynamicVlan ::
               r.w[i] in w) &&
            (forall i | 0 <= i < |r.n| && (r.n[i].anonymous || r.n[i].name !in v.sections) ::
               (exists s | s in n :: SameExcept(s, r.n[i], "device")) &&
               (!MovesBack(st.ledger, r.n[i].name) && !MovesNow(r, r.n[i].name) ==> r.n[i] in n))
  {
    var v := View(st, Parsed(r.w), Parsed(r.n));
    Frame(w, n, d, detected, st.ledger, r);
    ViewOfWindow(st, Parsed(r.w), Parsed(r.n));
    assert forall x | x in OwnedNames(r) :: x in v.sections;
    hide View, Plan, SameExcept, WellNamed, WellFormed, WirelessFramed, NetworkFramed, OwnedSet, OwnedNames, MovesBack, MovesNow;
    forall i: nat | i < |r.w| && (r.w[i].anonymous || r.w[i].name !in v.sections) && r.w[i].name !in v.dynamicVlan
      ensures r.w[i] in w
    {
      WirelessUnchanged(w, n, d, detected, st.ledger, r, i);
    }
    forall i: nat | i < |r.n| && (r.n[i].anonymous || r.n[i].name !in v.sections)
      ensures exists s | s in n :: SameExcept(s, r.n[i], "device")
      ensures !MovesBack(st.ledger, r.n[i].name) && !MovesNow(r, r.n[i].name) ==> r.n[i] in n
    {
      NetworkUnchanged(w, n, d, detected, st.ledger, r, i);
    }
  }

  /** And nothing the plan created is missing from it. */
  lemma {:induction false} CreatedIsListed(w: Config, n: Config, d: Desired, detected: string, r: Planned, st: Stored, name: string)
    requires st.pending.Some? && st.pending.value.ledger == r.ledger && Plan(w, n, d, detected, st.ledger) == Ok(r)
    requires name in OwnedNames(r)
    ensures name in View(st, Parsed(r.w), Parsed(r.n)).sections
  {
    Frame(w, n, d, detected, st.ledger, r);
    ViewOfWindow(st, Parsed(r.w), Parsed(r.n));
    hide View, Plan, WirelessFramed, NetworkFramed;
  }
}
