/** The locator itself, on the files of /sys/class/leds and its state file. */
module Locator {
  import opened Wrappers
  import opened Text
  import opened SortedKeys
  import opened Leds

  /** The files; `log` is every write since `boot`, so each point of it is a point where the
      process can die. */
  class Sysfs {
    const kernel: Kernel
    var leds: map<string, Led>
    var file: StateFile
    ghost const boot: World
    ghost var log: seq<Write>

    ghost function Now(): World reads this { World(leds, file) }

    ghost predicate Valid() reads this { Now() == AllWritten(kernel, boot, log) }

    constructor (kernel: Kernel, leds: map<string, Led>, file: StateFile)
      ensures Valid() && Now() == World(leds, file) && log == [] && this.kernel == kernel
    {
      this.kernel, this.leds, this.file, boot, log := kernel, leds, file, World(leds, file), [];
    }

    /** What one write leaves. */
    twostate predicate Did(x: Write) reads this {
      Valid() && log == old(log) + [x] && Now() == Written(kernel, old(Now()), x) && SameTakes(old(leds), leds)
    }

    method WriteTrigger(led: string, trigger: string) returns (ok: bool)
      requires Valid()
      modifies this
      ensures Did(Trigger(led, trigger))
      ensures ok == (led in old(leds) && (trigger == TIMER ==> Takes(old(leds), led)))
    {
      Logged(kernel, boot, log, Trigger(led, trigger));
      ok := led in leds && (trigger == TIMER ==> leds[led].takesTimer);
      if led in leds {
        leds := leds[led := Triggered(kernel, leds[led], trigger)];
      }
      log := log + [Trigger(led, trigger)];
    }

    method WriteAttr(led: string, attr: string, value: string)
      requires Valid()
      modifies this
      ensures Did(Attr(led, attr, value))
    {
      Logged(kernel, boot, log, Attr(led, attr, value));
      if led in leds {
        leds := leds[led := AttrWritten(kernel, leds[led], attr, value)];
      }
      log := log + [Attr(led, attr, value)];
    }

    method WriteBrightness(led: string, value: string)
      requires Valid()
      modifies this
      ensures Did(Brightness(led, value))
    {
      Logged(kernel, boot, log, Brightness(led, value));
      if led in leds {
        leds := leds[led := leds[led].(brightness := value)];
      }
      log := log + [Brightness(led, value)];
    }

    /** os.WriteFile: the file is emptied first. */
    method WriteState(states: seq<LedState>, room: bool) returns (ok: bool)
      requires Valid()
      modifies this
      ensures Valid() && leds == old(leds) && ok == room
      ensures log == old(log) + if room then [Tear, Save(states)] else [Tear]
      ensures file == if room then Saved(states) else Torn
    {
      Logged(kernel, boot, log, Tear);
      file := Torn;
      log := log + [Tear];
      ok := room;
      if room {
        Logged(kernel, boot, log, Save(states));
        file := Saved(states);
        log := log + [Save(states)];
      }
    }

    method RemoveState()
      requires Valid()
      modifies this
      ensures Did(Remove)
    {
      Logged(kernel, boot, log, Remove);
      file := Missing;
      log := log + [Remove];
    }
  }

  lemma {:induction false} Logged(k: Kernel, boot: World, log: seq<Write>, x: Write)
    ensures AllWritten(k, boot, log + [x]) == Written(k, AllWritten(k, boot, log), x)
  {
    WrittenAppend(k, boot, log, [x]);
    OneWritten(k, AllWritten(k, boot, log), x);
  }

  ghost predicate SameTakes(was: map<string, Led>, leds: map<string, Led>) {
    leds.Keys == was.Keys && forall n | n in was :: leds[n].takesTimer == was[n].takesTimer
  }

  /** sort.Slice's order: device_name before everything else. */
  predicate DeviceFirstLeq(a: string, b: string) { a == DEVICE || (b != DEVICE && StringLeq(a, b)) }

  lemma {:induction false} DeviceFirstTotal()
    ensures TotalOrder(DeviceFirstLeq)
  {
    StringLeqTotal();
  }

  lemma {:induction false} RestSorted(rest: seq<string>)
    requires SortedBy(StringLeq, rest) && DEVICE !in rest
    ensures SortedBy(DeviceFirstLeq, rest) && SortedBy(DeviceFirstLeq, [DEVICE] + rest)
  {
    hide StringLeq;
    var all := [DEVICE] + rest;
    forall i, j | 0 <= i < j < |all| ensures DeviceFirstLeq(all[i], all[j]) {
      assert all[j] == rest[j - 1] && rest[j - 1] in rest;
      if i > 0 {
        assert all[i] == rest[i - 1];
      }
    }
    forall i, j | 0 <= i < j < |rest| ensures DeviceFirstLeq(rest[i], rest[j]) {
      assert rest[j] in rest;
    }
  }

  lemma {:induction false} OrderIsSorted(attrs: set<string>)
    ensures SortedBy(DeviceFirstLeq, AttrOrder(attrs)) && multiset(AttrOrder(attrs)) == multiset(attrs)
  {
    var rest := Keys(attrs - {DEVICE});
    RestSorted(rest);
    hide StringLeq, DeviceFirstLeq, SortedBy;
    if DEVICE in attrs {
      assert multiset(attrs) == multiset{DEVICE} + multiset(attrs - {DEVICE});
    } else {
      assert attrs - {DEVICE} == attrs;
    }
  }

  method CollectAttrs(attrs: set<string>) returns (names: seq<string>)
    ensures names == AttrOrder(attrs)
  {
    names := Collect(attrs);
    DeviceFirstTotal();
    SortSorts(DeviceFirstLeq, names);
    names := Sort(DeviceFirstLeq, names);
    OrderIsSorted(attrs);
    hide AttrOrder, Sort;
    SortedUnique(DeviceFirstLeq, names, AttrOrder(attrs));
  }

  datatype StartError = NoLeds | NotSaved

  datatype RecoverError = NotReadable | NotStates

  class Locator {
    const dev: Sysfs
    var saved: seq<LedState>
    var timer: Option<nat>
    var active: bool
    var gen: nat

    ghost function Mem(): Proc reads this { Proc(saved, active, gen, timer) }

    constructor (dev: Sysfs)
      ensures this.dev == dev && Mem() == IDLE
    {
      this.dev, saved, timer, active, gen := dev, [], None, false, 0;
    }

    /** The device did these writes. */
    twostate predicate Wrote(xs: seq<Write>) reads this, dev {
      dev.Valid() && dev.log == old(dev.log) + xs && SameTakes(old(dev.leds), dev.leds)
    }

    method ReadLeds() returns (states: seq<LedState>)
      ensures states == Snapshot(dev.leds)
    {
      states := [];
      var names := Collect(dev.leds.Keys);
      assert names[0..] == names;
      for i := 0 to |names|
        invariant states + SnapFrom(dev.leds, names[i..]) == SnapFrom(dev.leds, names)
      {
        assert names[i..][1..] == names[i + 1..];
        if names[i] in dev.leds {
          states := states + [Snap(names[i], dev.leds[names[i]])];
        }
      }
    }

    method RestoreAttrs(s: LedState)
      requires dev.Valid()
      modifies dev
      ensures Wrote(AttrWrites(s, AttrOrder(s.attrs.Keys)))
    {
      hide AllWritten, Written, AttrOrder;
      var names := CollectAttrs(s.attrs.Keys);
      ghost var before, goal := dev.log, AttrWrites(s, names);
      ghost var done: seq<Write> := [];
      assert names[0..] == names && [] + goal == goal;
      hide AttrWrites;
      for i := 0 to |names|
        invariant dev.Valid() && SameTakes(old(dev.leds), dev.leds)
        invariant dev.log == before + done && done + AttrWrites(s, names[i..]) == goal
      {
        AttrStep(s, names, i);
        ghost var x := Attr(s.name, names[i], if names[i] in s.attrs then s.attrs[names[i]] else "");
        dev.WriteAttr(s.name, names[i], if names[i] in s.attrs then s.attrs[names[i]] else "");
        Advance(before, done, [x], AttrWrites(s, names[i + 1..]));
        done := done + [x];
      }
      AttrEnd(s, names[|names|..]);
      assert done + [] == done;
    }

    method RestoreOne(s: LedState)
      requires dev.Valid()
      modifies dev
      ensures Wrote(Restore(s))
    {
      hide AllWritten, Written, AttrOrder, AttrWrites;
      var _ := dev.WriteTrigger(s.name, s.trigger);
      RestoreAttrs(s);
      if s.trigger == TRIGGER_NONE && s.brightness != "" {
        dev.WriteBrightness(s.name, s.brightness);
      }
    }

    method BlinkOne(s: LedState) returns (ok: bool)
      requires dev.Valid()
      modifies dev
      ensures ok == Takes(old(dev.leds), s.name)
      ensures Wrote(if ok then Blink(old(dev.leds), s) else [Trigger(s.name, TIMER)])
    {
      hide AllWritten, Written, Restore;
      ok := dev.WriteTrigger(s.name, TIMER);
      if !ok {
        return;
      }
      dev.WriteAttr(s.name, "delay_on", BLINK_MS);
      dev.WriteAttr(s.name, "delay_off", BLINK_MS);
    }

    method RestoreStates(states: seq<LedState>)
      requires dev.Valid()
      modifies dev
      ensures Wrote(RestoreAll(states))
    {
      ghost var before := dev.log;
      assert states[0..] == states;
      ghost var done: seq<Write> := [];
      hide Restore, RestoreAll, AllWritten;
      for i := 0 to |states|
        invariant dev.Valid() && SameTakes(old(dev.leds), dev.leds)
        invariant dev.log == before + done && done + RestoreAll(states[i..]) == RestoreAll(states)
      {
        AllSteps(dev.leds, states, i);
        RestoreOne(states[i]);
        Advance(before, done, Restore(states[i]), RestoreAll(states[i + 1..]));
        done := done + Restore(states[i]);
      }
      NoSteps(dev.leds, states[|states|..]);
      assert done + [] == done;
    }

    /** One LED of a Start. */
    method BlinkOrRestore(s: LedState) returns (ok: bool)
      requires dev.Valid()
      modifies dev
      ensures ok == Takes(old(dev.leds), s.name) && Wrote(Blink(old(dev.leds), s))
    {
      hide Restore, AllWritten;
      ok := BlinkOne(s);
      if !ok {
        RestoreOne(s);
      }
    }

    method BlinkStates(states: seq<LedState>) returns (blinking: seq<LedState>)
      requires dev.Valid()
      modifies dev
      ensures Wrote(BlinkAll(old(dev.leds), states))
      ensures |blinking| == BlinkingCount(old(dev.leds), states)
    {
      blinking := [];
      ghost var before, leds := dev.log, dev.leds;
      assert states[0..] == states;
      ghost var done: seq<Write> := [];
      assert [] + BlinkAll(leds, states) == BlinkAll(leds, states);
      hide Blink, BlinkAll, AllWritten, Takes, BlinkingCount;
      for i := 0 to |states|
        invariant dev.Valid() && SameTakes(leds, dev.leds)
        invariant dev.log == before + done && done + BlinkAll(leds, states[i..]) == BlinkAll(leds, states)
        invariant |blinking| + BlinkingCount(leds, states[i..]) == BlinkingCount(leds, states)
      {
        AllSteps(leds, states, i);
        CountStep(leds, states, i);
        SameBlink(leds, dev.leds, states[i]);
        var ok := BlinkOrRestore(states[i]);
        if ok {
          blinking := blinking + [states[i]];
        }
        Advance(before, done, Blink(leds, states[i]), BlinkAll(leds, states[i + 1..]));
        done := done + Blink(leds, states[i]);
      }
      NoSteps(leds, states[|states|..]);
      assert done + [] == done;
    }

    /** The part of Start that an active blink skips. */
    method BlinkFromIdle(room: bool) returns (err: Option<StartError>)
      requires dev.Valid() && !active
      modifies this, dev
      ensures gen == old(gen) && timer == old(timer)
      ensures err.Some? ==> saved == old(saved) && !active
      ensures err == if |old(dev.leds)| == 0 then Some(NoLeds) else if !room then Some(NotSaved)
                     else if SomeTakes(old(dev.leds), Snapshot(old(dev.leds))) then None else Some(NoLeds)
      ensures Wrote(if |old(dev.leds)| != 0 && !room then [Tear] else StartWrites(old(dev.Now()), old(Mem())))
      ensures err == None ==> active && saved == Snapshot(old(dev.leds))
    {
      hide BlinkAll, SomeTakes, Snapshot, AllWritten, Written, Takes, BlinkingCount;
      assert |dev.leds| != 0 && room ==>
             StartWrites(dev.Now(), Mem()) ==
             [Tear, Save(Snapshot(dev.leds))] + BlinkAll(dev.leds, Snapshot(dev.leds))
             + (if SomeTakes(dev.leds, Snapshot(dev.leds)) then [] else [Remove]);
      assert |dev.leds| == 0 ==> StartWrites(dev.Now(), Mem()) == [];
      hide StartWrites;
      var states := ReadLeds();
      NothingToRead(dev.leds);
      if states == [] {
        return Some(NoLeds);
      }
      var kept := dev.WriteState(states, room);
      if !kept {
        return Some(NotSaved);
      }
      var blinking := BlinkStates(states);
      CountsSome(old(dev.leds), states);
      if blinking == [] {
        dev.RemoveState();
        return Some(NoLeds);
      }
      saved := states;
      active := true;
      return None;
    }

    /** `room`: the state file can be written. */
    method Start(room: bool) returns (res: Result<nat, StartError>)
      requires dev.Valid()
      modifies this, dev
      ensures !old(active) && !room && |old(dev.leds)| != 0 ==>
                res == Err(NotSaved) && Mem() == old(Mem()) && Wrote([Tear])
      ensures old(active) || room || |old(dev.leds)| == 0 ==>
                Wrote(StartWrites(old(dev.Now()), old(Mem()))) && Mem() == Started(old(dev.Now()), old(Mem())) &&
                res == if Starts(old(dev.Now()), old(Mem())) then Ok(|saved|) else Err(NoLeds)
    {
      hide BlinkAll, SomeTakes, Snapshot, AllWritten, Written, Takes;
      if !active {
        var err := BlinkFromIdle(room);
        if err.Some? {
          return Err(err.value);
        }
      }
      gen := gen + 1;
      timer := Some(gen);
      return Ok(|saved|);
    }

    method Stop()
      requires dev.Valid()
      modifies this, dev
      ensures Wrote(FinishWrites(old(Mem()), old(gen))) && Mem() == Finished(old(Mem()), old(gen))
    {
      End(gen);
    }

    /** A timer of the blink numbered `g`, or a Stop that read that number. */
    method End(g: nat)
      requires dev.Valid()
      modifies this, dev
      ensures Wrote(FinishWrites(old(Mem()), g)) && Mem() == Finished(old(Mem()), g)
    {
      hide AllWritten, Written, RestoreAll;
      if !active || g != gen {
        return;
      }
      timer := None;
      RestoreStates(saved);
      saved := [];
      active := false;
      dev.RemoveState();
    }

    /** `readable`: a state file that exists can be read. */
    method RecoverStale(readable: bool) returns (restored: Result<bool, RecoverError>)
      requires dev.Valid()
      modifies dev
      ensures Wrote(if readable then RecoverWrites(old(dev.Now())) else [])
      ensures restored == match old(dev.file)
                          case Missing => Ok(false)
                          case Torn => Err(if readable then NotStates else NotReadable)
                          case Saved(_) => if readable then Ok(true) else Err(NotReadable)
    {
      hide AllWritten, Written, RestoreAll;
      if dev.file.Missing? {
        return Ok(false);
      }
      if !readable {
        return Err(NotReadable);
      }
      match dev.file {
        case Torn =>
          dev.RemoveState();
          return Err(NotStates);
        case Saved(states) =>
          RestoreStates(states);
          dev.RemoveState();
          return Ok(true);
      }
    }
  }

  lemma {:induction false} SameBlink(was: map<string, Led>, leds: map<string, Led>, s: LedState)
    requires SameTakes(was, leds)
    ensures Takes(leds, s.name) == Takes(was, s.name) && Blink(leds, s) == Blink(was, s)
  {
  }

  lemma {:induction false} AttrStep(s: LedState, names: seq<string>, i: nat)
    requires i < |names|
    ensures AttrWrites(s, names[i..]) ==
            [Attr(s.name, names[i], if names[i] in s.attrs then s.attrs[names[i]] else "")] + AttrWrites(s, names[i + 1..])
  {
    assert names[i..][1..] == names[i + 1..];
  }

  lemma {:induction false} AttrEnd(s: LedState, names: seq<string>)
    requires names == []
    ensures AttrWrites(s, names) == []
  {
  }

  lemma {:induction false} CountStep(leds: map<string, Led>, states: seq<LedState>, i: nat)
    requires i < |states|
    ensures BlinkingCount(leds, states[i..]) ==
            (if Takes(leds, states[i].name) then 1 else 0) + BlinkingCount(leds, states[i + 1..])
  {
    assert states[i..][1..] == states[i + 1..];
  }

  lemma {:induction false} CountsSome(leds: map<string, Led>, states: seq<LedState>)
    ensures BlinkingCount(leds, states) > 0 <==> SomeTakes(leds, states)
  {
    if states != [] {
      hide Takes;
      var rest := states[1..];
      CountsSome(leds, rest);
      assert forall i | 0 <= i < |rest| :: rest[i] == states[i + 1];
      assert forall i | 1 <= i < |states| :: states[i] == rest[i - 1];
    }
  }

  lemma {:induction false} AllSteps(leds: map<string, Led>, states: seq<LedState>, i: nat)
    requires i < |states|
    ensures RestoreAll(states[i..]) == Restore(states[i]) + RestoreAll(states[i + 1..])
    ensures BlinkAll(leds, states[i..]) == Blink(leds, states[i]) + BlinkAll(leds, states[i + 1..])
  {
    assert states[i..][1..] == states[i + 1..];
  }

  lemma {:induction false} Advance(before: seq<Write>, done: seq<Write>, xs: seq<Write>, rest: seq<Write>)
    ensures before + done + xs == before + (done + xs)
    ensures done + xs + rest == done + (xs + rest)
  {
  }

  lemma {:induction false} NoSteps(leds: map<string, Led>, states: seq<LedState>)
    requires states == []
    ensures RestoreAll(states) == [] && BlinkAll(leds, states) == [] && BlinkingCount(leds, states) == 0
  {
  }

  lemma {:induction false} NothingToRead(leds: map<string, Led>)
    ensures Snapshot(leds) == [] <==> |leds| == 0
  {
    var names := Keys(leds.Keys);
    assert |leds.Keys| == |leds|;
    assert |leds| != 0 ==> exists n :: n in leds.Keys && n in names;
    assert names != [] ==> names[0] in leds;
    assert |leds| == 0 <==> names == [] by {
      ListedMembers(names, leds.Keys);
      assert |multiset(names)| == |multiset(leds.Keys)|;
    }
  }
}
