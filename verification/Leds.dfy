/** The LED locator: blink every LED, then put each back as it was, whatever dies when.
    Every operation is a list of writes; a process that dies leaves the first few done. */
module Leds {
  import opened Wrappers
  import opened Text
  import opened SortedKeys

  // ---- the LEDs and the state file ----

  /** What the kernel does: the settings a trigger starts with, and what setting a netdev
      trigger's device makes of the other settings. */
  datatype Kernel = Kernel(defaults: string -> map<string, string>, renamed: (string, string) -> string)

  /** `takesTimer`: the LED accepts the timer trigger. */
  datatype Led = Led(trigger: string, attrs: map<string, string>, brightness: string, takesTimer: bool)

  datatype LedState = LedState(name: string, trigger: string, brightness: string, attrs: map<string, string>)

  datatype StateFile = Missing | Torn | Saved(states: seq<LedState>)

  datatype World = World(leds: map<string, Led>, file: StateFile)

  const TRIGGER_NONE := "none"
  const TIMER := "timer"
  const DEVICE := "device_name"
  const BLINK_MS := "200"

  datatype Write =
    | Trigger(led: string, trigger: string)
    | Attr(led: string, attr: string, value: string)
    | Brightness(led: string, value: string)
    | Tear
    | Save(states: seq<LedState>)
    | Remove

  /** A new trigger comes with its own settings, and the LED is off until it acts. */
  function Triggered(k: Kernel, led: Led, trigger: string): Led {
    if trigger == TIMER && !led.takesTimer then led else led.(trigger := trigger, attrs := k.defaults(trigger), brightness := "0")
  }

  function AttrWritten(k: Kernel, led: Led, attr: string, value: string): Led {
    if attr !in led.attrs then led
    else if attr == "device_name" then led.(attrs := map a | a in led.attrs :: if a == "device_name" then value else k.renamed(a, value))
    else led.(attrs := led.attrs[attr := value])
  }

  function LedWritten(k: Kernel, led: Led, x: Write): Led {
    match x
    case Trigger(_, t) => Triggered(k, led, t)
    case Attr(_, a, v) => AttrWritten(k, led, a, v)
    case Brightness(_, v) => led.(brightness := v)
    case _ => led
  }

  predicate OnLed(x: Write) { x.Trigger? || x.Attr? || x.Brightness? }

  function Written(k: Kernel, w: World, x: Write): World {
    match x
    case Tear => w.(file := Torn)
    case Save(states) => w.(file := Saved(states))
    case Remove => w.(file := Missing)
    case _ => if x.led in w.leds then w.(leds := w.leds[x.led := LedWritten(k, w.leds[x.led], x)]) else w
  }

  function AllWritten(k: Kernel, w: World, xs: seq<Write>): World
    decreases |xs|
  {
    if xs == [] then w else AllWritten(k, Written(k, w, xs[0]), xs[1..])
  }

  // ---- the operations as writes ----

  function Snap(name: string, led: Led): LedState { LedState(name, led.trigger, led.brightness, led.attrs) }

  function SnapFrom(leds: map<string, Led>, names: seq<string>): seq<LedState> {
    if names == [] then []
    else (if names[0] in leds then [Snap(names[0], leds[names[0]])] else []) + SnapFrom(leds, names[1..])
  }

  ghost function Snapshot(leds: map<string, Led>): seq<LedState> { SnapFrom(leds, Keys(leds.Keys)) }

  /** The device's name first, then the other settings in order. */
  ghost function AttrOrder(attrs: set<string>): seq<string> {
    if DEVICE in attrs then [DEVICE] + Keys(attrs - {DEVICE}) else Keys(attrs)
  }

  function AttrWrites(s: LedState, names: seq<string>): seq<Write> {
    if names == [] then []
    else [Attr(s.name, names[0], if names[0] in s.attrs then s.attrs[names[0]] else "")] + AttrWrites(s, names[1..])
  }

  ghost function Restore(s: LedState): seq<Write> {
    [Trigger(s.name, s.trigger)] + AttrWrites(s, AttrOrder(s.attrs.Keys))
    + (if s.trigger == TRIGGER_NONE && s.brightness != "" then [Brightness(s.name, s.brightness)] else [])
  }

  ghost function RestoreAll(states: seq<LedState>): seq<Write> {
    if states == [] then [] else Restore(states[0]) + RestoreAll(states[1..])
  }

  predicate Takes(leds: map<string, Led>, name: string) { name in leds && leds[name].takesTimer }

  /** An LED that refuses the timer is written back as it was. */
  ghost function Blink(leds: map<string, Led>, s: LedState): seq<Write> {
    [Trigger(s.name, TIMER)] +
    if Takes(leds, s.name) then [Attr(s.name, "delay_on", BLINK_MS), Attr(s.name, "delay_off", BLINK_MS)] else Restore(s)
  }

  ghost function BlinkAll(leds: map<string, Led>, states: seq<LedState>): seq<Write> {
    if states == [] then [] else Blink(leds, states[0]) + BlinkAll(leds, states[1..])
  }

  predicate SomeTakes(leds: map<string, Led>, states: seq<LedState>) {
    exists i | 0 <= i < |states| :: Takes(leds, states[i].name)
  }

  /** How many of the states are of LEDs that take the timer. */
  function BlinkingCount(leds: map<string, Led>, states: seq<LedState>): nat {
    if states == [] then 0 else (if Takes(leds, states[0].name) then 1 else 0) + BlinkingCount(leds, states[1..])
  }

  lemma {:induction false} AtMostAllBlink(leds: map<string, Led>, states: seq<LedState>)
    ensures BlinkingCount(leds, states) <= |states|
  {
    if states != [] { AtMostAllBlink(leds, states[1..]); }
  }

  /** Start answers |states|: the number of blinking LEDs if and only if every saved LED takes
      the timer. */
  lemma {:induction false} AnswerExactly(leds: map<string, Led>, states: seq<LedState>)
    ensures BlinkingCount(leds, states) == |states| <==> forall i | 0 <= i < |states| :: Takes(leds, states[i].name)
  {
    if states != [] {
      hide Takes;
      var rest := states[1..];
      AtMostAllBlink(leds, rest);
      AnswerExactly(leds, rest);
      assert forall i | 0 <= i < |rest| :: rest[i] == states[i + 1];
      assert forall i | 1 <= i < |states| :: states[i] == rest[i - 1];
    }
  }

  /** The locator: `timer` is the blink whose timer is armed. */
  datatype Proc = Proc(saved: seq<LedState>, active: bool, gen: nat, timer: Option<nat>)

  const IDLE := Proc([], false, 0, None)

  ghost function StartWrites(w: World, p: Proc): seq<Write> {
    if p.active || |w.leds| == 0 then []
    else
      var states := Snapshot(w.leds);
      [Tear, Save(states)] + BlinkAll(w.leds, states) + (if SomeTakes(w.leds, states) then [] else [Remove])
  }

  ghost predicate Starts(w: World, p: Proc) {
    p.active || (|w.leds| != 0 && SomeTakes(w.leds, Snapshot(w.leds)))
  }

  ghost function Started(w: World, p: Proc): Proc {
    if !Starts(w, p) then p
    else Proc(if p.active then p.saved else Snapshot(w.leds), true, p.gen + 1, Some(p.gen + 1))
  }

  predicate Ends(p: Proc, gen: nat) { p.active && gen == p.gen }

  ghost function FinishWrites(p: Proc, gen: nat): seq<Write> {
    if Ends(p, gen) then RestoreAll(p.saved) + [Remove] else []
  }

  function Finished(p: Proc, gen: nat): Proc {
    if Ends(p, gen) then Proc([], false, p.gen, None) else p
  }

  ghost function RecoverWrites(w: World): seq<Write> {
    match w.file
    case Missing => []
    case Torn => [Remove]
    case Saved(states) => RestoreAll(states) + [Remove]
  }

  // ---- what it is to be back ----

  /** The same trigger and settings; without a trigger, the same brightness. */
  predicate SameLed(a: Led, b: Led) {
    a.trigger == b.trigger && a.attrs == b.attrs && (a.trigger == "none" ==> a.brightness == b.brightness)
  }

  predicate Back(leds: map<string, Led>, home: map<string, Led>) {
    leds.Keys == home.Keys && forall n | n in home :: SameLed(leds[n], home[n])
  }

  /** An LED whose settings are those its trigger has, and that was not put on a timer it
      refuses. */
  predicate Proper(k: Kernel, led: Led) {
    led.attrs.Keys == k.defaults(led.trigger).Keys && led.brightness != "" && (led.trigger == TIMER ==> led.takesTimer)
  }

  /** The device's LEDs, whatever they show. */
  predicate SameDevice(k: Kernel, leds: map<string, Led>, home: map<string, Led>) {
    leds.Keys == home.Keys && forall n | n in home :: Proper(k, leds[n]) && leds[n].takesTimer == home[n].takesTimer
  }

  predicate AllProper(k: Kernel, home: map<string, Led>) { forall n | n in home :: Proper(k, home[n]) }

  predicate Recalled(s: LedState, home: map<string, Led>) { s.name in home && Recalls(s, home[s.name]) }

  predicate AllRecalled(states: seq<LedState>, home: map<string, Led>) {
    forall i | 0 <= i < |states| :: Recalled(states[i], home)
  }

  lemma {:induction false} RecalledTail(states: seq<LedState>, home: map<string, Led>)
    requires AllRecalled(states, home) && states != []
    ensures Recalled(states[0], home) && AllRecalled(states[1..], home)
  {
    hide Recalled;
    assert forall i | 0 <= i < |states[1..]| :: states[1..][i] == states[i + 1];
  }

  /** The states hold each LED of `home`, once, as it was. */
  predicate Describes(states: seq<LedState>, home: map<string, Led>) {
    AllRecalled(states, home) &&
    (forall n | n in home :: Holds(states, n))
  }

  predicate Recalls(s: LedState, led: Led) {
    s.trigger == led.trigger && s.attrs == led.attrs && (led.trigger == TRIGGER_NONE ==> s.brightness == led.brightness)
  }

  predicate Holds(states: seq<LedState>, name: string) { exists i | 0 <= i < |states| :: states[i].name == name }

  // ---- writes in general ----

  lemma {:induction false} WrittenAppend(k: Kernel, w: World, a: seq<Write>, b: seq<Write>)
    ensures AllWritten(k, w, a + b) == AllWritten(k, AllWritten(k, w, a), b)
    decreases |a|
  {
    if a == [] {
      assert a + b == b;
    } else {
      WrittenAppend(k, Written(k, w, a[0]), a[1..], b);
      assert (a + b)[1..] == a[1..] + b;
    }
  }

  lemma {:induction false} OneWritten(k: Kernel, w: World, x: Write)
    ensures AllWritten(k, w, [x]) == Written(k, w, x)
  {
    assert [x][1..] == [];
  }

  /** Writes to one LED. */
  function LedAfter(k: Kernel, led: Led, xs: seq<Write>): Led
    decreases |xs|
  {
    if xs == [] then led else LedAfter(k, LedWritten(k, led, xs[0]), xs[1..])
  }

  predicate AllOn(xs: seq<Write>, name: string) {
    forall i | 0 <= i < |xs| :: OnLed(xs[i]) && xs[i].led == name
  }

  lemma {:induction false} WritesToOne(k: Kernel, w: World, xs: seq<Write>, name: string)
    requires AllOn(xs, name) && name in w.leds
    ensures AllWritten(k, w, xs) == w.(leds := w.leds[name := LedAfter(k, w.leds[name], xs)])
    decreases |xs|
  {
    if xs != [] {
      hide LedWritten;
      assert OnLed(xs[0]) && xs[0].led == name;
      assert forall i | 0 <= i < |xs[1..]| :: xs[1..][i] == xs[i + 1];
      WritesToOne(k, Written(k, w, xs[0]), xs[1..], name);
    } else {
      assert w.leds[name := w.leds[name]] == w.leds;
    }
  }

  lemma {:induction false} LedAfterAppend(k: Kernel, led: Led, a: seq<Write>, b: seq<Write>)
    ensures LedAfter(k, led, a + b) == LedAfter(k, LedAfter(k, led, a), b)
    decreases |a|
  {
    if a == [] {
      assert a + b == b;
    } else {
      hide LedWritten;
      LedAfterAppend(k, LedWritten(k, led, a[0]), a[1..], b);
      assert (a + b)[1..] == a[1..] + b;
    }
  }

  // ---- restoring one LED ----

  lemma {:induction false} AttrWritesOn(s: LedState, names: seq<string>)
    ensures AllOn(AttrWrites(s, names), s.name)
    ensures forall i | 0 <= i < |AttrWrites(s, names)| :: AttrWrites(s, names)[i].Attr?
  {
    if names != [] {
      AttrWritesOn(s, names[1..]);
    }
  }

  /** Settings written after the device's name stay as written. */
  lemma {:induction false} OthersRestored(k: Kernel, led: Led, s: LedState, names: seq<string>)
    requires DEVICE !in names && (forall n | n in names :: n in s.attrs) && led.attrs.Keys == s.attrs.Keys
    ensures var led' := LedAfter(k, led, AttrWrites(s, names));
            led'.trigger == led.trigger && led'.takesTimer == led.takesTimer && led'.brightness == led.brightness &&
            led'.attrs.Keys == s.attrs.Keys &&
            forall a | a in s.attrs :: led'.attrs[a] == if a in names then s.attrs[a] else led.attrs[a]
    decreases |names|
  {
    if names != [] {
      var led1 := AttrWritten(k, led, names[0], s.attrs[names[0]]);
      OthersRestored(k, led1, s, names[1..]);
      var xs := AttrWrites(s, names);
      assert xs[1..] == AttrWrites(s, names[1..]) && LedWritten(k, led, xs[0]) == led1;
      assert forall a :: a in names <==> a == names[0] || a in names[1..];
    }
  }

  lemma {:induction false} RestRestored(k: Kernel, led: Led, s: LedState, names: seq<string>)
    requires DEVICE !in names && (forall n | n in names :: n in s.attrs) && led.attrs.Keys == s.attrs.Keys
    requires forall a | a in s.attrs && a !in names :: led.attrs[a] == s.attrs[a]
    ensures LedAfter(k, led, AttrWrites(s, names)) == led.(attrs := s.attrs)
  {
    OthersRestored(k, led, s, names);
    hide LedAfter;
    assert LedAfter(k, led, AttrWrites(s, names)).attrs == s.attrs;
  }

  /** Writing the settings in order, from whatever the trigger set, gives the saved ones. */
  lemma {:induction false} AttrsRestored(k: Kernel, led: Led, s: LedState)
    requires led.attrs.Keys == s.attrs.Keys
    ensures LedAfter(k, led, AttrWrites(s, AttrOrder(s.attrs.Keys))) == led.(attrs := s.attrs)
  {
    var names := AttrOrder(s.attrs.Keys);
    if DEVICE in s.attrs {
      var others := Keys(s.attrs.Keys - {DEVICE});
      var led1 := AttrWritten(k, led, DEVICE, s.attrs[DEVICE]);
      RestRestored(k, led1, s, others);
      DeviceFirst(k, led, s, others);
    } else {
      RestRestored(k, led, s, names);
    }
  }

  lemma {:induction false} DeviceFirst(k: Kernel, led: Led, s: LedState, others: seq<string>)
    requires DEVICE in s.attrs
    ensures LedAfter(k, led, AttrWrites(s, [DEVICE] + others)) ==
            LedAfter(k, AttrWritten(k, led, DEVICE, s.attrs[DEVICE]), AttrWrites(s, others))
  {
    hide AttrWritten;
    assert ([DEVICE] + others)[1..] == others;
    var xs := AttrWrites(s, [DEVICE] + others);
    assert xs[1..] == AttrWrites(s, others);
  }

  lemma {:induction false} RestoreOn(s: LedState)
    ensures AllOn(Restore(s), s.name)
  {
    AttrWritesOn(s, AttrOrder(s.attrs.Keys));
    hide AttrOrder;
  }

  /** From any state of the LED. */
  lemma {:induction false} LedRestored(k: Kernel, led: Led, s: LedState, was: Led)
    requires Proper(k, was) && Recalls(s, was) && led.takesTimer == was.takesTimer
    ensures var led' := LedAfter(k, led, Restore(s));
            SameLed(led', was) && Proper(k, led') && led'.takesTimer == was.takesTimer
  {
    hide AttrOrder;
    var first, mid := [Trigger(s.name, s.trigger)], AttrWrites(s, AttrOrder(s.attrs.Keys));
    var last := if s.trigger == TRIGGER_NONE && s.brightness != "" then [Brightness(s.name, s.brightness)] else [];
    LedAfterAppend(k, led, first + mid, last);
    LedAfterAppend(k, led, first, mid);
    assert first[1..] == [];
    var led1 := Triggered(k, led, s.trigger);
    assert LedAfter(k, led, first) == led1;
    AttrsRestored(k, led1, s);
    var led2 := led1.(attrs := s.attrs);
    assert last != [] ==> last[1..] == [];
  }

  // ---- any write keeps the device ----

  lemma {:induction false} LedWrittenProper(k: Kernel, led: Led, x: Write)
    requires Proper(k, led) && (x.Brightness? ==> x.value != "")
    ensures Proper(k, LedWritten(k, led, x)) && LedWritten(k, led, x).takesTimer == led.takesTimer
  {
  }

  predicate Lights(xs: seq<Write>) { forall i | 0 <= i < |xs| :: OnLed(xs[i]) && (xs[i].Brightness? ==> xs[i].value != "") }

  /** Writes to LEDs leave the state file and the device alone, done in part or in full. */
  lemma {:induction false} LightsKeep(k: Kernel, w: World, xs: seq<Write>, home: map<string, Led>)
    requires SameDevice(k, w.leds, home) && Lights(xs)
    ensures SameDevice(k, AllWritten(k, w, xs).leds, home) && AllWritten(k, w, xs).file == w.file
    decreases |xs|
  {
    if xs != [] {
      hide Proper, LedWritten;
      var x := xs[0];
      assert OnLed(x) && (x.Brightness? ==> x.value != "");
      var w1 := Written(k, w, x);
      if x.led in w.leds {
        LedWrittenProper(k, w.leds[x.led], x);
      }
      assert SameDevice(k, w1.leds, home);
      assert forall i | 0 <= i < |xs[1..]| :: xs[1..][i] == xs[i + 1];
      LightsKeep(k, w1, xs[1..], home);
    }
  }

  lemma {:induction false} RestoreLights(s: LedState)
    ensures Lights(Restore(s))
  {
    AttrWritesOn(s, AttrOrder(s.attrs.Keys));
    hide AttrOrder;
  }

  lemma {:induction false} LightsAppend(a: seq<Write>, b: seq<Write>)
    requires Lights(a) && Lights(b)
    ensures Lights(a + b)
  {
  }

  lemma {:induction false} RestoreAllLights(states: seq<LedState>)
    ensures Lights(RestoreAll(states))
  {
    if states != [] {
      hide Restore;
      RestoreLights(states[0]);
      RestoreAllLights(states[1..]);
      LightsAppend(Restore(states[0]), RestoreAll(states[1..]));
    }
  }

  lemma {:induction false} BlinkAllLights(leds: map<string, Led>, states: seq<LedState>)
    ensures Lights(BlinkAll(leds, states))
  {
    if states != [] {
      hide Restore;
      RestoreLights(states[0]);
      BlinkAllLights(leds, states[1..]);
      hide BlinkAll;
      assert Lights([Trigger(states[0].name, TIMER)]);
      LightsAppend([Trigger(states[0].name, TIMER)], Restore(states[0]));
      LightsAppend(Blink(leds, states[0]), BlinkAll(leds, states[1..]));
    }
  }

  lemma {:induction false} LightsPart(xs: seq<Write>, n: nat)
    requires Lights(xs) && n <= |xs|
    ensures Lights(xs[..n])
  {
  }

  // ---- restoring all ----

  lemma {:induction false} OneRestored(k: Kernel, w: World, s: LedState, home: map<string, Led>)
    requires SameDevice(k, w.leds, home) && AllProper(k, home) && Recalled(s, home)
    ensures var w' := AllWritten(k, w, Restore(s));
            w'.file == w.file && SameDevice(k, w'.leds, home) && w'.leds.Keys == home.Keys && w.leds.Keys == home.Keys &&
            forall n | n in home :: (n == s.name || SameLed(w.leds[n], home[n])) ==> SameLed(w'.leds[n], home[n])
  {
    RestoreOn(s);
    WritesToOne(k, w, Restore(s), s.name);
    LedRestored(k, w.leds[s.name], s, home[s.name]);
    hide Restore, LedAfter, Proper, SameLed, Recalls;
    assert SameDevice(k, AllWritten(k, w, Restore(s)).leds, home);
  }

  /** After restoring some states, each LED they name is back; others are as they were. */
  lemma {:induction false} SomeRestored(k: Kernel, w: World, states: seq<LedState>, home: map<string, Led>)
    requires SameDevice(k, w.leds, home) && AllProper(k, home)
    requires AllRecalled(states, home)
    ensures var w' := AllWritten(k, w, RestoreAll(states));
            w'.file == w.file && SameDevice(k, w'.leds, home) &&
            forall n | n in home :: (Holds(states, n) || SameLed(w.leds[n], home[n])) ==> SameLed(w'.leds[n], home[n])
    decreases |states|
  {
    if states != [] {
      var s := states[0];
      RecalledTail(states, home);
      OneRestored(k, w, s, home);
      hide AllRecalled, AllProper, Restore, Proper, SameLed, Recalls, SameDevice;
      var w1 := AllWritten(k, w, Restore(s));
      SomeRestored(k, w1, states[1..], home);
      WrittenAppend(k, w, Restore(s), RestoreAll(states[1..]));
      hide Holds;
      forall n | n in home ensures Holds(states, n) <==> n == s.name || Holds(states[1..], n) { HoldsFirst(states, n); }
    } else {
      assert RestoreAll(states) == [];
    }
  }

  /** Restoring what describes the LEDs brings every one of them back, from any state. */
  lemma {:induction false} AllRestored(k: Kernel, w: World, states: seq<LedState>, home: map<string, Led>)
    requires SameDevice(k, w.leds, home) && AllProper(k, home) && Describes(states, home)
    ensures var w' := AllWritten(k, w, RestoreAll(states) + [Remove]);
            Back(w'.leds, home) && SameDevice(k, w'.leds, home) && w'.file == Missing
  {
    hide RestoreAll, Proper, SameLed;
    SomeRestored(k, w, states, home);
    WrittenAppend(k, w, RestoreAll(states), [Remove]);
    OneWritten(k, AllWritten(k, w, RestoreAll(states)), Remove);
  }

  /** What is read from LEDs that are back describes where they are back to. */
  lemma {:induction false} SnapDescribes(leds: map<string, Led>, home: map<string, Led>)
    requires Back(leds, home)
    ensures Describes(Snapshot(leds), home)
  {
    SnapIs(leds, Keys(leds.Keys), home);
  }

  lemma {:induction false} SnapOne(leds: map<string, Led>, name: string, home: map<string, Led>)
    requires Back(leds, home) && name in leds
    ensures name in home && Recalls(Snap(name, leds[name]), home[name])
  {
    assert SameLed(leds[name], home[name]);
  }

  lemma {:induction false} SnapIs(leds: map<string, Led>, names: seq<string>, home: map<string, Led>)
    requires Back(leds, home)
    ensures AllRecalled(SnapFrom(leds, names), home)
    ensures forall n | n in home && n in names :: Holds(SnapFrom(leds, names), n)
  {
    if names != [] {
      SnapIs(leds, names[1..], home);
      var rest := SnapFrom(leds, names[1..]);
      if names[0] in leds {
        SnapOne(leds, names[0], home);
        var s := Snap(names[0], leds[names[0]]);
        assert [s] + rest == SnapFrom(leds, names);
        hide SnapFrom, Back, Recalls, Holds, SameLed;
        OneMoreState(s, rest, home);
      } else {
        assert [] + rest == rest;
      }
    }
  }

  lemma {:induction false} OneMoreState(s: LedState, rest: seq<LedState>, home: map<string, Led>)
    requires Recalled(s, home) && AllRecalled(rest, home)
    ensures AllRecalled([s] + rest, home) && Holds([s] + rest, s.name)
    ensures forall n | Holds(rest, n) :: Holds([s] + rest, n)
  {
    hide Recalled;
    var states := [s] + rest;
    assert states[0] == s && forall i | 0 <= i < |rest| :: states[i + 1] == rest[i];
    forall n | Holds(rest, n) ensures Holds(states, n) {
      var i :| 0 <= i < |rest| && rest[i].name == n;
      assert states[i + 1].name == n;
    }
  }

  // ---- runs ----

  /** The process, when it lives, the world, and whether the process could not read the state
      file when it started. */
  datatype Sys = Sys(proc: Option<Proc>, w: World, skipped: bool)

  datatype Job = Start | Finish(gen: nat) | Recover

  /** A job done, a job that the process dies in after some writes, a Start whose state file
      could not be written, or a process that starts and cannot read the state file: it goes
      on without recovering. */
  datatype Event = Done(job: Job) | DiesIn(job: Job, after: nat) | SaveFails | SkipsRecovery

  ghost function Writes(s: Sys, job: Job): seq<Write> {
    match (job, s.proc)
    case (Start, Some(p)) => StartWrites(s.w, p)
    case (Finish(gen), Some(p)) => FinishWrites(p, gen)
    case (Recover, None) => RecoverWrites(s.w)
    case _ => []
  }

  ghost function ProcAfter(s: Sys, job: Job): Option<Proc> {
    match (job, s.proc)
    case (Start, Some(p)) => Some(Started(s.w, p))
    case (Finish(gen), Some(p)) => Some(Finished(p, gen))
    case (Recover, None) => Some(IDLE)
    case _ => s.proc
  }

  ghost function Step(k: Kernel, s: Sys, e: Event): Sys {
    match e
    case Done(job) => Sys(ProcAfter(s, job), AllWritten(k, s.w, Writes(s, job)), s.proc.Some? && s.skipped)
    case DiesIn(job, n) =>
      var xs := Writes(s, job);
      Sys(None, AllWritten(k, s.w, if n <= |xs| then xs[..n] else xs), false)
    case SaveFails =>
      if s.proc.Some? && !s.proc.value.active && |s.w.leds| != 0 then s.(w := Written(k, s.w, Tear)) else s
    case SkipsRecovery => if s.proc.None? then Sys(Some(IDLE), s.w, true) else s
  }

  ghost function Run(k: Kernel, s: Sys, events: seq<Event>): Sys
    decreases |events|
  {
    if events == [] then s else Run(k, Step(k, s, events[0]), events[1..])
  }

  /** The LEDs can be brought back: they are back and the file says nothing else, or the
      file holds them as they were. */
  predicate Recoverable(w: World, home: map<string, Led>) {
    match w.file
    case Saved(states) => Describes(states, home)
    case _ => Back(w.leds, home)
  }

  ghost predicate Inv(k: Kernel, s: Sys, home: map<string, Led>) {
    SameDevice(k, s.w.leds, home) && Recoverable(s.w, home) &&
    (s.proc.Some? ==>
       var p := s.proc.value;
       if p.active then s.w.file == Saved(p.saved) && p.timer == Some(p.gen) else (s.w.file.Saved? ==> s.skipped) && p.saved == [])
  }

  /** A Start that replaces the state file while an LED is not back: only an idle process that
      skipped its recovery can come to it. */
  predicate Overwrites(s: Sys, e: Event, home: map<string, Led>) {
    s.proc.Some? && !s.proc.value.active && !Back(s.w.leds, home) &&
    match e
    case Done(job) => job == Start
    case DiesIn(job, n) => job == Start && n > 0
    case SaveFails => true
    case SkipsRecovery => false
  }

  lemma {:induction false} SavedFirst(k: Kernel, w: World, states: seq<LedState>, ys: seq<Write>)
    ensures AllWritten(k, w, [Tear, Save(states)] + ys) == AllWritten(k, w.(file := Saved(states)), ys)
  {
    WrittenAppend(k, w, [Tear, Save(states)], ys);
    assert [Tear, Save(states)] == [Tear] + [Save(states)];
    WrittenAppend(k, w, [Tear], [Save(states)]);
    OneWritten(k, w, Tear);
    OneWritten(k, Written(k, w, Tear), Save(states));
  }

  /** The writes of a Start up to the last blink. */
  ghost function BlinkWrites(w: World): seq<Write> {
    [Tear, Save(Snapshot(w.leds))] + BlinkAll(w.leds, Snapshot(w.leds))
  }

  lemma {:induction false} StartKeeps(k: Kernel, w: World, home: map<string, Led>, n: nat)
    requires SameDevice(k, w.leds, home) && Back(w.leds, home) && Recoverable(w, home) && n <= |BlinkWrites(w)|
    ensures var w' := AllWritten(k, w, BlinkWrites(w)[..n]);
            SameDevice(k, w'.leds, home) && Recoverable(w', home) && (n >= 2 ==> w'.file == Saved(Snapshot(w.leds)))
  {
    hide Snapshot, Describes, AllWritten, SameDevice, Back, BlinkAll;
    if n >= 2 {
      SnapDescribes(w.leds, home);
      BlinkingKeeps(k, w, home, Snapshot(w.leds), n - 2);
    } else {
      assert BlinkWrites(w)[..n] == [Tear][..n];
      TornFirst(k, w, n);
    }
  }

  lemma {:induction false} BlinkingKeeps(k: Kernel, w: World, home: map<string, Led>, states: seq<LedState>, n: nat)
    requires SameDevice(k, w.leds, home) && n <= |BlinkAll(w.leds, states)|
    ensures var w' := AllWritten(k, w, ([Tear, Save(states)] + BlinkAll(w.leds, states))[..n + 2]);
            SameDevice(k, w'.leds, home) && w'.file == Saved(states)
  {
    var ys := BlinkAll(w.leds, states);
    BlinkAllLights(w.leds, states);
    LightsPart(ys, n);
    hide AllWritten, Lights, SameDevice, BlinkAll;
    LightsKeep(k, w.(file := Saved(states)), ys[..n], home);
    assert ([Tear, Save(states)] + ys)[..n + 2] == [Tear, Save(states)] + ys[..n];
    SavedFirst(k, w, states, ys[..n]);
  }

  lemma {:induction false} TornFirst(k: Kernel, w: World, n: nat)
    requires n < 2
    ensures AllWritten(k, w, [Tear][..n]) == if n == 0 then w else w.(file := Torn)
  {
    assert [Tear][..0] == [] && [Tear][..1] == [Tear];
    OneWritten(k, w, Tear);
  }

  lemma {:induction false} OneRefused(k: Kernel, w: World, s: LedState, home: map<string, Led>, leds: map<string, Led>)
    requires SameDevice(k, w.leds, home) && SameDevice(k, leds, home) && s.name in home && !Takes(leds, s.name)
    ensures AllWritten(k, w, Blink(leds, s)) == AllWritten(k, w, Restore(s))
  {
    var first := [Trigger(s.name, TIMER)];
    assert Triggered(k, w.leds[s.name], TIMER) == w.leds[s.name];
    OneWritten(k, w, first[0]);
    assert w.leds[s.name := w.leds[s.name]] == w.leds;
    assert Written(k, w, first[0]) == w;
    hide AllWritten, Restore;
    WrittenAppend(k, w, first, Restore(s));
  }

  lemma {:induction false} NoneTakes(leds: map<string, Led>, states: seq<LedState>)
    requires states != [] && !SomeTakes(leds, states)
    ensures !Takes(leds, states[0].name) && !SomeTakes(leds, states[1..])
  {
    hide Takes;
    assert forall i | 0 <= i < |states[1..]| :: states[1..][i] == states[i + 1];
  }

  /** When no LED takes the timer, Start puts them all back. */
  lemma {:induction false} RefusedAll(k: Kernel, w: World, states: seq<LedState>, home: map<string, Led>, leds: map<string, Led>)
    requires SameDevice(k, w.leds, home) && SameDevice(k, leds, home) && AllProper(k, home)
    requires AllRecalled(states, home)
    requires !SomeTakes(leds, states)
    ensures AllWritten(k, w, BlinkAll(leds, states)) == AllWritten(k, w, RestoreAll(states))
    decreases |states|
  {
    if states != [] {
      var s := states[0];
      RecalledTail(states, home);
      NoneTakes(leds, states);
      assert RestoreAll(states) == Restore(s) + RestoreAll(states[1..]);
      assert BlinkAll(leds, states) == Blink(leds, s) + BlinkAll(leds, states[1..]);
      hide Restore, Recalls, SameLed, SameDevice, Proper, AllWritten, SomeTakes, Takes, Blink, Lights, RestoreAll, BlinkAll, AllProper, AllRecalled;
      OneRefused(k, w, s, home, leds);
      RestoreLights(s);
      LightsKeep(k, w, Restore(s), home);
      WrittenAppend(k, w, Blink(leds, s), BlinkAll(leds, states[1..]));
      WrittenAppend(k, w, Restore(s), RestoreAll(states[1..]));
      RefusedAll(k, AllWritten(k, w, Restore(s)), states[1..], home, leds);
    }
  }

  lemma {:induction false} RefusedStart(k: Kernel, w: World, home: map<string, Led>)
    requires SameDevice(k, w.leds, home) && Back(w.leds, home) && AllProper(k, home)
    requires !SomeTakes(w.leds, Snapshot(w.leds))
    ensures var xs := [Tear, Save(Snapshot(w.leds))] + BlinkAll(w.leds, Snapshot(w.leds)) + [Remove];
            var w' := AllWritten(k, w, xs);
            SameDevice(k, w'.leds, home) && Back(w'.leds, home) && w'.file == Missing
  {
    var states := Snapshot(w.leds);
    SnapDescribes(w.leds, home);
    hide Snapshot, Proper, SameLed, RestoreAll, BlinkAll;
    var ys := BlinkAll(w.leds, states);
    var w2 := w.(file := Saved(states));
    assert [Tear, Save(states)] + ys + [Remove] == [Tear, Save(states)] + (ys + [Remove]);
    SavedFirst(k, w, states, ys + [Remove]);
    WrittenAppend(k, w2, ys, [Remove]);
    WrittenAppend(k, w2, RestoreAll(states), [Remove]);
    RefusedAll(k, w2, states, home, w.leds);
    AllRestored(k, w2, states, home);
  }

  /** A Start from idle, in part or in full. */
  lemma {:induction false} StartPart(k: Kernel, w: World, home: map<string, Led>, n: nat)
    requires SameDevice(k, w.leds, home) && Back(w.leds, home) && Recoverable(w, home) && AllProper(k, home)
    requires |w.leds| != 0 && n <= |StartWrites(w, IDLE)|
    ensures var xs := StartWrites(w, IDLE);
            var w' := AllWritten(k, w, xs[..n]);
            SameDevice(k, w'.leds, home) && Recoverable(w', home) &&
            (n == |xs| ==> w'.file == if SomeTakes(w.leds, Snapshot(w.leds)) then Saved(Snapshot(w.leds)) else Missing)
  {
    hide Snapshot, BlinkAll, Proper, Back, SameDevice, Describes, AllWritten, SomeTakes;
    var xs, ys := StartWrites(w, IDLE), BlinkWrites(w);
    var tail := if SomeTakes(w.leds, Snapshot(w.leds)) then [] else [Remove];
    assert xs == ys + tail;
    hide StartWrites;
    if n <= |ys| {
      StartKeeps(k, w, home, n);
      assert xs[..n] == ys[..n];
    } else {
      assert xs[..n] == ys + [Remove];
      RefusedStart(k, w, home);
    }
  }

  lemma {:induction false} RestoreKeeps(k: Kernel, w: World, states: seq<LedState>, home: map<string, Led>, n: nat)
    requires SameDevice(k, w.leds, home) && Recoverable(w, home) && w.file == Saved(states)
    requires AllProper(k, home)
    ensures var xs := RestoreAll(states) + [Remove];
            n <= |xs| ==>
              (var w' := AllWritten(k, w, xs[..n]);
               SameDevice(k, w'.leds, home) && Recoverable(w', home) && (n == |xs| ==> Back(w'.leds, home) && w'.file == Missing))
  {
    hide Proper, SameLed, SameDevice, Describes, AllWritten, RestoreAll;
    var ys := RestoreAll(states);
    var xs := ys + [Remove];
    if n <= |ys| {
      RestoreAllLights(states);
      LightsPart(ys, n);
      LightsKeep(k, w, ys[..n], home);
      assert xs[..n] == ys[..n];
    } else if n == |xs| {
      assert xs[..n] == xs;
      AllRestored(k, w, states, home);
    }
  }

  lemma {:induction false} StepKeeps(k: Kernel, s: Sys, e: Event, home: map<string, Led>)
    requires Inv(k, s, home) && AllProper(k, home) && !Overwrites(s, e, home)
    ensures Inv(k, Step(k, s, e), home)
  {
    match e {
      case SaveFails => hide Proper, SameLed, Describes;
      case SkipsRecovery => hide SameDevice, Recoverable, AllProper, Overwrites;
      case Done(job) =>
        if job == Start && s.proc.Some? {
          StartDone(k, s, home);
        } else {
          JobDone(k, s, job, home);
        }
        hide Inv, Step, AllProper, Overwrites;
      case DiesIn(job, n) =>
        DeathKeeps(k, s, job, n, home);
        hide Inv, Step, AllProper, Overwrites;
    }
  }

  lemma {:induction false} JobDone(k: Kernel, s: Sys, job: Job, home: map<string, Led>)
    requires Inv(k, s, home) && AllProper(k, home) && (job == Start ==> s.proc == None)
    ensures Inv(k, Step(k, s, Done(job)), home)
  {
    var xs := Writes(s, job);
    JobKeeps(k, s, job, |xs|, home);
    assert xs[..|xs|] == xs;
    NothingWritten(k, s.w);
    hide Recoverable, SameDevice, RestoreAll, AllWritten, AllProper;
  }

  lemma {:induction false} DeathKeeps(k: Kernel, s: Sys, job: Job, n: nat, home: map<string, Led>)
    requires Inv(k, s, home) && AllProper(k, home) && !Overwrites(s, DiesIn(job, n), home)
    ensures Inv(k, Step(k, s, DiesIn(job, n)), home)
  {
    var xs := Writes(s, job);
    assert xs[..|xs|] == xs;
    var part := if n <= |xs| then n else |xs|;
    assert (if n <= |xs| then xs[..n] else xs) == xs[..part];
    hide Writes, Recoverable, SameDevice, AllWritten, AllProper;
    if job == Start && s.proc.Some? {
      assert !s.proc.value.active && part > 0 ==> Back(s.w.leds, home);
      hide Back;
      DiesInStart(k, s, part, home);
    } else {
      JobKeeps(k, s, job, part, home);
    }
  }

  /** Finishing and recovering, in part or in full. */
  lemma {:induction false} JobKeeps(k: Kernel, s: Sys, job: Job, n: nat, home: map<string, Led>)
    requires Inv(k, s, home) && AllProper(k, home)
    requires (job == Start ==> s.proc == None) && n <= |Writes(s, job)|
    ensures var w' := AllWritten(k, s.w, Writes(s, job)[..n]);
            SameDevice(k, w'.leds, home) && Recoverable(w', home) &&
            (n == |Writes(s, job)| ==>
               match (job, s.proc)
               case (Finish(gen), Some(p)) => if Ends(p, gen) then w'.file == Missing else w' == s.w
               case (Recover, None) => !w'.file.Saved?
               case _ => w' == s.w)
  {
    var xs := Writes(s, job);
    hide Proper, SameLed, RestoreAll;
    match (job, s.proc) {
      case (Finish(gen), Some(p)) =>
        if Ends(p, gen) { RestoreKeeps(k, s.w, p.saved, home, n); }
      case (Recover, None) =>
        match s.w.file {
          case Saved(states) => RestoreKeeps(k, s.w, states, home, n);
          case Torn =>
            OneWritten(k, s.w, Remove);
            assert n == 1 ==> xs[..n] == [Remove];
          case Missing =>
        }
      case _ =>
    }
  }

  lemma {:induction false} DiesInStart(k: Kernel, s: Sys, n: nat, home: map<string, Led>)
    requires Inv(k, s, home) && s.proc.Some? && AllProper(k, home)
    requires n <= |Writes(s, Start)| && (!s.proc.value.active && n > 0 ==> Back(s.w.leds, home))
    ensures var w' := AllWritten(k, s.w, Writes(s, Start)[..n]);
            SameDevice(k, w'.leds, home) && Recoverable(w', home)
  {
    NothingWritten(k, s.w);
    hide AllWritten, SameDevice, Back, Describes, Proper, Snapshot, BlinkAll, SomeTakes;
    var w, p := s.w, s.proc.value;
    if !p.active && |w.leds| != 0 {
      assert Writes(s, Start) == StartWrites(w, IDLE);
      hide StartWrites;
      if n == 0 {
        assert Writes(s, Start)[..0] == [];
      } else {
        StartPart(k, w, home, n);
      }
    }
  }

  lemma {:induction false} StartDone(k: Kernel, s: Sys, home: map<string, Led>)
    requires Inv(k, s, home) && s.proc.Some? && AllProper(k, home) && !Overwrites(s, Done(Start), home)
    ensures Inv(k, Step(k, s, Done(Start)), home)
  {
    NothingWritten(k, s.w);
    hide AllWritten, SameDevice, Back, Describes, Proper, Snapshot, BlinkAll, SomeTakes;
    var w, p := s.w, s.proc.value;
    if !p.active && |w.leds| != 0 {
      var xs := StartWrites(w, IDLE);
      assert StartWrites(w, p) == xs && xs[..|xs|] == xs;
      hide StartWrites;
      StartPart(k, w, home, |xs|);
    }
  }

  /** No Start of the run replaces the state file while an LED is not back. */
  ghost predicate Careful(k: Kernel, s: Sys, events: seq<Event>, home: map<string, Led>)
    decreases |events|
  {
    events == [] || (!Overwrites(s, events[0], home) && Careful(k, Step(k, s, events[0]), events[1..], home))
  }

  lemma {:induction false} RunKeeps(k: Kernel, s: Sys, events: seq<Event>, home: map<string, Led>)
    requires Inv(k, s, home) && AllProper(k, home) && Careful(k, s, events, home)
    ensures Inv(k, Run(k, s, events), home)
    decreases |events|
  {
    if events != [] {
      hide Inv, Step, AllProper, Overwrites;
      StepKeeps(k, s, events[0], home);
      RunKeeps(k, Step(k, s, events[0]), events[1..], home);
    }
  }

  /** The first process, before any blink. */
  function First(home: map<string, Led>): Sys { Sys(Some(IDLE), World(home, Missing), false) }

  /** While the state file can be read whenever a process starts. */
  predicate Readable(events: seq<Event>) { forall i | 0 <= i < |events| :: !events[i].SkipsRecovery? }

  lemma {:induction false} ReadableIsCareful(k: Kernel, s: Sys, events: seq<Event>, home: map<string, Led>)
    requires Inv(k, s, home) && AllProper(k, home) && !s.skipped && Readable(events)
    ensures Careful(k, s, events, home) && !Run(k, s, events).skipped
    decreases |events|
  {
    if events != [] {
      assert !events[0].SkipsRecovery?;
      assert forall i | 0 <= i < |events[1..]| :: events[1..][i] == events[i + 1];
      assert !Overwrites(s, events[0], home) by { hide SameLed, SameDevice, Describes; }
      StepKeeps(k, s, events[0], home);
      hide Inv, AllProper, AllWritten, StartWrites, FinishWrites, RecoverWrites, Started, Overwrites;
      ReadableIsCareful(k, Step(k, s, events[0]), events[1..], home);
    }
  }

  /** Over any mix of starts, restarts, stops, timers of any age, deaths after any write and
      recoveries: while it blinks every LED's state from before is in the state file and a
      timer is armed for the blink; when the locator is idle every LED is back at the
      trigger and settings it had at first; and whenever an LED is not back, the file holds
      it. */
  lemma {:induction false} LedsComeBack(k: Kernel, home: map<string, Led>, events: seq<Event>)
    requires AllProper(k, home) && Readable(events)
    ensures var s := Run(k, First(home), events);
            (!Back(s.w.leds, home) ==> s.w.file.Saved? && Describes(s.w.file.states, home)) &&
            (s.proc.Some? && !s.proc.value.active ==> Back(s.w.leds, home)) &&
            (s.proc.Some? && s.proc.value.active ==>
               s.w.file == Saved(s.proc.value.saved) && Describes(s.proc.value.saved, home) &&
               s.proc.value.timer == Some(s.proc.value.gen))
  {
    hide Proper;
    assert Inv(k, First(home), home);
    ReadableIsCareful(k, First(home), events, home);
    RunKeeps(k, First(home), events, home);
    hide Describes;
  }

  // ---- when the state file cannot be read ----

  lemma {:induction false} BackTransitive(a: map<string, Led>, b: map<string, Led>, c: map<string, Led>)
    requires Back(a, b) && Back(a, c)
    ensures Back(b, c)
  {
    forall n | n in c ensures SameLed(b[n], c[n]) {
      assert SameLed(a[n], b[n]) && SameLed(a[n], c[n]);
    }
  }

  lemma {:induction false} DescribedOnce(states: seq<LedState>, a: map<string, Led>, b: map<string, Led>)
    requires Describes(states, a) && Describes(states, b)
    ensures Back(a, b)
  {
    forall n ensures n in a <==> n in b {
      if n in a {
        assert Holds(states, n);
        var i :| 0 <= i < |states| && states[i].name == n;
        assert Recalled(states[i], b);
      }
      if n in b {
        assert Holds(states, n);
        var i :| 0 <= i < |states| && states[i].name == n;
        assert Recalled(states[i], a);
      }
    }
    forall n | n in b ensures SameLed(a[n], b[n]) {
      assert Holds(states, n);
      var i :| 0 <= i < |states| && states[i].name == n;
      assert Recalled(states[i], a) && Recalled(states[i], b);
    }
  }

  /** LEDs can be brought back to one state at most. */
  lemma {:induction false} RecoverableOnce(w: World, a: map<string, Led>, b: map<string, Led>)
    requires Recoverable(w, a) && Recoverable(w, b)
    ensures Back(a, b)
  {
    match w.file
    case Saved(states) => DescribedOnce(states, a, b);
    case _ => BackTransitive(w.leds, a, b);
  }

  lemma {:induction false} BackToItself(leds: map<string, Led>)
    ensures Back(leds, leds)
  {
  }

  lemma {:induction false} DeviceItself(k: Kernel, leds: map<string, Led>, home: map<string, Led>)
    requires SameDevice(k, leds, home)
    ensures SameDevice(k, leds, leds) && AllProper(k, leds)
  {
    hide Proper;
  }

  /** The state file as it was does not matter to a Start that replaces it. */
  function Forgotten(s: Sys): Sys { s.(w := s.w.(file := Missing)) }

  lemma {:induction false} TearForgets(k: Kernel, w: World, xs: seq<Write>)
    requires xs != [] && xs[0] == Tear
    ensures AllWritten(k, w, xs) == AllWritten(k, w.(file := Missing), xs)
  {
    assert Written(k, w, Tear) == Written(k, w.(file := Missing), Tear);
  }

  lemma {:induction false} OverwriteForgets(k: Kernel, s: Sys, e: Event, home: map<string, Led>)
    requires Overwrites(s, e, home) && s.w.leds.Keys == home.Keys
    ensures Step(k, s, e) == Step(k, Forgotten(s), e)
  {
    assert |s.w.leds| != 0 by {
      var n :| n in home && !SameLed(s.w.leds[n], home[n]);
      assert n in s.w.leds.Keys;
    }
    var xs := StartWrites(s.w, s.proc.value);
    assert xs == StartWrites(Forgotten(s).w, s.proc.value) && |xs| >= 2 && xs[0] == Tear;
    hide StartWrites, AllWritten, Snapshot, Back;
    TearForgets(k, s.w, xs);
    if e.DiesIn? && e.after <= |xs| {
      TearForgets(k, s.w, xs[..e.after]);
    }
  }

  /** Seen from where the LEDs are, such a Start is as good as any: it comes back there. */
  lemma {:induction false} OverwriteKeepsOther(k: Kernel, s: Sys, e: Event, home: map<string, Led>)
    requires Inv(k, s, home) && AllProper(k, home) && Overwrites(s, e, home)
    ensures AllProper(k, s.w.leds) && Inv(k, Step(k, s, e), s.w.leds)
  {
    var there := s.w.leds;
    DeviceItself(k, there, home);
    BackToItself(there);
    OverwriteForgets(k, s, e, home);
    hide SameDevice, AllProper, Back, Step;
    assert Inv(k, Forgotten(s), there);
    StepKeeps(k, Forgotten(s), e, there);
  }

  /** Exactly which step loses the LEDs: a Start that replaces the state file while one of them
      is not back, which takes a process that skipped its recovery. */
  lemma {:induction false} LostExactly(k: Kernel, s: Sys, e: Event, home: map<string, Led>)
    requires Inv(k, s, home) && AllProper(k, home)
    ensures Recoverable(Step(k, s, e).w, home) <==> !Overwrites(s, e, home)
    ensures Overwrites(s, e, home) ==> s.skipped
  {
    if Overwrites(s, e, home) {
      OverwriteKeepsOther(k, s, e, home);
      if Recoverable(Step(k, s, e).w, home) {
        hide Step, Describes, SameDevice;
        RecoverableOnce(Step(k, s, e).w, s.w.leds, home);
      }
    } else {
      StepKeeps(k, s, e, home);
    }
    hide Step, Back, Describes, SameDevice, AllProper;
  }

  /** What ends the blink, or recovers after a death. */
  function Ending(s: Sys): Event {
    if s.proc.None? then Done(Recover) else Done(Finish(s.proc.value.gen))
  }

  /** And the loss shows: after such a step, the end of the blink or the recovery leaves the
      locator idle with an LED not back. */
  lemma {:induction false} LossShows(k: Kernel, s: Sys, e: Event, home: map<string, Led>)
    requires Inv(k, s, home) && AllProper(k, home) && Overwrites(s, e, home)
    ensures var s' := Step(k, s, e);
            var end := Step(k, s', Ending(s'));
            end.proc.Some? && !end.proc.value.active && !Back(end.w.leds, home)
  {
    OverwriteKeepsOther(k, s, e, home);
    var s', there := Step(k, s, e), s.w.leds;
    assert s'.proc.Some? && !s'.proc.value.active ==> !s'.w.file.Saved? by { StartLeaves(k, s, e, home); }
    hide Step;
    EndsBack(k, s', there);
    if Back(Step(k, s', Ending(s')).w.leds, home) {
      BackTransitive(Step(k, s', Ending(s')).w.leds, there, home);
    }
  }

  lemma {:induction false} StartLeavesFrom(k: Kernel, w: World, home: map<string, Led>)
    requires SameDevice(k, w.leds, home) && Back(w.leds, home) && AllProper(k, home) && w.file == Missing
    ensures AllWritten(k, w, StartWrites(w, IDLE)).file.Saved? ==> Starts(w, IDLE)
  {
    var xs := StartWrites(w, IDLE);
    assert xs[..|xs|] == xs;
    hide Snapshot, BlinkAll, Proper, SameDevice, Describes, AllWritten, SomeTakes, Back, StartWrites;
    NothingWritten(k, w);
    if |w.leds| != 0 {
      StartPart(k, w, home, |xs|);
    } else {
      assert xs == [] by { StartsNothing(w); }
    }
  }

  lemma {:induction false} StartsNothing(w: World)
    requires |w.leds| == 0
    ensures StartWrites(w, IDLE) == []
  {
  }

  lemma {:induction false} StartLeaves(k: Kernel, s: Sys, e: Event, home: map<string, Led>)
    requires Inv(k, s, home) && AllProper(k, home) && Overwrites(s, e, home)
    ensures var s' := Step(k, s, e); s'.proc.Some? && !s'.proc.value.active ==> !s'.w.file.Saved?
  {
    if e == Done(Start) {
      var w, there := s.w, s.w.leds;
      DeviceItself(k, there, home);
      BackToItself(there);
      OverwriteForgets(k, s, e, home);
      hide Proper, SameDevice, Describes, Back, Overwrites, Snapshot, BlinkAll, SomeTakes, AllWritten;
      StartLeavesFrom(k, w.(file := Missing), there);
    }
  }

  /** Ending a blink, or recovering, from where the LEDs can be brought back. */
  lemma {:induction false} EndsBack(k: Kernel, s: Sys, home: map<string, Led>)
    requires Inv(k, s, home) && AllProper(k, home)
    requires s.proc.Some? && !s.proc.value.active ==> !s.w.file.Saved?
    ensures var end := Step(k, s, Ending(s));
            end.proc.Some? && !end.proc.value.active && Back(end.w.leds, home)
  {
    var e := Ending(s);
    var xs := Writes(s, e.job);
    JobKeeps(k, s, e.job, |xs|, home);
    assert xs[..|xs|] == xs;
    hide Writes, AllWritten, Describes, SameDevice, Back, AllProper;
  }

  /** All runs: the LEDs can be brought back at every point of a run if and only if no Start of
      it replaces the state file while one of them is not back. */
  lemma {:induction false} LedsComeBackExactly(k: Kernel, home: map<string, Led>, s: Sys, events: seq<Event>)
    requires Inv(k, s, home) && AllProper(k, home)
    ensures Careful(k, s, events, home) <==>
            forall i | 0 <= i <= |events| :: Recoverable(Run(k, s, events[..i]).w, home)
    decreases |events|
  {
    if events == [] {
      assert events[..0] == [] && Run(k, s, []) == s;
    } else {
      var s1, rest := Step(k, s, events[0]), events[1..];
      LostExactly(k, s, events[0], home);
      forall i | 1 <= i <= |events| ensures Run(k, s, events[..i]) == Run(k, s1, rest[..i - 1]) {
        assert events[..i][0] == events[0] && events[..i][1..] == rest[..i - 1];
      }
      assert events[..0] == [] && rest[..0] == [];
      assert Run(k, s, events[..0]) == s && Run(k, s1, rest[..0]) == s1;
      if Overwrites(s, events[0], home) {
        assert !Recoverable(Run(k, s, events[..1]).w, home);
      } else {
        StepKeeps(k, s, events[0], home);
        assert Recoverable(s.w, home);
        hide Run, Step, Recoverable, Inv, Overwrites;
        LedsComeBackExactly(k, home, s1, rest);
        ShiftedRuns(k, s, events, s1, home);
      }
    }
  }

  lemma {:induction false} ShiftedRuns(k: Kernel, s: Sys, events: seq<Event>, s1: Sys, home: map<string, Led>)
    requires events != [] && Recoverable(Run(k, s, events[..0]).w, home)
    requires forall i | 1 <= i <= |events| :: Run(k, s, events[..i]) == Run(k, s1, events[1..][..i - 1])
    ensures (forall i | 0 <= i <= |events| :: Recoverable(Run(k, s, events[..i]).w, home)) <==>
            (forall i | 0 <= i <= |events[1..]| :: Recoverable(Run(k, s1, events[1..][..i]).w, home))
  {
    hide Run, Recoverable;
    var rest := events[1..];
    if forall i | 0 <= i <= |events| :: Recoverable(Run(k, s, events[..i]).w, home) {
      forall i | 0 <= i <= |rest| ensures Recoverable(Run(k, s1, rest[..i]).w, home) {
        assert Run(k, s, events[..i + 1]) == Run(k, s1, rest[..i]);
      }
    }
    if forall i | 0 <= i <= |rest| :: Recoverable(Run(k, s1, rest[..i]).w, home) {
      forall i | 0 <= i <= |events| ensures Recoverable(Run(k, s, events[..i]).w, home) {
        if i > 0 { assert Run(k, s, events[..i]) == Run(k, s1, rest[..i - 1]); }
      }
    }
  }

  // ---- what a Start shows ----

  /** Blinking at the locate rate; an LED that refuses the timer is as it was. */
  predicate Shows(led: Led, was: Led) {
    if was.takesTimer then
      led.trigger == "timer" && forall a | a in led.attrs && a in ["delay_on", "delay_off"] :: led.attrs[a] == "200"
    else SameLed(led, was)
  }

  predicate Matches(leds: map<string, Led>, home: map<string, Led>) {
    leds.Keys == home.Keys && forall n | n in home :: leds[n].takesTimer == home[n].takesTimer
  }

  lemma {:induction false} LedShows(k: Kernel, leds: map<string, Led>, led: Led, s: LedState, was: Led)
    requires Proper(k, was) && Recalls(s, was) && s.name in leds && leds[s.name].takesTimer == was.takesTimer == led.takesTimer
    ensures var led' := LedAfter(k, led, Blink(leds, s));
            Shows(led', was) && led'.takesTimer == was.takesTimer
  {
    var xs := Blink(leds, s);
    var l1 := Triggered(k, led, TIMER);
    if was.takesTimer {
      var a, b := xs[1..], xs[2..];
      assert xs == [xs[0]] + a && a[1..] == b && b[1..] == [];
      var l2 := AttrWritten(k, l1, "delay_on", BLINK_MS);
      var l3 := AttrWritten(k, l2, "delay_off", BLINK_MS);
      assert LedAfter(k, led, xs) == LedAfter(k, l1, a);
      assert LedAfter(k, l1, a) == LedAfter(k, l2, b);
      assert LedAfter(k, l2, b) == LedAfter(k, l3, b[1..]) == l3;
    } else {
      hide Restore;
      assert xs[1..] == Restore(s) && l1 == led;
      LedRestored(k, led, s, was);
    }
  }

  lemma {:induction false} BlinkOn(leds: map<string, Led>, s: LedState)
    ensures AllOn(Blink(leds, s), s.name)
  {
    RestoreOn(s);
    hide Restore;
  }

  lemma {:induction false} OneShows(k: Kernel, leds: map<string, Led>, w: World, s: LedState, home: map<string, Led>)
    requires AllProper(k, home) && Recalled(s, home) && Matches(leds, home) && Matches(w.leds, home)
    ensures var w' := AllWritten(k, w, Blink(leds, s));
            Matches(w'.leds, home) && Shows(w'.leds[s.name], home[s.name]) && forall n | n in home && n != s.name :: w'.leds[n] == w.leds[n]
  {
    BlinkOn(leds, s);
    LedShows(k, leds, w.leds[s.name], s, home[s.name]);
    hide AllWritten, LedAfter, Shows, Blink, AllOn;
    WritesToOne(k, w, Blink(leds, s), s.name);
  }

  lemma {:induction false} HoldsFirst(states: seq<LedState>, n: string)
    requires states != []
    ensures Holds(states, n) <==> n == states[0].name || Holds(states[1..], n)
  {
    if Holds(states, n) {
      var i :| 0 <= i < |states| && states[i].name == n;
      if i > 0 { assert states[1..][i - 1].name == n; }
    }
    if Holds(states[1..], n) {
      var i :| 0 <= i < |states[1..]| && states[1..][i].name == n;
      assert states[i + 1].name == n;
    }
    assert states[0].name == n ==> Holds(states, n);
  }

  /** After blinking some LEDs. */
  predicate BlinkOrSame(leds: map<string, Led>, before: map<string, Led>, states: seq<LedState>, home: map<string, Led>)
    requires Matches(leds, home) && Matches(before, home)
  {
    forall n | n in home :: if Holds(states, n) then Shows(leds[n], home[n]) else leds[n] == before[n]
  }

  lemma {:induction false} AllShow(k: Kernel, leds: map<string, Led>, w: World, states: seq<LedState>, home: map<string, Led>)
    requires AllProper(k, home) && AllRecalled(states, home) && Matches(leds, home) && Matches(w.leds, home)
    ensures var w' := AllWritten(k, w, BlinkAll(leds, states));
            Matches(w'.leds, home) && BlinkOrSame(w'.leds, w.leds, states, home)
    decreases |states|
  {
    if states != [] {
      var s := states[0];
      RecalledTail(states, home);
      assert BlinkAll(leds, states) == Blink(leds, s) + BlinkAll(leds, states[1..]);
      hide Blink, Recalls, Shows, BlinkAll, AllWritten, AllRecalled, AllProper, Matches, Holds;
      OneShows(k, leds, w, s, home);
      AllShow(k, leds, AllWritten(k, w, Blink(leds, s)), states[1..], home);
      WrittenAppend(k, w, Blink(leds, s), BlinkAll(leds, states[1..]));
      forall n | n in home ensures Holds(states, n) <==> n == s.name || Holds(states[1..], n) { HoldsFirst(states, n); }
    }
  }

  predicate AllShown(leds: map<string, Led>, home: map<string, Led>) {
    leds.Keys == home.Keys && forall n | n in home :: Shows(leds[n], home[n])
  }

  lemma {:induction false} BlinkShows(k: Kernel, w: World, home: map<string, Led>, states: seq<LedState>)
    requires SameDevice(k, w.leds, home) && Describes(states, home)
    requires AllProper(k, home)
    ensures AllShown(AllWritten(k, w, [Tear, Save(states)] + BlinkAll(w.leds, states)).leds, home)
  {
    hide AllWritten, Shows, BlinkAll, Holds, AllRecalled, AllProper;
    AllShow(k, w.leds, w.(file := Saved(states)), states, home);
    SavedFirst(k, w, states, BlinkAll(w.leds, states));
  }

  /** A Start that succeeds with every LED back: every LED that takes the timer blinks at the locate
      rate, and every other one is as it was. */
  lemma {:induction false} StartShows(k: Kernel, s: Sys, home: map<string, Led>)
    requires Inv(k, s, home) && s.proc.Some? && !s.proc.value.active && Starts(s.w, s.proc.value)
    requires AllProper(k, home) && Back(s.w.leds, home)
    ensures AllShown(Step(k, s, Done(Start)).w.leds, home)
  {
    hide AllWritten, Snapshot, AllShown, BlinkAll, Proper, SomeTakes, SameDevice, Back;
    var states := Snapshot(s.w.leds);
    SnapDescribes(s.w.leds, home);
    BlinkShows(k, s.w, home, states);
    var xs := [Tear, Save(states)] + BlinkAll(s.w.leds, states);
    assert StartWrites(s.w, s.proc.value) == xs + [] == xs;
  }

  // ---- stale timers ----

  predicate SameProcess(events: seq<Event>) { forall i | 0 <= i < |events| :: !events[i].DiesIn? }

  lemma {:induction false} GenGrows(k: Kernel, s: Sys, events: seq<Event>)
    requires s.proc.Some? && SameProcess(events)
    ensures var s' := Run(k, s, events); s'.proc.Some? && s'.proc.value.gen >= s.proc.value.gen
    decreases |events|
  {
    if events != [] {
      assert !events[0].DiesIn?;
      assert forall i | 0 <= i < |events[1..]| :: events[1..][i] == events[i + 1];
      hide AllWritten, StartWrites, FinishWrites, Snapshot;
      GenGrows(k, Step(k, s, events[0]), events[1..]);
    }
  }

  /** A timer (or a Stop) of an earlier blink does nothing once a later Start succeeded,
      whatever happened in between. */
  lemma {:induction false} StaleTimerIsHarmless(k: Kernel, s: Sys, between: seq<Event>, later: seq<Event>)
    requires s.proc.Some? && SameProcess(between) && SameProcess(later)
    requires var s1 := Run(k, s, between); s1.proc.Some? && Starts(s1.w, s1.proc.value)
    ensures var stale := s.proc.value.gen;
            var s2 := Run(k, Step(k, Run(k, s, between), Done(Start)), later);
            Step(k, s2, Done(Finish(stale))) == s2
  {
    GenGrows(k, s, between);
    var s1 := Run(k, s, between);
    var started := Step(k, s1, Done(Start));
    hide AllWritten, StartWrites, Run, Starts;
    GenGrows(k, started, later);
    var s2 := Run(k, started, later);
    assert !Ends(s2.proc.value, s.proc.value.gen);
    assert Writes(s2, Finish(s.proc.value.gen)) == [];
    NothingWritten(k, s2.w);
  }

  lemma {:induction false} NothingWritten(k: Kernel, w: World)
    ensures AllWritten(k, w, []) == w
  {
  }

  /** The timer that is armed does end its blink. */
  lemma {:induction false} ArmedTimerEnds(k: Kernel, home: map<string, Led>, s: Sys)
    requires Inv(k, s, home) && AllProper(k, home)
    requires s.proc.Some? && s.proc.value.active
    ensures s.proc.value.timer.Some?
    ensures var s' := Step(k, s, Done(Finish(s.proc.value.timer.value)));
            Back(s'.w.leds, home) && s'.w.file == Missing && s'.proc.Some? && !s'.proc.value.active
  {
    hide Proper, SameLed, RestoreAll;
    AllRestored(k, s.w, s.proc.value.saved, home);
  }

  /** A start that skips the recovery, one blink and its end: every LED is back afterwards if
      and only if it was back before. */
  lemma {:induction false} SkippedRecovery(k: Kernel, s: Sys, home: map<string, Led>)
    requires Inv(k, s, home) && AllProper(k, home) && s.proc == None && Starts(s.w, IDLE)
    ensures var end := Run(k, s, [SkipsRecovery, Done(Start), Done(Finish(1))]);
            end.proc.Some? && !end.proc.value.active && (Back(end.w.leds, home) <==> Back(s.w.leds, home))
  {
    var s1 := Sys(Some(IDLE), s.w, true);
    var s2 := Step(k, s1, Done(Start));
    SkippedOnly(k, s, home);
    StartedActive(k, s1);
    hide Step, Starts, Back, Run, Inv, AllProper, Overwrites, Ending;
    ThreeSteps(k, s, SkipsRecovery, Done(Start), Done(Finish(1)));
    if Back(s.w.leds, home) {
      StepKeeps(k, s1, Done(Start), home);
      EndsBack(k, s2, home);
    } else {
      LossShows(k, s1, Done(Start), home);
    }
  }

  lemma {:induction false} SkippedOnly(k: Kernel, s: Sys, home: map<string, Led>)
    requires Inv(k, s, home) && s.proc == None
    ensures var s1 := Sys(Some(IDLE), s.w, true);
            Step(k, s, SkipsRecovery) == s1 && Inv(k, s1, home) && (Overwrites(s1, Done(Start), home) <==> !Back(s.w.leds, home))
  {
    hide Recoverable, SameDevice, Back;
  }

  lemma {:induction false} StartedActive(k: Kernel, s: Sys)
    requires s.proc == Some(IDLE) && Starts(s.w, IDLE)
    ensures var s' := Step(k, s, Done(Start));
            s'.proc.Some? && s'.proc.value.active && Ending(s') == Done(Finish(1))
  {
    hide Starts, AllWritten, StartWrites, Snapshot;
  }

  lemma {:induction false} ThreeSteps(k: Kernel, s: Sys, a: Event, b: Event, c: Event)
    ensures Run(k, s, [a, b, c]) == Step(k, Step(k, Step(k, s, a), b), c)
  {
    hide Step;
    assert [a, b, c][1..] == [b, c];
    TwoSteps(k, Step(k, s, a), b, c);
  }

  /** Such a run from the first process on, on any device with an LED that takes the timer and
      was not on it: blink, die, start without reading the state file, blink, end. */
  lemma {:induction false} SkippedRecoveryLosesTheState(k: Kernel, home: map<string, Led>, n: string)
    requires AllProper(k, home) && n in home && home[n].takesTimer && home[n].trigger != TIMER
    ensures var died := Run(k, First(home), [Done(Start), DiesIn(Recover, 0)]);
            var end := Run(k, died, [SkipsRecovery, Done(Start), Done(Finish(1))]);
            end.proc.Some? && !end.proc.value.active && !Back(end.w.leds, home)
  {
    var died := Run(k, First(home), [Done(Start), DiesIn(Recover, 0)]);
    BlinkAndDie(k, home, n);
    hide Run, Back, AllProper;
    SkippedRecovery(k, died, home);
  }

  lemma {:induction false} BlinkAndDie(k: Kernel, home: map<string, Led>, n: string)
    requires AllProper(k, home) && n in home && home[n].takesTimer && home[n].trigger != TIMER
    ensures var died := Run(k, First(home), [Done(Start), DiesIn(Recover, 0)]);
            Inv(k, died, home) && died.proc == None && Starts(died.w, IDLE) && !Back(died.w.leds, home)
  {
    var s0 := First(home);
    var s1 := Step(k, s0, Done(Start));
    var died := Sys(None, s1.w, false);
    Firsts(k, home);
    StillTakes(home, home, n);
    hide Starts, Back, AllProper, AllShown, Overwrites;
    StepKeeps(k, s0, Done(Start), home);
    StartShows(k, s0, home);
    hide Step;
    DeathOnly(k, s1, home);
    hide Inv;
    Blinks(k, s1.w.leds, home, n);
    StillTakes(s1.w.leds, home, n);
    TwoSteps(k, s0, Done(Start), DiesIn(Recover, 0));
  }

  lemma {:induction false} DeathOnly(k: Kernel, s: Sys, home: map<string, Led>)
    requires Inv(k, s, home)
    ensures var died := Sys(None, s.w, false);
            Step(k, s, DiesIn(Recover, 0)) == died && Inv(k, died, home) && SameDevice(k, died.w.leds, home)
  {
    NothingWritten(k, s.w);
    hide SameDevice, Recoverable, RecoverWrites;
    assert Writes(s, Recover)[..0] == [];
  }

  lemma {:induction false} TwoSteps(k: Kernel, s: Sys, a: Event, b: Event)
    ensures Run(k, s, [a, b]) == Step(k, Step(k, s, a), b)
  {
    hide Step;
    var ab, last := [a, b], [b];
    assert ab[1..] == last && last[1..] == [];
    var s1 := Step(k, s, a);
    assert Run(k, s, ab) == Run(k, s1, last) && Run(k, s1, last) == Run(k, Step(k, s1, b), []);
  }

  lemma {:induction false} Firsts(k: Kernel, home: map<string, Led>)
    requires AllProper(k, home)
    ensures Inv(k, First(home), home) && Back(home, home) && !Overwrites(First(home), Done(Start), home)
  {
    BackToItself(home);
    hide Proper;
  }

  lemma {:induction false} Blinks(k: Kernel, leds: map<string, Led>, home: map<string, Led>, n: string)
    requires AllShown(leds, home) && SameDevice(k, leds, home)
    requires n in home && home[n].takesTimer && home[n].trigger != TIMER
    ensures n in leds && leds[n].takesTimer && !Back(leds, home)
  {
    hide Proper;
    assert Shows(leds[n], home[n]) && !SameLed(leds[n], home[n]);
  }

  /** A device with an LED that takes the timer can blink. */
  lemma {:induction false} StillTakes(leds: map<string, Led>, home: map<string, Led>, n: string)
    requires n in leds && leds[n].takesTimer
    ensures forall w: World | w.leds == leds :: Starts(w, IDLE)
  {
    BackToItself(leds);
    SnapDescribes(leds, leds);
    assert n in leds.Keys && |leds| != 0;
    var states := Snapshot(leds);
    assert Holds(states, n);
    var i :| 0 <= i < |states| && states[i].name == n;
    assert Takes(leds, states[i].name);
  }
}
