# Verification of perch-apd

A Dafny model of the parts of perch-apd where a mistake costs an access point its
configuration, and proofs about them. perch-apd is the agent that a controller uses to manage
an OpenWrt access point. `dafny verify dfyconfig.toml` (Dafny 4.11) checks the whole project.

What is modelled, part by part:

* **Device-groups planner** (`GroupsPlan`, `GroupsNames`, `GroupsNoDrift`, `GroupsChains`,
  `GroupsResult`, `GroupsLaws`, `GroupsNetwork`, `GroupsPlanner`, `UciConfig`). A plan takes the wireless and network configs
  and a ledger of what the last plan created or borrowed, takes that back, and builds wifi-vlan,
  wifi-station, bridge-vlan, device and interface sections for the requested VLANs, converting
  a plain bridge to VLAN filtering where it must. `GroupsPlan` is the plan as functions,
  `GroupsPlanner` the planner as it runs: cloned configs edited in place and a planner object
  that remembers what it created, proved equal to the functions. `GroupsLaws` and
  `GroupsNetwork` say what a plan is in the configs' own options, apart from those functions.
* **Engine** (`EngineModel`, `EngineRuns`, `EngineDrift`, `EngineRepeat`, `EngineLaws`, `Engine`,
  `GroupsOwned`, `Psk`). The
  confirm-or-rollback window: persisted state, rollback copies, the timer, restarts, and a
  process that may die before any single write. `Engine` is the class with its mutable state,
  proved against the operations on values in `EngineModel`; `EngineRuns` is about every
  sequence of applies, confirms, timeouts, deaths, restarts and edits by others.
* **Write lock** (`WriteLock`, `LockWriters`, `LockProtocol`, `LockSteps`). One lock in memory,
  three writers with persisted windows, the start order of the daemon and its death at any
  moment. `LockSteps` shows the engine's, the updater's and the plane's operations to be steps
  of the protocol.
* **UCI editor** (`UciText`, `UciSpelling`, `UciFile`, `UciEdits`, `UciEditor`). The
  line-preserving editor of the agent's own config, tokenizer and quoting included.
* **JSON escaper** (`Utf8`, `JsonEscape`). The one-pass escaper of metrics.push over any byte
  string, against RFC 3629 (sections 3 and 4) and RFC 8259 (section 7).
* **Wi-Fi health** (`Health`, `HealthExpect`, `HealthCheck`, `HealthLaws`, `Monitor`,
  `MonitorLaws`). What must run, the judgement of what does, the record of what was broken
  before, and the debounced monitor.
* **LED locator** (`Leds`, `Locator`). Blink, stop, stale timers and recovery after a death at
  any write.
* **Two loops** (`ManagementRadios`, `Averages`). The bounded search for the uplink's radios and
  the truncating running averages.
* `Text`, `TextLaws`, `SortedKeys`, `Wrappers`: strings, sorting, `Option` and `Result`.

## Hypotheses

These are stated as `requires` clauses or built into the types.

* The config library's parser and renderer are mutually inverse, so a config file and its
  sections are the same thing; anything the parser rejects is kept as bytes (`Garbled`). Section
  names are unique, anonymous ones never start with `perch_`. A missing file is an empty one.
* `Set` on a section replaces in place or appends; `Str` of a list joins it with blanks, `List` of a
  string splits it at white space. White space is ASCII white space.
* Taking a plan back exactly needs what the code needs: no kept section carries a name the plan
  gives out in the other config, a managed wifi-iface has no empty `dynamic_vlan` and no list
  that is not "1", an interface on a bridge that is converted has a string `device`. This is
  `GroupsNoDrift.TakesBack`, a condition on the configs, the request and the old ledger;
  `NoDrift` says it is exactly what is needed. The theorems about chains and runs use
  `CleanBase`, which implies it for every request.
* Saving the engine's state either works or the process dies in it.
* A SHA-256 digest stands for its passphrase and equals another's only for the same passphrase.
* Other programs do not write LEDs while they blink, and an LED's settings are those of its
  trigger.
* One process at a time runs, and the update plan on disk can be read while it is open (for the
  lock theorems). Device groups may be off, and may be switched on or off at any start, except
  that no start switches them off while a groups window is open; `LockProtocol.OneWindowExactly`
  says that this is exactly what one window at a time needs.

## Where the code and its own words differ

The model follows the code; each point is a lemma or visible in one.

* A `dynamic_vlan` that is present but empty, or a list, does not come back as it was, and a
  device name that is a list is not restored (`GroupsNoDrift.NoDrift` names the exact condition,
  `GroupsNoDrift.UnrestorableDrifts` and `GroupsNoDrift.SomePlanDrifts` show plans that drift).
* An apply whose plan changes neither file keeps its revision and ledger at once, without the
  check of the PSK files that a confirm makes: asking for a confirmed state again under a new
  revision does (`EngineRuns.KeptAtOnceUnchecked`, `EngineRuns.KeptAtOnceExactly`,
  `EngineDrift.ConfirmedThenRepeated`, and one device in full in
  `EngineRepeat.SomeRepeatIsUnchecked`).
* A process that dies between saving the window and writing the configs comes back with a
  window whose files were never written; a confirm then keeps the old files under the new
  ledger (`EngineRuns.TornWindowConfirmed`). A death inside a rollback does the same with one
  file restored (`EngineRuns.DiedInRollbackConfirmed`). Confirmed files are the plan's if and
  only if no event of the window tears it: none dies with a file unwritten, or already put back,
  that the plan changes (`EngineRuns.ConfirmedRunsKeepPlan`; `EngineRuns.Tears` tells it from how
  the writes go).
* `bridge_empty` is never answered: a bridge is found by a port it lists
  (`GroupsNetwork.RefusedExactly`).
* A rollback whose restore of a file cannot be written still closes the window
  (`EngineRuns.RollbackRestoresExactly`).
* Starting without device groups while a groups window is open lets the Wi-Fi plane open a
  second one (`LockProtocol.GroupsSwitchedOff`, for every such start).
* The PSK read-back does not see a passphrase with a blank at either end
  (`Psk.OuterBlanksAreMissed`, `Psk.CaughtExactlyWithoutOuterBlanks`).
* The UCI editor writes a new section's type without quotes, so a type with a blank is not read
  back (`UciFile.EnsureCoherentExactly`, `UciFile.HeaderReadsBackExactly`), and a line that ends
  in a carriage return loses it (`UciFile.ReadsBackExactly`, `UciFile.CarriageReturnIsLost`).
* The locator's Start answers the number of LEDs it saved, those that refuse to blink included
  (`Locator.Locator.Start`, `Leds.AnswerExactly`).
* A process that cannot read the state file goes on without recovering; its next Start takes
  blinking LEDs for the state to come back to and overwrites the file
  (`Leds.LedsComeBackExactly`, `Leds.SkippedRecoveryLosesTheState`).
* A health notification's `ok` is stricter than the report's waiting state: a radio that is
  still being set up counts (`Monitor.NotifiedOkExactly`).

## Model

| member | source | states |
|---|---|---|
| GroupsNames.WifiVlanNameOwned | internal/groups/plan.go:122-149 | A wifi-vlan's created name is recognised by the naming pattern exactly when the interface's shortened name is not empty. |
| GroupsNames.WirelessAddsOwned | internal/groups/plan.go:433-485 | Every section a plan adds to wireless, on interfaces with a usable short name, has a name the pattern recognises. |
| GroupsNames.NetPlanOwned | internal/groups/plan.go:353-420 | Every section a plan adds to network has a name the pattern recognises, a conversion's untagged VLAN included. |
| GroupsNames.NetPlanNamed | internal/groups/plan.go:353-420 | Network additions keep to the network families of names; the untagged VLAN's name is the first addition of a plan that converts a bridge, and no other addition's. |
| GroupsLaws.PlaneNamesAreNot | internal/groups/plan.go:122-147 | No name of the Wi-Fi plane, whatever follows `perch_n`, is recognised as the engine's. |
| GroupsLaws.ShortNameExactly | internal/groups/plan.go:498-508 | An interface's shortened name has its letters, digits and underscores, in order, and at most 24 of them. |
| GroupsNoDrift.RestoreOfMark | internal/groups/plan.go:422-431 | Setting dynamic_vlan and putting back the recorded value gives the section as it was, exactly when the old value was absent, a non-empty string or already "1". |
| GroupsNoDrift.MoveBackOfMove | internal/groups/plan.go:694-703 | Moving an interface onto the converted bridge's VLAN and back restores it, exactly when its device was a plain string. |
| GroupsNoDrift.DropAdded | internal/groups/plan.go:569-592 | Dropping the owned names from kept sections followed by added ones leaves the kept part whole, exactly when no kept section carries an owned name. |
| GroupsLaws.UndoExactly | internal/groups/plan.go:537-612 | Undoing, section by section: exactly those the engine did not make stay, with dynamic_vlan as the ledger has it (none for none) and, unless the conversion stays, a moved interface that is still on the converted VLAN back on its old device; nothing else changes. |
| GroupsLaws.KeptExactly | internal/groups/plan.go:575-589 | A conversion stays exactly when a bridge-vlan on its bridge is not one the engine made. |
| GroupsNoDrift.NoDrift | internal/groups/plan.go:279-308 | Whenever a plan succeeds, undoing its result with its new ledger gives, section for section and in order, what undoing the original with the old ledger gave (kept conversion included), if and only if a condition on configs, request and old ledger holds: no kept section carries a name the plan gives out in the other config, each managed interface's dynamic_vlan and, on a newly converted bridge, each moved device can be put back. |
| GroupsNoDrift.TakesBackIsReversible | internal/groups/plan.go:279-308 | That condition on the inputs says the same as reading the result's created sections and borrowed options off a successful plan. |
| GroupsNoDrift.ManagedExactly | internal/groups/plan.go:310-333 | With unique names, an interface's name is listed as managed if and only if the interface itself is managed. |
| GroupsNoDrift.UnrestorableDrifts | internal/groups/plan.go:422-431 | Every successful plan for at least one VLAN with a managed interface whose dynamic_vlan is empty, or a list that is not "1", drifts. |
| GroupsNoDrift.SomePlanDrifts | internal/groups/plan.go:279-308 | There are such plans: one access point with an empty dynamic_vlan and one VLAN on a bare port. |
| GroupsNoDrift.UndoValid | internal/groups/plan.go:569-612 | Undoing keeps names unique, and a conversion it keeps stands behind a bridge-vlan the engine does not own. |
| GroupsNoDrift.UndoEmpty | internal/groups/plan.go:301-308 | Planning no VLANs leaves configs that undo to themselves. |
| GroupsNoDrift.PlanKeepsHypotheses | internal/groups/plan.go:279-495 | The ledger and configs a plan writes meet the hypotheses of the next plan: unique names, and a recorded conversion's VLAN is owned. |
| GroupsChains.UntaggedVlanIsFree | internal/groups/plan.go:666-681 | The untagged VLAN of a conversion is none of the groups' VLANs; it is the last conversion's if still free, otherwise the smallest free one, at most one more than the number of VLANs. |
| GroupsChains.NoUntaggedVlanExactly | internal/groups/plan.go:666-681 | When the no_untagged_vlan refusal occurs: exactly when the recorded VLAN of that bridge is above 4094. |
| GroupsChains.UntaggedStaysSmall | internal/groups/plan.go:666-681 | A plan from a ledger with an untagged VLAN of at most 257 writes such a ledger again, and the VLAN is no group's. |
| GroupsChains.Idempotent | internal/groups/plan.go:279-495 | Planning the same state from a plan's own result with its own ledger gives the same configs, ledger, untagged VLAN and issues, whenever the plan can be taken back. |
| GroupsChains.CleanIsReversible | internal/groups/plan.go:569-612 | On a device whose own sections keep away from the engine's names and whose borrowed options are plain, every successful plan can be taken back. |
| GroupsChains.StepReturns | internal/groups/plan.go:279-308 | One plan, successful or refused, leaves the place that undoing returns to where it was. |
| GroupsChains.ChainReturns | internal/groups/plan.go:279-308 | After any chain of plans undoing returns to the same configs. |
| GroupsChains.DroppingAllGroups | internal/groups/plan.go:301-308 | At the end of any chain a plan without VLANs gives exactly those configs and owns nothing but a kept conversion's VLAN. |
| GroupsChains.ChainNeverOutOfUntagged | internal/groups/plan.go:666-681 | Along any chain whose ledgers plans wrote, the no_untagged_vlan refusal never occurs. |
| GroupsChains.PatternIsEnough | internal/groups/plan.go:549-567 | On a clean device a plan's result undoes to the same configs with its ledger's list of names and, by the naming pattern, without it; so every next plan comes out the same. |
| GroupsResult.Frame | internal/groups/plan.go:569-612 | A plan keeps every section the old ledger does not own, in order and unchanged except dynamic_vlan on managed or ledger-listed interfaces and device on moved ones; every other section of the result is in the new owned list, which repeats nothing. |
| GroupsResult.OwnedListedOnce | internal/groups/plan.go:517-528 | The owned list of a plan names nothing twice. |
| GroupsResult.VlansCarried | internal/groups/plan.go:353-420 | Every requested VLAN has an interface section whose device is the bridge's VLAN with a bridge-vlan entry there (trunk tagged, or an issue says not), or a bridge of its own over an 802.1Q device on the trunk. |
| GroupsResult.StationsConnected | internal/groups/plan.go:433-495 | Every created wifi-station names a managed interface and a listed VLAN that has a wifi-vlan on that interface, whose network is that VLAN's interface section. |
| GroupsResult.OwnPassphraseNeedsMac | internal/groups/plan.go:450-485 | No created wifi-station without a MAC carries the own passphrase of the interface it names. |
| GroupsResult.StationServed | internal/groups/plan.go:450-485 | On each managed interface a requested station has an issue, or a created wifi-station for each of its MACs (one for everybody when it lists none). |
| GroupsLaws.StationsExactly | internal/groups/plan.go:450-485 | By passphrases alone, for every station, managed interface and MAC: a group passphrase is written unless it is the interface's own, which is reported; a binding gets the interface's own if that has 8 to 63 printable characters, else that is reported. |
| GroupsLaws.StationsOnly | internal/groups/plan.go:450-485 | Every wifi-station a plan creates is one of those. |
| GroupsLaws.SkippedOnly | internal/groups/plan.go:453-465 | Every report of a skipped station has one of the two reasons. |
| GroupsLaws.BindingKeysExactly | internal/groups/plan.go:460-467 | The binding keys are exactly the managed interfaces' own usable passphrases, once each, when some station has none of its own; group passphrases are none. |
| GroupsLaws.InterfacesExactly | internal/groups/plan.go:310-333 | Managed are exactly the wifi-ifaces in mode ap on a listed SSID, not disabled, with psk or sae encryption; those without, and anonymous ones, are reported, and no others. |
| GroupsLaws.DynamicVlanExactly | internal/groups/plan.go:422-431 | After a plan every managed interface has dynamic_vlan 1, and the ledger keeps what each that lacked it had; every other section of wireless is as undoing left it. |
| GroupsLaws.WifiVlanOnEach | internal/groups/plan.go:433-443 | Each VLAN has a wifi-vlan on each managed interface, with the VLAN's number and network. |
| GroupsLaws.AcceptedExactly | internal/groups/plan.go:179-277 | Exactly which requests are accepted: limits, VLANs 1 to 4094 once each, stations that name a listed VLAN and have a passphrase or MACs, MACs of six lower-case pairs, SSIDs of 1 to 32 bytes, a device name for the trunk. |
| GroupsNetwork.TrunkExactly | internal/groups/plan.go:339-347 | The trunk is the named port, or the detected one for "auto" and none. |
| GroupsNetwork.BridgeExactly | internal/groups/plan.go:615-627 | The trunk's bridge is the first device section of type bridge that lists the port. |
| GroupsNetwork.TaggedExactly | internal/groups/plan.go:653-664 | A port is tagged in an entry exactly when the list has it alone, or with flags without an u. |
| GroupsNetwork.VlanOnBridge | internal/groups/plan.go:378-394 | On the trunk's bridge: a VLAN that an entry is there for is reported and gets no other, a missing trunk in the first such entry is reported; any other VLAN gets one entry that lists the trunk tagged and nothing else. |
| GroupsNetwork.ConversionExactly | internal/groups/plan.go:666-705 | A bridge is converted exactly when the trunk is on one without any entry: `perch_bvu` lists every port untagged, exactly the interfaces on the bridge move to its VLAN and are recorded; otherwise the network sections and the conversion stay as they were. |
| GroupsNetwork.RefusedExactly | internal/groups/plan.go:279-386 | Exactly when a plan is refused with bad_params, no_managed_iface, trunk_unknown, untagged_vlan_conflict or conversion_conflict; bridge_empty never is, and a request without VLANs never refused. |
| GroupsPlanner.Planner.Add | internal/groups/plan.go:517-528 | Adds a section at the end and remembers its name, unless the name is taken; then only the first such name is remembered. |
| GroupsPlanner.AddTracks | internal/groups/plan.go:517-528 | Adding sections one by one meets a taken name exactly when the whole list clashes with the config or with itself. |
| GroupsPlanner.UndoInPlace | internal/groups/plan.go:569-612 | The in-place undo of both configs comes to the undo function, kept conversion included. |
| GroupsPlanner.PickUntagged | internal/groups/plan.go:666-676 | The counting loop stops at the untagged VLAN of the specification. |
| GroupsPlanner.MoveInPlace | internal/groups/plan.go:694-703 | Moving the bridge's interfaces in place changes exactly the device of those on the bare bridge and records their old devices. |
| GroupsPlanner.Convert | internal/groups/plan.go:666-705 | The conversion in place: its refusals, the untagged entry it adds and the interfaces it moves. |
| GroupsPlanner.MarkDynInPlace | internal/groups/plan.go:422-431 | Sets dynamic_vlan on exactly the managed interfaces that lack "1" and records what each had. |
| GroupsPlanner.FindManaged | internal/groups/plan.go:310-333 | The managed interfaces and the issues of the ones that are not, in order. |
| GroupsPlanner.AddStationOn | internal/groups/plan.go:450-485 | One station on one interface: its wifi-stations, its issue and the binding passphrases it adds, as specified. |
| GroupsPlanner.PlanNetworkInPlace | internal/groups/plan.go:353-420 | The network half in place comes to the specified network plan, its refusals and issues included. |
| GroupsPlanner.PlanWirelessInPlace | internal/groups/plan.go:422-495 | The wireless half in place comes to the specified sections, ledger entries, issues and binding passphrases. |
| GroupsPlanner.Plan | internal/groups/plan.go:277-495 | The planner on its cloned configs answers exactly what the plan function says, refusals included. |
| GroupsOwned.Owned | internal/groups/engine.go:560-605 | The sections, borrowed options and conversion of the confirmed ledger and of an open window, each listed once and in order. |
| GroupsOwned.ViewOfWindow | internal/groups/engine.go:560-605 | While a window is open: what either ledger lists, either's borrowed options, and the window's converted bridge before the confirmed one. |
| GroupsOwned.ViewOfIdle | internal/groups/engine.go:560-605 | Without one: what the confirmed ledger has. |
| GroupsOwned.UnlistedIsForeign | internal/groups/engine.go:542-564 | While a window is open, whatever is not listed is a section of the files as the window's apply found them, unchanged; only an interface that the apply moved or moved back has another device. |
| GroupsOwned.CreatedIsListed | internal/groups/engine.go:560-564 | Nothing an open window's plan created is missing from the list. |
| Psk.ParsePSKLine | internal/groups/psk.go:44-69 | The line reader's loop comes to the specified reading. |
| Psk.LineReadBack | internal/groups/psk.go:44-69 | A line of key=value fields, a MAC and a passphrase without outer blanks is read as exactly those, the VLAN of its last vlanid included. |
| Psk.ParsedKeyHasNoOuterBlanks | internal/groups/psk.go:44-69 | No passphrase that is read starts or ends with a blank. |
| Psk.CheckPSKFiles | internal/groups/psk.go:71-105 | Reports unsafe exactly when a readable PSK file has a line with the wildcard MAC and a bound passphrase. |
| Psk.UnsafeExactly | internal/groups/psk.go:71-105 | Over whole files, line by line: unsafe if and only if a readable file named hostapd-….psk has an entry whose MAC is all zeros and whose passphrase is bound; entries for one MAC, comments, blank lines and other files never are. |
| Psk.SafeMeansBound | internal/groups/psk.go:10-22 | When the check passes, no readable PSK file gives a bound passphrase without outer blanks to every client. |
| Psk.OuterBlanksAreMissed | internal/groups/psk.go:44-69 | The check never finds passphrases with a blank at an end, on whatever line. |
| Psk.CaughtExactlyWithoutOuterBlanks | internal/groups/psk.go:71-105 | For a valid passphrase on a wildcard line the check reports it if and only if it has no blank at either end. |
| EngineRuns.StepInv | internal/groups/engine.go:306-514 | Every operation, death, restart and edit keeps: an open window has its copies, its ledger and, unless an event tore it, its plan's files; the process's state is the saved one. |
| EngineRuns.RunInv | internal/groups/engine.go:306-514 | The same over every run. |
| EngineRuns.StepKeepsOpening | internal/groups/engine.go:309-318 | Nothing that leaves the window open changes its pending apply, its copies or the confirmed ledger and revision. |
| EngineRuns.RollbackRestores | internal/groups/engine.go:480-514 | Whatever happens while a window is open, deaths at any point of the apply or of a rollback and edits by others included, a rollback at its end leaves wireless and network as its apply read them and the confirmed ledger and revision untouched. |
| EngineRuns.FailedApplyRestores | internal/groups/engine.go:404-424 | An apply that fails to write or reload leaves both files, the ledger and the revision as they were, and no window. |
| EngineRuns.RollbackRestoresExactly | internal/groups/engine.go:480-514 | Which file a rollback restores, whether by a timer, an unsafe confirm or an overdue start: exactly those whose write went through (or that were unchanged). |
| EngineRuns.ConfirmKeepsPlan | internal/groups/engine.go:449-477 | A confirmed revision has the planned ledger and revision and passed the PSK check; its files are the planned ones unless the window is torn or others edited them. |
| EngineRuns.RunTorn | internal/groups/engine.go:403-424 | Over every run without edits by others, each file of an open window is its plan's or the one before, and both are the plan's if and only if no event tore the window. |
| EngineRuns.StepTornFacts | internal/groups/engine.go:403-514 | What one event does to the files of a window that stays open: plan files stay so if and only if the event does not die with a file unwritten, or already put back, that the plan changes; files that are not the plan's never become so. |
| EngineRuns.WindowHistory | internal/groups/engine.go:306-514 | For the window at the end of a run: the apply that opened it, on whose plan it rests, and that it is torn if and only if one of the events since tears it. |
| EngineRuns.ConfirmedRunsKeepPlan | internal/groups/engine.go:449-477 | Over every run without edits by others, a confirm keeps the ledger of the plan that its window's apply made, and the files of that plan if and only if no event since that apply dies with a file unwritten, or already put back, that the plan changes. |
| EngineRuns.KeptExactlyBy | internal/groups/engine.go:366-477 | The confirmed revision and ledger change in two ways only: by a confirm that passed the PSK check, and by an apply whose plan changes nothing. |
| EngineRuns.KeptAtOnceExactly | internal/groups/engine.go:366-376 | When an apply keeps its revision at once: exactly when nothing refuses it and the plan renders to the files that are there. |
| EngineRuns.KeptAtOnceUnchecked | internal/groups/engine.go:366-376 | Such an apply keeps revision and ledger, and opens no window, even when the PSK files hold a bound passphrase for everybody. |
| EngineRuns.ConfirmedIsBound | internal/groups/engine.go:449-477 | After a confirm no PSK file that was read gives one of the plan's bound passphrases (without outer blanks) to every client. |
| EngineLaws.BoundIsConfirmed | internal/groups/engine.go:449-477 | When no such entry is there a confirm of the open revision ends confirmed, with its ledger and revision, no window, timer or hold, and the rollback copies removed. |
| EngineLaws.OpenedIsRolledBack | internal/groups/engine.go:457-460 | When one is, it ends in a rollback that is remembered, the confirmed ledger and revision as before. |
| EngineRuns.RunKeptBy | internal/groups/engine.go:366-477 | Whenever a run changed the confirmed revision and ledger, one of its steps did so for good, and that step is such a confirm or such an apply. |
| EngineRuns.TornWindowConfirmed | internal/groups/engine.go:403-419 | A death between saving the window and writing the first config can end in a confirm that keeps the old files under the new ledger. |
| EngineRuns.DiedInRollbackConfirmed | internal/groups/engine.go:480-514 | A death inside a rollback can end in a confirm with one file restored. |
| EngineRuns.StepTimers | internal/groups/engine.go:188-200 | With revisions that are not reused, every armed timer of the open window's revision fires at its deadline. |
| EngineRuns.NoEarlyTimeout | internal/groups/engine.go:188-200 | With revisions that are not reused, no timer, however old, ends a window before its deadline. |
| EngineRuns.RunArmed | internal/groups/engine.go:164-200 | Over every run, an open window of a live process has its timer armed for its own revision and deadline. |
| EngineRuns.UnconfirmedEnds | internal/groups/engine.go:164-200 | Nobody has to confirm: after any run, once an open window's deadline has passed, its own timer or, after a death, the next start closes it, with both files as its apply found them and the confirmed state as it was. |
| EngineLaws.WindowExactly | internal/groups/engine.go:386-395 | A window is the requested time within 30 and 600 seconds, 120 when none is requested. |
| EngineLaws.OpenedWindow | internal/groups/engine.go:386-400 | A window an apply opens has its revision, that deadline, and says whether the network changes. |
| EngineLaws.ApplyWhileOpen | internal/groups/engine.go:309-314 | While a window is open the same revision is answered again and any other refused with groups_pending; nothing is written. |
| EngineLaws.ApplyRefused | internal/groups/engine.go:315-345 | The order of the other refusals, none of which changes anything: bad request, taken lock, LuCI apply, uncommitted changes, unreadable config. |
| EngineLaws.ConfirmOfAnother | internal/groups/engine.go:451-456 | A confirm of a revision that is not open changes nothing, and is fine exactly when no window is open and it is the confirmed one. |
| EngineDrift.RunsDoNotDrift | internal/groups/engine.go:306-514 | Over every run whose restores can be written, without edits by others and without confirming a partly written window, both ends of an open window and every idle device are one undo away from the same configs. |
| EngineDrift.NoGroupsReturns | internal/groups/engine.go:306-430 | On an idle device at the end of such a run a request for no groups plans exactly those configs. |
| EngineDrift.UntouchedDeviceReturns | internal/groups/engine.go:131-187 | From a device the engine never touched, after any such run a request for no groups plans its original configs, section for section. |
| EngineDrift.RepeatedIsKeptAtOnce | internal/groups/engine.go:366-376 | On an idle device that holds the files and ledger of a plan that can be taken back, the same request under any revision and confirm time is kept at once and changes nothing but the revision. |
| EngineDrift.ConfirmedThenRepeated | internal/groups/engine.go:366-477 | After every unspoiled run on a clean device that ends in a confirm, the confirmed state asked for again is kept at once, so without a check. |
| EngineRepeat.SomeRepeatIsUnchecked | internal/groups/engine.go:366-376 | One such device in full: an access point, one bound station, its plan, and a second revision that is kept although hostapd's file gives the bound passphrase to every client. |
| Engine.Engine.RollbackLocked | internal/groups/engine.go:480-514 | The rollback method leaves disk, process and lock as the operation on values says, dying at any write. |
| Engine.Engine.Apply | internal/groups/engine.go:305-430 | The apply method likewise: repeats, refusals, the no-op, the copies, the window, the writes and the rollback on failure. |
| Engine.Engine.Confirm | internal/groups/engine.go:447-477 | The confirm method likewise, with the PSK check before it keeps anything. |
| Engine.Engine.TimerFired | internal/groups/engine.go:188-200 | The timer's function rolls back exactly the window of its revision. |
| Engine.Engine.Start | internal/groups/engine.go:164-187 | At start an overdue window is rolled back, another is armed again and the lock is taken if it is free. |
| WriteLock.Lock.TryAcquire | internal/applylock/applylock.go:95-110 | Never waits: a free lock goes to a new hold, a taken one is refused with its holder and stays. |
| WriteLock.Release | internal/applylock/applylock.go:151-162 | Frees the lock exactly when this hold still has it. |
| LockWriters.Updater.Install | internal/update/update.go:216-231 | Lock first: busy answers name the holder; a failed install frees the lock, a started one keeps it. |
| LockWriters.BusyExactly | internal/update/update.go:233-244 | Another update is busy, any other writer's change busy_pending_apply, with that writer's reason. |
| LockWriters.OverExactly | internal/update/update.go:279-280 | A plan is over when it ended and when it cannot be read. |
| LockWriters.Updater.Startup | internal/update/update.go:246-262 | Takes the lock exactly for a plan in progress. |
| LockWriters.Updater.ReleaseWhenDone | internal/update/update.go:273-293 | Frees the hold at the first look that says the plan is over, and never another's hold. |
| LockWriters.PlaneLock.Acquire | internal/wifiplane/wifiplane.go:500-511 | The plane's lock: taken and remembered, or refused with the holder's reason. |
| LockWriters.PlaneLock.ReleaseHold | internal/wifiplane/wifiplane.go:513-519 | Frees the lock only if the plane's hold still has it, and forgets the hold. |
| LockProtocol.StepInv | internal/applylock/applylock.go:98-162 | Every step of any writer, every start stage and every death keeps the protocol's invariant: one window at most, held by its writer once it started, and no start that finds the lock taken. Only a start that switches device groups off while a groups window is open is excepted. |
| LockProtocol.RunsExclude | cmd/perch-apd/main.go:449-485 | The same over every run without such a start. |
| LockProtocol.OneWriterAtATime | cmd/perch-apd/main.go:449-485 | From any device before its start, with device groups on or off: two open windows are one writer's, that writer holds the lock once started, and no start found the lock taken. |
| LockProtocol.GroupsOffForGood | internal/config/config.go:119 | A device whose groups are off, with no groups window open, never makes such a start however long they stay off: the shipped default. |
| LockProtocol.GroupsSwitchedOff | cmd/perch-apd/main.go:458-485 | Every start without device groups while a groups window is open lets the plane open a window beside it, and switching groups on again finds the lock taken. |
| LockProtocol.OneWindowExactly | cmd/perch-apd/main.go:458-485 | A step leads to one window at a time in every continuation if and only if it does not switch groups off while a groups window is open. |
| LockSteps.EngineFollows | internal/groups/engine.go:306-514 | Every apply, confirm, timer, death and start of the engine is a run of the protocol's steps on the same window, hold and process, so it keeps the protocol's invariant. |
| LockSteps.EngineAmongWriters | cmd/perch-apd/main.go:449-485 | Those events mixed with the other writers' steps in any order: no second window beside the engine's, a live engine's window has the lock, and no start finds the lock taken. |
| LockSteps.Install | internal/update/update.go:216-231 | The updater's install, on its object and the lock object, is the protocol's begin and end of an install. |
| LockSteps.Startup | internal/update/update.go:246-262 | The updater's startup is the protocol's. |
| LockSteps.Watch | internal/update/update.go:273-293 | One look of the updater's watcher is the protocol's poll. |
| LockSteps.Acquire | internal/wifiplane/wifiplane.go:500-511 | The plane's acquire is the protocol's begin, and succeeds if and only if the lock is free. |
| LockSteps.ReleaseHold | internal/wifiplane/wifiplane.go:513-519 | The plane's release is the protocol's. |
| UciText.Tokenize | internal/uci/uci.go:276-340 | The tokenizer's loops come to the specified words of a line, or none for an unterminated quote. |
| UciSpelling.LineRead | internal/uci/uci.go:276-340 | However a line spells its words, in bare, single-quoted, double-quoted and escaped pieces, with any blanks between and a comment behind, the words are the pieces' values. |
| UciSpelling.DoubleQuotedPiece | internal/uci/uci.go:305-325 | A double-quoted value adds exactly itself to the word, its quotes and backslashes behind backslashes. |
| UciSpelling.PieceRead | internal/uci/uci.go:297-333 | Each kind of piece adds its value, and a backslash the character behind it, whichever it is. |
| UciSpelling.Unclosed | internal/uci/uci.go:299-324 | A quote of either kind that is not closed makes the line none. |
| UciSpelling.LastBackslash | internal/uci/uci.go:326-333 | A backslash that ends the line stands for itself. |
| TextLaws.FieldsCut | internal/groups/plan.go:168-176 | A string read as a list is cut at white space of any kind, and only there. |
| TextLaws.FieldsOfJoin | internal/groups/plan.go:161-176 | Words joined with blanks are those words again. |
| TextLaws.ValueForms | internal/groups/plan.go:161-176 | A list option read as one string and split again is the list; a string option read as a list is its words. |
| TextLaws.StringOrder | internal/groups/plan.go:453 | Names sort by the first byte they differ in, a prefix first. |
| TextLaws.ToLowerExactly | internal/groups/psk.go:62 | Lower case, letter by letter. |
| TextLaws.TrimSpaceOf | internal/groups/psk.go:45 | Trimming takes white space off both ends and nothing else. |
| UciText.QuotedPiece | internal/uci/uci.go:257-262 | A quoted value adds exactly itself to the word being read, whatever it holds. |
| UciText.OptionReadsBack | internal/uci/uci.go:161-195 | An option line as Set writes it reads back as its name and its value, whatever the value. |
| UciText.ConfigReadsBack | internal/uci/uci.go:144-159 | A section line as EnsureSection writes it reads back as its type and name, for types that need no quotes. |
| UciFile.ParsedIsCoherent | internal/uci/uci.go:46-92 | What Parse holds is what its lines say. |
| UciSpelling.GetAnswers | internal/uci/uci.go:46-130 | Get answers the value of the first line of the option in the first section of the name, however both are spelled. |
| UciSpelling.DoubleQuotedGet | internal/uci/uci.go:46-130 | From the file's bytes: a double-quoted value is answered as what stands between the quotes. |
| UciSpelling.GetListAnswers | internal/uci/uci.go:46-142 | GetList answers the values of the list's lines in the first section of the name, in file order. |
| UciSpelling.CrLfIsLf | internal/uci/uci.go:47-56 | A file with DOS line ends is parsed as the same file without. |
| UciSpelling.BeforeAnySection | internal/uci/uci.go:72-86 | Options and lists before any section belong to none. |
| UciFile.ReadsBackExactly | internal/uci/uci.go:213-221 | Writing a file and parsing it again gives the same lines, sections, keys and values, if and only if no line holds a newline or ends in a carriage return and the file is not one empty line. |
| UciFile.SetCoherent | internal/uci/uci.go:161-195 | After Set the lines still say what the file holds. |
| UciFile.DeleteCoherent | internal/uci/uci.go:197-211 | After Delete the lines still say what the file holds. |
| UciFile.EnsureCoherentExactly | internal/uci/uci.go:144-159 | After EnsureSection the lines say what the file holds exactly when the new header reads back. |
| UciFile.HeaderReadsBackExactly | internal/uci/uci.go:144-159 | For a type without quotes and backslashes the new header reads back if and only if the type is one bare word, or type and name are both empty. |
| UciFile.CarriageReturnIsLost | internal/uci/uci.go:46-92 | A parsed file whose line ends in a carriage return is another file once written. |
| UciFile.BlankTypesDoNot | internal/uci/uci.go:144-159 | A section type with a blank in it is not read back. |
| UciEdits.GetIsFirst | internal/uci/uci.go:118-130 | Get answers the option's first value in the section, if there is one. |
| UciEdits.SetOnlySets | internal/uci/uci.go:161-195 | Set replaces the option's first value, or adds it, and leaves every other line as it is, in order. |
| UciEdits.SetRefused | internal/uci/uci.go:163-171 | Set is refused exactly for an option name that is empty or has a character beside letters, digits and underscores, and for a section that is not there. |
| UciEdits.InsertExactly | internal/uci/uci.go:172-194 | A new option goes right behind the latest option or list line of its section; behind the header of one that has none. |
| UciEdits.SetReadBack | internal/uci/uci.go:161-195 | Set is read back by Get for any value, and every other option and list reads as before. |
| UciEdits.DeleteLeavesTheRest | internal/uci/uci.go:197-211 | After Delete the option is gone, every line of it, and every other option and list reads as before. |
| UciEdits.DeleteUndoesSet | internal/uci/uci.go:161-211 | Deleting takes back a Set of an option that was not there, line for line. |
| UciEdits.EnsureSectionAdds | internal/uci/uci.go:144-159 | Afterwards the section exists (empty if it is new), older lines are a prefix and older values read as before. |
| UciEdits.NewSectionLast | internal/uci/uci.go:145-158 | A new section's header comes last, behind an empty line unless the file is empty or ends in a blank one. |
| UciEdits.EditedFileReadsBack | internal/uci/uci.go:46-221 | A file parsed from any text without carriage returns and edited any number of times (sections that read back, values without newlines) is parsed again as exactly itself. |
| UciEdits.SetSurvivesExactly | internal/uci/uci.go:161-221 | A Set survives writing and parsing if and only if its value has no newline. |
| UciEditor.File.Parse | internal/uci/uci.go:46-92 | The parse loop builds exactly the specified lines and sections. |
| UciEditor.File.Get | internal/uci/uci.go:118-130 | The lookup loop answers the specified value. |
| UciEditor.File.GetList | internal/uci/uci.go:132-142 | The loop answers the list's values in file order. |
| UciEditor.File.EnsureSection | internal/uci/uci.go:144-159 | In place, exactly the specified file. |
| UciEditor.File.Set | internal/uci/uci.go:161-195 | In place, exactly the specified file or error. |
| UciEditor.File.Delete | internal/uci/uci.go:197-211 | In place, exactly the specified file. |
| UciEditor.File.Bytes | internal/uci/uci.go:213-221 | Every line followed by a newline. |
| Utf8.DecodeOfEncode | internal/agent/push.go:92 | Decoding an encoded scalar value gives it back with its size, whatever follows. |
| Utf8.EncodeOfDecode | internal/agent/push.go:92-94 | Bytes that decode without error are the encoding of their rune. |
| Utf8.ValidExactly | internal/agent/push.go:61-65 | Valid UTF-8 is exactly the concatenated encodings of scalar values. |
| JsonEscape.AppendJSONString | internal/agent/push.go:66-109 | The lagging-start loop appends exactly the rune-by-rune escape, in quotes. |
| JsonEscape.RoundTrip | internal/agent/push.go:61-109 | For every byte string the output is valid UTF-8 and one JSON string, and reading it yields the input's runes with each invalid byte as U+FFFD. |
| JsonEscape.RoundTripOfValid | internal/agent/push.go:61-109 | Valid UTF-8 comes back byte for byte. |
| JsonEscape.EscapeRuneExactly | internal/agent/push.go:70-98 | Which runes are escaped and how: quote and backslash behind a backslash, \n, \r and \t, other control characters and the two line separators as \u, every other rune as it is. |
| JsonEscape.OutputIsSafe | internal/agent/push.go:61-65 | The output has no control character and neither line separator. |
| JsonEscape.PlainTextAsIs | internal/agent/push.go:61-65 | Valid text without those characters goes out byte for byte. |
| HealthExpect.ConfigExpectsExactly | internal/wifiplane/health.go:245-282 | Without a list exactly the enabled access points with an enabled radio must run, on those radios and with their SSID, and exactly those radios. |
| HealthLaws.ConfigExpects | internal/wifiplane/health.go:245-282 | In the config's options: expected are exactly the wifi-ifaces in mode ap or none, not disabled, that list a wifi-device that is not disabled; each with its own ssid and exactly those devices; and exactly those radios. |
| HealthLaws.EnabledExactly | internal/wifiplane/health.go:231-238 | Disabled is 1, on, true, yes or enabled in any case, blanks around it aside. |
| HealthLaws.ListedExpects | internal/wifiplane/health.go:283-298 | A listed section beside those must run with the config's ssid on all its devices; one the config does not know with any SSID. |
| HealthExpect.ListOnlyAdds | internal/wifiplane/health.go:283-298 | The controller's list keeps all that the config expects, as it expects it, and adds exactly the listed sections. |
| HealthExpect.ExpectationClosed | internal/wifiplane/health.go:278-297 | Every radio of an expected BSS is expected. |
| HealthExpect.Compute | internal/wifiplane/health.go:247-299 | The loops over sections and lists compute the specified expectation. |
| Health.OkExactly | internal/wifiplane/health.go:437-441 | Nothing is counted exactly when the status was readable and each expected radio and BSS runs or was broken before; nothing that lasts exactly when the rest is on its way. |
| HealthLaws.PendingExactly | internal/wifiplane/health.go:437-441 | On its way exactly when each expected radio and section runs, was broken before, or is being set up or scanning. |
| HealthLaws.ProblemsExactly | internal/wifiplane/health.go:316-436 | Code by code: what a report lists of each expected radio and section, and whether it was broken before. |
| HealthLaws.RadarExactly | internal/wifiplane/health.go:415-427 | A radar check is listed for exactly the radios an expected section waits for. |
| HealthLaws.WaitExactly | internal/wifiplane/health.go:405-414 | The wait is the longest of the new radar checks' seconds left and 15 more, 0 without one. |
| Health.OkIsMonotone | internal/wifiplane/health.go:301-305 | More known as broken, or less expected, never turns ok into not ok. |
| Health.ExtendIsTheLongest | internal/wifiplane/health.go:405-414 | The wait is the longest new radar check's seconds left plus 15, and 0 without one. |
| Health.ListedExactly | internal/wifiplane/health.go:316-436 | The report lists exactly the unreadable status, each expected radio that does not run and each expected BSS that does not (radar checks aside). |
| Health.RadarListedOnce | internal/wifiplane/health.go:415-427 | A radar check is listed once for each radio an expected BSS waits for, and for no other. |
| Health.ReportedIs | internal/wifiplane/health.go:540-548 | Which sections a first report lists under the codes that are recorded. |
| Health.BaselineJudgesItself | internal/wifiplane/health.go:529-559 | Judged again against what was recorded, nothing lasting is counted, and all is well exactly when every expected BSS in a radar check or channel scan has a radio that does not run. |
| HealthCheck.ProblemTally.Add | internal/wifiplane/health.go:444-464 | Lists every problem, counts the new ones and marks those that last. |
| HealthCheck.JudgeBss | internal/wifiplane/health.go:371-436 | One BSS of the loop, its one problem per radio in a radar check included. |
| HealthCheck.Evaluate | internal/wifiplane/health.go:305-442 | ok exactly when healthy, pending exactly when not healthy but on its way, the problems and the wait as specified. |
| HealthCheck.HealthBefore | internal/wifiplane/health.go:529-559 | Records exactly the expected radios that do not run, other radios netifd gave up on, and the expected BSSes that neither run nor scan; nothing with the status unreadable. |
| HealthCheck.Check | internal/wifiplane/health.go:503-527 | An apply passes exactly when its config was read and everything that config and list expect runs or was broken before. |
| HealthLaws.PassesExactly | internal/wifiplane/health.go:503-527 | End to end without a list: passing means the status was read, each such section of the config is ENABLED with its own ssid, and each of its radios is up, or they were broken before; and the reverse. |
| HealthLaws.PassesOnlyIf | internal/wifiplane/health.go:503-527 | With any list, passing implies the same. |
| HealthCheck.UnchangedIsKept | internal/wifiplane/health.go:529-559 | An apply that changes nothing always is at least on its way, and passes unless a scan is under way on running radios only. |
| HealthCheck.ListNeverHelps | internal/wifiplane/health.go:283-298 | What passes with a controller's list passes without it. |
| Monitor.SignatureEmpty | internal/wifiplane/monitor.go:53-66 | The signature is empty exactly when no listed problem counts. |
| Monitor.Lasting | internal/wifiplane/monitor.go:53-66 | The loop filters exactly the problems that count and joins their sorted keys. |
| MonitorLaws.SignatureExactly | internal/wifiplane/monitor.go:53-66 | For section names without comma and at sign, two signatures are equal if and only if the same problems count: code by code and section by section, as often. |
| Monitor.Monitor.Tick | internal/wifiplane/monitor.go:68-108 | One look changes the state and sends a notification exactly as specified. |
| Monitor.SentIsSteady | internal/wifiplane/monitor.go:87-99 | Every notification reports a signature seen at every look for at least 29 seconds, watched all that time and in one session. |
| Monitor.ConsecutiveDiffer | internal/wifiplane/monitor.go:92-106 | Two notifications in a row in one session never carry the same signature. |
| Monitor.SteadyIsReported | internal/wifiplane/monitor.go:12-19 | A state that was steady for the time is the session's last report after the next look that can send. |
| MonitorLaws.ChangeIsSent | internal/wifiplane/monitor.go:87-106 | A change is not missed: after a report, once other problems were steady for 29 seconds in that session and a look can send, a notification was sent whose problems are exactly the ones that count. |
| MonitorLaws.SentExactly | internal/wifiplane/monitor.go:87-106 | What is sent counted in the same way at every look for 29 seconds, in one session. |
| Monitor.HealthNow | internal/wifiplane/monitor.go:80 | The judgement without a baseline, a config that cannot be read being a problem. |
| Monitor.NotifiedOkExactly | internal/wifiplane/monitor.go:53-66 | A notification says ok exactly when config and status could be read, every expected radio runs and every expected BSS runs or scans. |
| Leds.AttrsRestored | internal/leds/leds.go:254-271 | Writing an LED's settings in the restore order gives the saved ones, whatever naming the device resets. |
| Leds.LedRestored | internal/leds/leds.go:254-275 | Restoring an LED from any state gives the trigger, settings and (without a trigger) brightness it had. |
| Leds.AllRestored | internal/leds/leds.go:144-150 | Restoring what describes the LEDs brings every one back from any state and removes the file. |
| Leds.SnapDescribes | internal/leds/leds.go:198-241 | What is read from LEDs describes them. |
| Leds.StepKeeps | internal/leds/leds.go:87-182 | Every operation, done or cut off by a death after any write, keeps: the LEDs are back, or the state file holds them as they were; only a Start that overwrites the file while an LED is not back is excepted. |
| Leds.LedsComeBack | internal/leds/leds.go:87-182 | Over any mix of starts, restarts, stops, timers of any age, deaths and recoveries that can read the file: blinking LEDs have their earlier state in the file and a timer armed, and when idle every LED is as it was at first. |
| Leds.LedsComeBackExactly | internal/leds/leds.go:87-182 | Over all runs, starts that cannot read the file included: the LEDs can be brought back at every point if and only if no Start overwrites the file while an LED is not back. |
| Leds.LostExactly | internal/leds/leds.go:98-115 | Which step loses the LEDs: exactly such a Start, and only a process that skipped its recovery comes to it. |
| Leds.LossShows | internal/leds/leds.go:134-182 | After such a Start the end of the blink, or the recovery after a death, leaves the locator idle with an LED not back. |
| Leds.StartShows | internal/leds/leds.go:101-115 | After a successful Start every LED that takes the timer blinks at the locate rate and every other is as it was. |
| Leds.GenGrows | internal/leds/leds.go:119-122 | Within one process the blink number never goes back. |
| Leds.StaleTimerIsHarmless | internal/leds/leds.go:134-139 | A timer or Stop of an earlier blink does nothing once a later Start succeeded. |
| Leds.ArmedTimerEnds | internal/leds/leds.go:122 | The armed timer of a blink ends it with every LED back and the file removed. |
| Leds.SkippedRecoveryLosesTheState | cmd/perch-apd/main.go:442-446 | On every device with an LED that takes the timer: blink, die, start without reading the file, blink and end leaves the locator idle with an LED not back. |
| Leds.SkippedRecovery | internal/leds/leds.go:165-171 | A start that cannot read the file, one blink and its end leave every LED back if and only if every LED was back before. |
| Leds.AnswerExactly | internal/leds/leds.go:101-123 | The number of saved LEDs, which Start answers, is the number of those that blink if and only if every one takes the timer. |
| Locator.CollectAttrs | internal/leds/leds.go:259-268 | Sorting with the device name first gives the restore order. |
| Locator.Locator.Start | internal/leds/leds.go:87-124 | Writes exactly the specified sequence, changes its fields as specified, and answers the number of saved LEDs. |
| Locator.Locator.End | internal/leds/leds.go:134-157 | A timer's or Stop's end: the specified writes for its own blink, nothing for another. |
| Locator.Locator.Stop | internal/leds/leds.go:126-132 | Ends the blink there is, if any. |
| Locator.Locator.RecoverStale | internal/leds/leds.go:158-182 | The specified writes and answer for a missing, unreadable, torn or saved state file. |
| ManagementRadios.Find | internal/wificaps/mgmt.go:78-111 | Terminates on cyclic links and answers, sorted and each once, exactly the radios of wireless devices at most five links below the route's device, through devices that are not wireless, that are that device or an uplink. |
| ManagementRadios.CarriesExactly | internal/wificaps/mgmt.go:43-77 | Which wireless devices count: the route's own, and stations, mesh points and WDS links as nl80211 says, or netifd for one it does not know; on netifd's radio for it, else its phy's. |
| ManagementRadios.LinksExactly | internal/wificaps/mgmt.go:98-103 | What is below a device: its lower_ entries and its bridge ports. |
| ManagementRadios.LevelDone | internal/wificaps/mgmt.go:83-106 | One level keeps: what is seen or queued is exactly what is within that many links. |
| ManagementRadios.SeenAll | internal/wificaps/mgmt.go:83-106 | When the search ends it has seen exactly the devices within five links. |
| ManagementRadios.BoundCounts | internal/wificaps/mgmt.go:83 | A device six links down, on the only path, is not reached. |
| Averages.RunningBetween | internal/collect/wifi.go:72-89 | The running average lies between the smallest and the largest value. |
| Averages.RunningNearSum | internal/collect/wifi.go:72-89 | n times the average of n values differs from their sum by at most n(n-1)/2. |
| Averages.SignalsRoundUp | internal/collect/wifi.go:77 | For signals that are not positive the truncation only ever raises the average. |
| Averages.BoundReached | internal/collect/wifi.go:77 | Both bounds on the difference are reached at every length. |
| Averages.StationStep | internal/collect/wifi.go:72-84 | Only stations that report a signal, or a rate, add one to the average. |
| Averages.IwinfoAverages | internal/collect/wifi.go:72-89 | The loop answers the running averages of the reported signals and of the reported rates in kbit/s. |

## Left out

* The config library, the update and Wi-Fi plane kits, ubus, netlink, sysfs and file I/O: not
  part of this model. Files are values that are replaced atomically, the locator's state file
  excepted (a write of it can tear).
* Wall-clock time is an integer given to each step; the locator's end time is not modelled.
* Messages of problems and refusals, file modes, logging, JSON marshalling of saved states.
* The health report's rows (radios, BSSes, channels, radar checks): only its problems, verdict
  and wait. `gather`, which asks netifd and hostapd, is the input `RunState`.
* Unicode white space and Unicode case in trimming and comparing.
* The trunk detection and the order of `State`'s report; PlanNetwork takes the detected port.
* `pushParams` and `appendPorts`, which concatenate around the escaper.
* `iwinfoQualityPercent`: one expression by cases with floating-point rounding.
* Reading nl80211 and netifd for the uplink search: its maps are the input `Net`.
* ReleaseWhenDone: a plan that cannot be read counts as over, as in the code; the lock theorems
  assume it can be read while open, because otherwise the hold is freed early.
* LockProtocol: the plane's and the updater's own windows are single flags; LockSteps ties their
  lock operations to the steps, not the kits' persisted writes.
* The lock's Current and Busy, which only report.
* HeaderReadsBackExactly: section types that hold quotes or backslashes themselves; for these
  EnsureCoherentExactly speaks of the header's words.
* Leds: LEDs that appear, disappear or are written by others between two operations.
* A second process that runs at the same time.
