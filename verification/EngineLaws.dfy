/** What single operations of the engine answer and leave, in the words of a caller. */
module EngineLaws {
  import opened Wrappers
  import opened UciConfig
  import opened GroupsPlan
  import opened Psk
  import opened EngineModel
  import opened EngineRuns

  // ---- the confirm window ----

  /** The window is the time asked for, within 30 and 600 seconds; 120 when none is asked. */
  lemma {:induction false} WindowExactly(seconds: int)
    ensures 30 <= ConfirmWindow(seconds) <= 600
    ensures 30 <= seconds <= 600 ==> ConfirmWindow(seconds) == seconds
    ensures seconds == 0 ==> ConfirmWindow(seconds) == 120
    ensures seconds != 0 && seconds < 30 ==> ConfirmWindow(seconds) == 30
    ensures seconds > 600 ==> ConfirmWindow(seconds) == 600
  {
  }

  /** A window that an apply opens: its revision, its time, and whether the network changes. */
  lemma {:induction false} OpenedWindow(s: Sys, e: Event)
    requires Inv(s) && e.EApply? && !Open(s) && Open(Step(s, e))
    ensures var w, o := Step(s, e).disk.state.pending.value, Step(s, e).opening;
            && w.revision == e.d.revision
            && e.scene.now + 30 <= w.deadline <= e.scene.now + 600
            && (e.d.confirmSeconds == 0 ==> w.deadline == e.scene.now + 120)
            && (30 <= e.d.confirmSeconds <= 600 ==> w.deadline == e.scene.now + e.d.confirmSeconds)
            && o.Some? && (w.network <==> Parsed(o.value.planned.n) != s.disk.network)
            && w.ledger == o.value.planned.ledger && w.bindingKeys == o.value.planned.bindingKeys
  {
    StepFacts(s, e);
    WindowExactly(e.d.confirmSeconds);
    hide ConfirmWindow, Tears, PlanAt, PlanFor, HoldsPlan;
  }

  // ---- the answers ----

  /** While a window is open nothing is applied: the same revision is answered again, any other
      is refused, whatever else is asked; nothing is written. */
  lemma {:induction false} ApplyWhileOpen(disk: Disk, p: Process, d: Desired, scene: Scene, luck: ApplyLuck)
    requires p.st.pending.Some?
    ensures var a := Apply(disk, p, d, scene, luck);
            && a.disk == disk && a.process == Some(p)
            && (d.revision == p.st.pending.value.revision ==> a.outcome == Repeated)
            && (d.revision != p.st.pending.value.revision ==> a.outcome == Refused(Busy("groups_pending")))
  {
    hide PlanFor, Valid;
  }

  /** In this order: a bad request, a taken lock, a LuCI apply, uncommitted changes. */
  lemma {:induction false} ApplyRefused(disk: Disk, p: Process, d: Desired, scene: Scene, luck: ApplyLuck)
    requires p.st.pending.None?
    ensures var a := Apply(disk, p, d, scene, luck);
            && (!Valid(d) ==> a == After(disk, Some(p), Refused(BadParams)))
            && (Valid(d) && scene.lockReason.Some? ==> a == After(disk, Some(p), Refused(Busy(scene.lockReason.value))))
            && (Valid(d) && scene.lockReason.None? && scene.luciPending ==> a == After(disk, Some(p), Refused(Busy("luci_pending"))))
            && (Valid(d) && scene.lockReason.None? && !scene.luciPending && scene.uncommitted ==>
                  a == After(disk, Some(p), Refused(Uncommitted)))
            && (Valid(d) && scene.lockReason.None? && !scene.luciPending && !scene.uncommitted ==>
                  disk.wireless.Garbled? || disk.network.Garbled? ==> a == After(disk, Some(p), Refused(ConfigUnreadable)))
  {
    hide Valid, Plan;
  }

  /** A confirm of a revision that is not open changes nothing: it is fine when that revision is
      the confirmed one and no window is open, else refused. */
  lemma {:induction false} ConfirmOfAnother(disk: Disk, p: Process, revision: int, files: Option<seq<PskFile>>, luck: ConfirmLuck)
    requires p.st.pending.None? || p.st.pending.value.revision != revision
    ensures var a := Confirm(disk, p, revision, files, luck);
            && a.disk == disk && a.process == Some(p)
            && (a.outcome == Idle <==> p.st.pending.None? && p.st.applied == revision)
            && (a.outcome != Idle ==> a.outcome == Refused(NotPending))
  {
  }

  // ---- confirm and the PSK files ----

  /** Every binding's passphrase is for its own MACs only: no entry for every client has one. */
  ghost predicate WellBound(files: seq<PskFile>, lines: seq<seq<PskLine>>, keys: seq<string>) {
    && |files| == |lines|
    && (forall i | 0 <= i < |files| && files[i].content.Some? :: Holds(files[i], lines[i]))
    && (forall i, j | 0 <= i < |files| && 0 <= j < |lines[i]| && files[i].content.Some? && OfHostapd(files[i]) ::
          !OpensBound(lines[i][j], keys))
  }

  lemma {:induction false} WellBoundIsSafe(files: seq<PskFile>, lines: seq<seq<PskLine>>, keys: seq<string>)
    requires WellBound(files, lines, keys)
    ensures !Unsafe(Some(files), keys)
  {
    hide Holds, OfHostapd, OpensBound, UnsafeFile;
    UnsafeExactly(files, lines, keys);
  }

  /** So a confirm of the open revision on such files is kept: applied with its ledger and no
      window left, when its save and removals do not die. */
  lemma {:induction false} BoundIsConfirmed(disk: Disk, p: Process, files: seq<PskFile>, lines: seq<seq<PskLine>>, luck: ConfirmLuck)
    requires p.st.pending.Some? && WellBound(files, lines, p.st.pending.value.bindingKeys)
    requires luck.save.Done? && !luck.removeWireless.Die? && !luck.removeNetwork.Die?
    ensures var w := p.st.pending.value;
            var a := Confirm(disk, p, w.revision, Some(files), luck);
            && a.outcome == Confirmed && a.process.Some? && a.disk.state == a.process.value.st
            && a.disk.wireless == disk.wireless && a.disk.network == disk.network
            && a.disk.state.applied == w.revision && a.disk.state.ledger == w.ledger && a.disk.state.pending == None
            && a.process.value.timer == None && !a.process.value.holds
            && a.disk.rbWireless == (if luck.removeWireless.Done? then None else disk.rbWireless)
            && a.disk.rbNetwork == (if luck.removeNetwork.Done? then None else disk.rbNetwork)
  {
    WellBoundIsSafe(files, lines, p.st.pending.value.bindingKeys);
    hide Unsafe, WellBound;
  }

  /** And one entry for every client with a bound passphrase ends it by a rollback, which is
      remembered as the last one. */
  lemma {:induction false} OpenedIsRolledBack(disk: Disk, p: Process, files: seq<PskFile>, lines: seq<seq<PskLine>>, luck: ConfirmLuck, i: nat, j: nat)
    requires p.st.pending.Some? && |files| == |lines| && i < |files| && j < |lines[i]|
    requires forall k | 0 <= k < |files| && files[k].content.Some? :: Holds(files[k], lines[k])
    requires files[i].content.Some? && OfHostapd(files[i]) && OpensBound(lines[i][j], p.st.pending.value.bindingKeys)
    requires !luck.back.wireless.Die? && !luck.back.network.Die? && luck.back.save.Done?
    ensures var w := p.st.pending.value;
            var a := Confirm(disk, p, w.revision, Some(files), luck);
            && a.outcome.RolledBack? && a.disk.state.pending == None
            && a.disk.state.lastRollback == Some(w.revision) && a.disk.state.applied == p.st.applied && a.disk.state.ledger == p.st.ledger
  {
    UnsafeExactly(files, lines, p.st.pending.value.bindingKeys);
    hide Unsafe, Holds, OfHostapd, OpensBound;
  }
}
