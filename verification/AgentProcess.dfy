/** The agent's handlers as the program runs them, on fields it updates in place.  Each handler is a
sequence of steps of the machine, so what is proved of every run of the machine holds of every
sequence of handler calls, wherever a crash cuts one short. */
module AgentProcess {
  import opened Order
  import opened Config
  import opened Apply
  import opened AgentMachine
  import Nodes

  /** Adding one possible act to a sequence adds its effect. */
  lemma ExecOneMore(rmcs: RMCs, m: Machine, acts: seq<Act>, mid: Machine, act: Act)
    requires Exec(rmcs, m, acts) == Some(mid) && AgentMachine.Enabled(rmcs, mid, act)
    ensures Exec(rmcs, m, acts + [act]) == Some(Next(rmcs, mid, act))
  {
    ExecAppend(rmcs, m, acts, [act]);
    ExecOne(rmcs, mid, act, []);
    assert [act] + [] == [act];
  }

  /** The startup check as the program takes it, part by part. */
  function CheckedStart(m: Machine, readOk: bool, clearOk: bool, told: bool): Machine
  {
    if !readOk then m
    else
      var m1 := m.(rebootPending := m.rebootPending && !SeesReboot(m, clearOk));
      (if SeesReboot(m, clearOk) && m.desired != "" && told then SetDone(m1, m.desired) else m1).(bootMarker := true)
  }

  /** The acts of a startup: the check, and the report if the awaited reboot is seen to have happened. */
  function StartActs(m: Machine, readOk: bool, clearOk: bool, told: bool, idleOk: bool): seq<Act>
  {
    if readOk && m.rebootPending && m.lastReboot.Some? && !m.bootMarker && clearOk && m.desired != ""
    then [Startup(readOk, clearOk, idleOk), FinishReport(told, idleOk)]
    else [Startup(readOk, clearOk, idleOk)]
  }

  lemma StartedByParts(rmcs: RMCs, m: Machine, readOk: bool, clearOk: bool, told: bool, idleOk: bool)
    requires m.pc.Down?
    ensures Exec(rmcs, m, StartActs(m, readOk, clearOk, told, idleOk))
         == Some(ReportIdle(CheckedStart(m, readOk, clearOk, told).(pc := Resting), idleOk))
  {
    var startup, report := Startup(readOk, clearOk, idleOk), FinishReport(told, idleOk);
    ExecOneMore(rmcs, m, [], m, startup);
    assert [] + [startup] == [startup];
    if readOk && SeesReboot(m, clearOk) && m.desired != "" {
      ExecOneMore(rmcs, m, [startup], Next(rmcs, m, startup), report);
      assert [startup] + [report] == [startup, report];
    }
  }

  // ------------------------------------------------------------- what a handler does, from the state before it

  /** How the calls of a handler turn out. */
  datatype Calls = Calls(fetchOk: bool, announceOk: bool, fault: string -> Fault, units: UnitOutcome, needsReboot: bool, w: Writes, told: bool)

  /** The file pass of an apply of the desired revision. */
  function PassOf(rmcs: RMCs, m: Machine, fault: string -> Fault): Pass<map<string, string>>
    requires m.desired in rmcs
  {
    FilePass(m.files, Sort(rmcs[m.desired].files, FileBefore), fault, 0, 0)
  }

  /** The writes of a file pass: every file in order, up to and including the first that fails. */
  function FileActs(files: map<string, string>, todo: seq<FileSpec>, fault: string -> Fault, told: bool): seq<Act>
    decreases |todo|
  {
    if todo == [] then []
    else
      var s := ApplyFile(files, todo[0], fault(todo[0].path));
      [WriteFile(fault(todo[0].path), told)] + if s.ok then FileActs(s.host, todo[1..], fault, told) else []
  }

  /** The acts of an apply: the announcement, the writes, and the end if none of them failed. */
  function ApplyActs(rmcs: RMCs, m: Machine, c: Calls): seq<Act>
    requires m.desired in rmcs
  {
    [Begin] + FileActs(m.files, Sort(rmcs[m.desired].files, FileBefore), c.fault, c.told)
    + if PassOf(rmcs, m, c.fault).ok then [Finish(c.units, c.needsReboot, c.w, c.told)] else []
  }

  /** Which acts an event sets off. */
  function HandlerActs(rmcs: RMCs, m: Machine, c: Calls): seq<Act>
  {
    var fetched, awaits := c.fetchOk && m.desired in rmcs, m.pendingReboot == m.desired || m.rebootPending;
    if m.paused || m.desired == "" || m.desired == m.current then []
    else if awaits then if fetched then [Recheck(c.w)] else []
    else if !fetched then [FetchFailed(c.told)]
    else if !c.announceOk then []
    else ApplyActs(rmcs, m, c)
  }

  /** What an apply leaves: the files as the pass leaves them, and then an error, a report, a reboot or a mark. */
  function Applied(rmcs: RMCs, m: Machine, c: Calls): Machine
    requires m.desired in rmcs
  {
    var p := PassOf(rmcs, m, c.fault);
    var m1 := m.(files := p.host, state := Nodes.Applying);
    if p.ok then FinishApply(m1.(pc := Working(m.desired, [], p.applied > 0)), rmcs[m.desired].reboot, c.units, c.needsReboot, c.w, c.told)
    else ReportError(m1, c.told)
  }

  /** The end of an apply keeps the files, and reports exactly when the units went through, no reboot is owed and the
      report got out. */
  lemma EndReports(m: Machine, spec: RebootSpec, units: UnitOutcome, needsReboot: bool, w: Writes, told: bool)
    requires m.pc.Working? && m.pc.rev != m.current
    ensures var m', rev := FinishApply(m, spec, units, needsReboot, w, told), m.pc.rev;
      && m'.files == m.files
      && (m'.current == rev <==> !units.UnitsFailed? && told && (!needsReboot || (units.UnitsUnchanged? && !m.pc.changed)))
      && (m'.current == rev ==> m'.state == Nodes.Done && m'.pendingReboot == "" && m'.reports == m.reports + [Report(rev, m.files)])
      && (m'.current != rev ==> m'.current == m.current && m'.reports == m.reports)
  {
    var rest := m.(pc := Resting);
    HandleRebootFrame(rest, true, spec, w);
    assert HandleReboot(rest, true, spec, w).current == m.current;
    if units.UnitsFailed? {
    } else if (!m.pc.changed && units.UnitsUnchanged?) || !needsReboot {
    } else if HandleRebootFails(rest, true, spec, w) {
    } else {
    }
  }

  /** After an announced apply of a revision whose files all go through, the host holds it, however the apply ends;
      the apply reports it exactly when the units went through, no reboot is owed (none is needed, or nothing was
      changed) and the report got out, and then the node shows it as current and done. */
  lemma AppliedHolds(rmcs: RMCs, m: Machine, c: Calls)
    requires m.desired in rmcs && m.desired != m.current && KeysUnique(rmcs[m.desired].files, PathOf)
    requires PassOf(rmcs, m, c.fault).ok
    ensures var m' := Applied(rmcs, m, c);
      && Held(rmcs, m.desired, m'.files)
      && (m'.current == m.desired <==>
            && !c.units.UnitsFailed? && c.told
            && (!c.needsReboot || (c.units.UnitsUnchanged? && PassOf(rmcs, m, c.fault).applied == 0)))
      && (m'.current == m.desired ==> m'.state == Nodes.Done && m'.pendingReboot == "" && m'.reports == m.reports + [Report(m.desired, m'.files)])
      && (m'.current != m.desired ==> m'.current == m.current && m'.reports == m.reports)
  {
    var p, files := PassOf(rmcs, m, c.fault), rmcs[m.desired].files;
    SortByKeyIsStrict(files, PathOf, FileBefore);
    StrictlySortedUniqueKeys(Sort(files, FileBefore), PathOf);
    FilePassHolds(m.files, Sort(files, FileBefore), c.fault, 0, 0);
    var m1 := m.(files := p.host, state := Nodes.Applying, pc := Working(m.desired, [], p.applied > 0));
    EndReports(m1, rmcs[m.desired].reboot, c.units, c.needsReboot, c.w, c.told);
    assert Applied(rmcs, m, c) == FinishApply(m1, rmcs[m.desired].reboot, c.units, c.needsReboot, c.w, c.told);
  }

  /** A machine at work once its file pass is through, or has failed. */
  function Written(m: Machine, fault: string -> Fault, told: bool, applied: nat, skipped: nat): Machine
    requires m.pc.Working?
  {
    var p := FilePass(m.files, m.pc.todo, fault, applied, skipped);
    if p.ok then m.(files := p.host, pc := Working(m.pc.rev, [], p.applied > 0))
    else ReportError(m.(files := p.host, pc := Resting), told)
  }

  /** The first write of a pass, and what is left of it. */
  lemma FirstWrite(rmcs: RMCs, m: Machine, fault: string -> Fault, told: bool, applied: nat, skipped: nat)
    requires m.pc.Working? && (m.pc.changed <==> applied > 0) && m.pc.todo != []
    ensures var act := WriteFile(fault(m.pc.todo[0].path), told);
      var s, m' := ApplyFile(m.files, m.pc.todo[0], act.fault), Next(rmcs, m, act);
      if s.ok then
        var applied', skipped' := if s.applied then applied + 1 else applied, if s.applied then skipped else skipped + 1;
        && m'.pc.Working? && m'.pc.todo == m.pc.todo[1..] && m'.files == s.host && (m'.pc.changed <==> applied' > 0)
        && Written(m, fault, told, applied, skipped) == Written(m', fault, told, applied', skipped')
      else Written(m, fault, told, applied, skipped) == m'
  {
  }

  /** The machine's writes, one step each, are the file pass of module Apply. */
  lemma {:induction false} WritesAreThePass(rmcs: RMCs, m: Machine, fault: string -> Fault, told: bool, applied: nat, skipped: nat)
    requires m.pc.Working? && (m.pc.changed <==> applied > 0)
    ensures Exec(rmcs, m, FileActs(m.files, m.pc.todo, fault, told)) == Some(Written(m, fault, told, applied, skipped))
    decreases |m.pc.todo|
  {
    if m.pc.todo == [] {
      assert Written(m, fault, told, applied, skipped) == m;
    } else {
      var act := WriteFile(fault(m.pc.todo[0].path), told);
      var s, m' := ApplyFile(m.files, m.pc.todo[0], act.fault), Next(rmcs, m, act);
      FirstWrite(rmcs, m, fault, told, applied, skipped);
      var rest := if s.ok then FileActs(s.host, m.pc.todo[1..], fault, told) else [];
      assert FileActs(m.files, m.pc.todo, fault, told) == [act] + rest;
      ExecOne(rmcs, m, act, rest);
      if s.ok {
        WritesAreThePass(rmcs, m', fault, told, if s.applied then applied + 1 else applied, if s.applied then skipped else skipped + 1);
      }
    }
  }

  /** The acts of an apply are possible one after another, and apply. */
  lemma ApplyActsApply(rmcs: RMCs, m: Machine, c: Calls)
    requires m.pc == Resting && AgentMachine.Enabled(rmcs, m, Begin)
    ensures Exec(rmcs, m, ApplyActs(rmcs, m, c)) == Some(Applied(rmcs, m, c))
  {
    var m1 := Next(rmcs, m, Begin);
    var writes, end := FileActs(m.files, m1.pc.todo, c.fault, c.told), Finish(c.units, c.needsReboot, c.w, c.told);
    var m2 := Written(m1, c.fault, c.told, 0, 0);
    WritesAreThePass(rmcs, m1, c.fault, c.told, 0, 0);
    ExecOne(rmcs, m, Begin, writes);
    if PassOf(rmcs, m, c.fault).ok {
      ExecOneMore(rmcs, m, [Begin] + writes, m2, end);
    } else {
      assert [Begin] + writes + [] == [Begin] + writes;
    }
    AppliedIsWritten(rmcs, m, c);
  }

  /** An event that shows work, met by an agent at rest with no reboot to wait for, gets the revision onto the host
      whenever its RMC is fetched, the apply announced and no file fails; and an event that shows none, or comes
      while the agent waits for a reboot whose RMC it cannot fetch, is passed over. */
  lemma WorkGetsDone(rmcs: RMCs, m: Machine, c: Calls)
    requires m.pc == Resting && forall r | r in rmcs :: KeysUnique(rmcs[r].files, PathOf)
    ensures HandlerActs(rmcs, m, c) == [] <==>
      || m.paused || m.desired == "" || m.desired == m.current
      || ((m.pendingReboot == m.desired || m.rebootPending) && !(c.fetchOk && m.desired in rmcs))
      || (m.pendingReboot != m.desired && !m.rebootPending && c.fetchOk && m.desired in rmcs && !c.announceOk)
    ensures
      && !m.paused && m.desired != "" && m.desired != m.current && m.pendingReboot != m.desired && !m.rebootPending
      && c.fetchOk && m.desired in rmcs && c.announceOk && PassOf(rmcs, m, c.fault).ok ==>
        var m' := Exec(rmcs, m, HandlerActs(rmcs, m, c));
        && m'.Some? && Held(rmcs, m.desired, m'.value.files)
        && (!c.units.UnitsFailed? && !c.needsReboot && c.told ==> m'.value.current == m.desired && m'.value.state == Nodes.Done)
  {
    if AgentMachine.Enabled(rmcs, m, Begin) && c.announceOk && PassOf(rmcs, m, c.fault).ok {
      ApplyActsApply(rmcs, m, c);
      AppliedHolds(rmcs, m, c);
    }
  }

  lemma AppliedIsWritten(rmcs: RMCs, m: Machine, c: Calls)
    requires m.pc == Resting && AgentMachine.Enabled(rmcs, m, Begin)
    ensures var m2 := Written(Next(rmcs, m, Begin), c.fault, c.told, 0, 0);
      Applied(rmcs, m, c) ==
        if PassOf(rmcs, m, c.fault).ok then FinishApply(m2, rmcs[m.desired].reboot, c.units, c.needsReboot, c.w, c.told) else m2
  {
  }

  class Agent {
    // the host
    var files: map<string, string>
    var lastReboot: Option<int>
    var bootMarker: bool
    // the node object
    var desired: string
    var current: string
    var state: Nodes.AgentState
    var rebootPending: bool
    var forceReboot: bool
    var paused: bool
    // the process
    var pendingReboot: string
    ghost var pc: Pc
    var now: int
    ghost var reboots: seq<int>
    ghost var reports: seq<Report>

    constructor (desired: string)
      ensures View() == Machine(map[], None, false, desired, "", Nodes.Unset, false, false, false, Down, "", 0, [], [])
    {
      this.files, this.lastReboot, this.bootMarker := map[], None, false;
      this.desired, this.current, this.state := desired, "", Nodes.Unset;
      this.rebootPending, this.forceReboot, this.paused := false, false, false;
      this.pendingReboot, this.pc, this.now, this.reboots, this.reports := "", Down, 0, [], [];
    }

    ghost function View(): Machine
      reads this
    {
      Machine(files, lastReboot, bootMarker, desired, current, state, rebootPending, forceReboot, paused,
              pc, pendingReboot, now, reboots, reports)
    }

    /** One patch sets both, so no reader sees `done` with an old revision. */
    method WriteDone(rev: string)
      modifies this`state, this`current, this`reports
      ensures View() == SetDone(old(View()), rev)
    {
      state, current := Nodes.Done, rev;
      reports := reports + [Report(rev, files)];
    }

    method SetStateWithError(told: bool)
      modifies this`state
      ensures View() == ReportError(old(View()), told)
    {
      if told {
        state := Nodes.Failed;
      }
    }

    method RunReboot(w: Writes) returns (failed: bool)
      modifies this`lastReboot, this`state, this`forceReboot, this`rebootPending, this`reboots
      ensures View() == ExecuteReboot(old(View()), w)
      ensures failed == !w.executeOk
    {
      reboots := reboots + [now];
      if w.lastOk {
        lastReboot := Some(Truncate(now));
      }
      if w.stateOk {
        state := Nodes.Rebooting;
      }
      if w.forceOk {
        forceReboot := false;
      }
      if w.pendingOk {
        rebootPending := false;
      }
      failed := !w.executeOk;
    }

    method SetPending(w: Writes) returns (failed: bool)
      modifies this`rebootPending
      ensures View() == old(View()).(rebootPending := old(rebootPending) || w.pendingOk)
      ensures failed == !w.pendingOk
    {
      if w.pendingOk {
        rebootPending := true;
      }
      failed := !w.pendingOk;
    }

    method RebootIfAllowed(required: bool, spec: RebootSpec, w: Writes) returns (failed: bool)
      modifies this`lastReboot, this`state, this`forceReboot, this`rebootPending, this`reboots
      ensures View() == HandleReboot(old(View()), required, spec, w)
      ensures failed == HandleRebootFails(old(View()), required, spec, w)
    {
      if !required {
        return false;
      }
      if forceReboot {
        failed := RunReboot(w);
        return;
      }
      if spec.strategy != "IfRequired" {
        failed := SetPending(w);
        return;
      }
      if lastReboot.None? || spec.minIntervalSeconds <= 0 {
        failed := RunReboot(w);
        return;
      }
      if now - lastReboot.value < spec.minIntervalSeconds * SECOND {
        failed := SetPending(w);
        return;
      }
      failed := RunReboot(w);
    }

    method WriteOne(ghost rmcs: RMCs, rev: string, todo: seq<FileSpec>, changed: bool, fault: Fault, told: bool)
      returns (ok: bool, changed': bool)
      requires todo != [] && pc == Working(rev, todo, changed)
      modifies this`files, this`pc, this`state
      ensures View() == Next(rmcs, old(View()), WriteFile(fault, told))
      ensures var s := ApplyFile(old(files), todo[0], fault); ok == s.ok && files == s.host && changed' == (changed || s.applied)
      ensures state == (if ok || !told then old(state) else Nodes.Failed)
      ensures pc == if ok then Working(rev, todo[1..], changed') else Resting
    {
      var s := ApplyFile(files, todo[0], fault);
      files := s.host;
      ok, changed' := s.ok, changed || s.applied;
      if ok {
        pc := Working(rev, todo[1..], changed');
      } else {
        pc := Resting;
        SetStateWithError(told);
      }
    }

    /** The file part of an apply: every file in path order until one fails. */
    method WriteFiles(rmcs: RMCs, fault: string -> Fault, told: bool) returns (ok: bool, changed: bool)
      requires desired in rmcs && pc == Working(desired, Sort(rmcs[desired].files, FileBefore), false)
      modifies this`files, this`pc, this`state
      ensures View() == Written(old(View()), fault, told, 0, 0)
      ensures pc == if ok then Working(desired, [], changed) else Resting
    {
      ok, changed := true, false;
      var sorted := Sort(rmcs[desired].files, FileBefore);
      ghost var applied, skipped: nat := 0, 0;
      for i := 0 to |sorted|
        invariant ok && pc == Working(desired, sorted[i..], changed) && state == old(state)
        invariant FilePass(old(files), sorted, fault, 0, 0) == FilePass(files, sorted[i..], fault, applied, skipped)
        invariant changed <==> applied > 0
      {
        assert sorted[i..][0] == sorted[i] && sorted[i..][1..] == sorted[i + 1..];
        ghost var s := ApplyFile(files, sorted[i], fault(sorted[i].path));
        ok, changed := WriteOne(rmcs, desired, sorted[i..], changed, fault(sorted[i].path), told);
        if !ok {
          return;
        }
        applied, skipped := if s.applied then applied + 1 else applied, if s.applied then skipped else skipped + 1;
      }
    }

    /** handleNodeUpdate, on the live node.  How the unit pass and the reboot decision turn out is among the calls;
        what the handler does, and what it leaves, is determined by them and the state before. */
    method HandleNodeUpdate(rmcs: RMCs, c: Calls) returns (ghost acts: seq<Act>)
      requires pc == Resting
      modifies this
      ensures acts == HandlerActs(rmcs, old(View()), c)
      ensures Exec(rmcs, old(View()), acts) == Some(View())
      ensures pc == Resting
    {
      acts := [];
      if paused || desired == "" || desired == current {
        return;
      }
      if pendingReboot == desired || rebootPending {
        if !c.fetchOk || desired !in rmcs {
          return;
        }
        ExecOneMore(rmcs, View(), [], View(), Recheck(c.w));
        acts := [] + [Recheck(c.w)];
        var _ := RebootIfAllowed(rmcs[desired].reboot.required, rmcs[desired].reboot, c.w);
        return;
      }
      if !c.fetchOk || desired !in rmcs {
        ExecOneMore(rmcs, View(), [], View(), FetchFailed(c.told));
        acts := [] + [FetchFailed(c.told)];
        SetStateWithError(c.told);
        return;
      }
      acts := ApplyConfig(rmcs, c);
    }

    /** applyConfig up to the end of the file pass: announce, then write. */
    method WriteConfig(rmcs: RMCs, fault: string -> Fault, told: bool) returns (ok: bool, changed: bool)
      requires pc == Resting && AgentMachine.Enabled(rmcs, View(), Begin)
      modifies this`files, this`pc, this`state
      ensures View() == Written(Next(rmcs, old(View()), Begin), fault, told, 0, 0)
      ensures pc == if ok then Working(desired, [], changed) else Resting
    {
      state, pc := Nodes.Applying, Working(desired, Sort(rmcs[desired].files, FileBefore), false);
      ok, changed := WriteFiles(rmcs, fault, told);
    }

    method ApplyConfig(rmcs: RMCs, c: Calls) returns (ghost acts: seq<Act>)
      requires pc == Resting && AgentMachine.Enabled(rmcs, View(), Begin)
      modifies this
      ensures acts == if c.announceOk then ApplyActs(rmcs, old(View()), c) else []
      ensures View() == if c.announceOk then Applied(rmcs, old(View()), c) else old(View())
      ensures Exec(rmcs, old(View()), acts) == Some(View())
      ensures pc == Resting
    {
      if !c.announceOk {
        return [];
      }
      acts := ApplyActs(rmcs, View(), c);
      ApplyActsApply(rmcs, View(), c);
      var rev := desired;
      var ok, changed := WriteConfig(rmcs, c.fault, c.told);
      if !ok {
        return;
      }
      FinishUp(rmcs[rev].reboot, rev, changed, c.units, c.needsReboot, c.w, c.told);
    }

    /** From the end of the apply to the report or the reboot. */
    method FinishUp(spec: RebootSpec, rev: string, changed: bool, units: UnitOutcome, needsReboot: bool, w: Writes, told: bool)
      requires pc == Working(rev, [], changed)
      modifies this
      ensures View() == FinishApply(old(View()), spec, units, needsReboot, w, told)
      ensures pc == Resting
    {
      pc := Resting;
      ghost var m' := View();
      assert m' == old(View()).(pc := Resting);
      if units.UnitsFailed? {
        SetStateWithError(told);
        return;
      }
      if (!changed && units.UnitsUnchanged?) || !needsReboot {
        pendingReboot := "";
        ghost var m1 := View();
        assert m1 == m'.(pendingReboot := "");
        if told {
          WriteDone(rev);
        }
        return;
      }
      var failed := RebootIfAllowed(true, spec, w);
      ghost var handled := View();
      assert handled == HandleReboot(m', true, spec, w);
      if failed {
        SetStateWithError(told);
        return;
      }
      pendingReboot := rev;
      assert View() == handled.(pendingReboot := rev);
    }

    /** The startup check: did the awaited reboot happen?  `reporting` says a revision is to be reported. */
    method CheckRebootPending(clearOk: bool) returns (reporting: bool)
      modifies this`rebootPending
      ensures View() == old(View()).(rebootPending := old(rebootPending) && !SeesReboot(old(View()), clearOk))
      ensures reporting == (SeesReboot(old(View()), clearOk) && desired != "")
    {
      reporting := false;
      if !rebootPending {
        return;
      }
      if lastReboot.None? {
        return;
      }
      if !bootMarker {
        if !clearOk {
          return;
        }
        rebootPending := false;
        reporting := desired != "";
      }
    }

    /** The end of the startup check: the revision, if one is to be reported, and the boot marker. */
    method FinishCheck(reporting: bool, told: bool)
      modifies this`state, this`current, this`reports, this`bootMarker
      ensures View() == (if reporting && told then SetDone(old(View()), desired) else old(View())).(bootMarker := true)
    {
      if reporting && told {
        WriteDone(desired);
      }
      bootMarker := true;
    }

    /** The end of the startup: state `idle`, and the watch begins. */
    method SetIdle(idleOk: bool)
      modifies this`state, this`pc
      ensures View() == ReportIdle(old(View()).(pc := Resting), idleOk)
    {
      pc := Resting;
      if idleOk {
        state := Nodes.Idle;
      }
    }

    /** The start of Run: the startup check, then state `idle`. */
    method Start(rmcs: RMCs, readOk: bool, clearOk: bool, told: bool, idleOk: bool) returns (ghost acts: seq<Act>)
      requires pc == Down
      modifies this
      ensures acts == StartActs(old(View()), readOk, clearOk, told, idleOk)
      ensures Exec(rmcs, old(View()), acts) == Some(View())
      ensures pc == Resting && (idleOk ==> state == Nodes.Idle)
    {
      ghost var m := View();
      var reporting := false;
      if readOk {
        reporting := CheckRebootPending(clearOk);
        FinishCheck(reporting, told);
      }
      SetIdle(idleOk);
      acts := StartActs(m, readOk, clearOk, told, idleOk);
      StartedByParts(rmcs, m, readOk, clearOk, told, idleOk);
    }
  }
}
