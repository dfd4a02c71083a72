/** One node's agent, its host and its node object, across crashes and reboots
(internal/agent/agent.go, internal/agent/reboot/handler.go, internal/agent/reboot/state.go).

The announcement of an apply, each file it writes and its end are steps of their own, so a crash, a
reboot or the controller can come between any two of them.  Any write within the end of an apply or a
startup may fail, which also stands for a crash before it.  What survives what: host files and the last-reboot
file survive everything, the boot marker does not survive a reboot, the process memory
(`pc`, `pendingReboot`) survives neither a crash nor a reboot.  `reports` and `reboots` record what the
agent has claimed and when it asked for reboots; nothing reads them. */
module AgentMachine {
  import opened Order
  import opened Config
  import opened Nodes
  import opened Apply

  const SECOND := 1_000_000_000

  /** RFC 3339, section 5.6, at one-second precision: what WriteLastRebootTime keeps of a time. */
  function Truncate(t: int): int
  {
    t / SECOND * SECOND
  }

  datatype Pc =
    | Down
    | Resting
    | Working(rev: string, todo: seq<FileSpec>, changed: bool)
    | Reporting(rev: string)  // startup saw that the awaited reboot happened

  /** A claim that a revision is in place, with the host files at that moment. */
  datatype Report = Report(rev: string, files: map<string, string>)

  datatype Machine = Machine(
    // the host
    files: map<string, string>, lastReboot: Option<int>, bootMarker: bool,
    // the node object
    desired: string, current: string, state: Nodes.AgentState, rebootPending: bool, forceReboot: bool, paused: bool,
    // the process
    pc: Pc, pendingReboot: string,
    now: int, reboots: seq<int>, reports: seq<Report>)

  /** Which of the writes around a reboot succeed; a failed one is logged and skipped. */
  datatype Writes = Writes(lastOk: bool, stateOk: bool, forceOk: bool, pendingOk: bool, executeOk: bool)

  datatype UnitOutcome = UnitsFailed | UnitsUnchanged | UnitsChanged

  datatype Act =
    | Begin
    | FetchFailed(told: bool)
    | WriteFile(fault: Fault, told: bool)
    | Finish(units: UnitOutcome, needsReboot: bool, w: Writes, told: bool)
    | Recheck(w: Writes)
    | Crash
    | HostReboot
    | Startup(readOk: bool, clearOk: bool, idleOk: bool)
    | FinishReport(told: bool, idleOk: bool)
    | SetDesired(rev: string)     // the controller
    | SetForceReboot              // a person
    | Tick(elapsed: nat)

  type RMCs = map<string, RMC>

  predicate WantsWork(m: Machine)
  {
    !m.paused && m.desired != "" && m.desired != m.current
  }

  predicate AwaitsReboot(m: Machine)
  {
    m.pendingReboot == m.desired || m.rebootPending
  }

  predicate Enabled(rmcs: RMCs, m: Machine, act: Act)
  {
    match act
    case Begin => m.pc.Resting? && WantsWork(m) && !AwaitsReboot(m) && m.desired in rmcs
    case FetchFailed(_) => m.pc.Resting? && WantsWork(m) && !AwaitsReboot(m)
    case WriteFile(_, _) => m.pc.Working? && m.pc.todo != []
    case Finish(_, _, _, _) => m.pc.Working? && m.pc.todo == [] && m.pc.rev in rmcs
    case Recheck(_) => m.pc.Resting? && WantsWork(m) && AwaitsReboot(m) && m.desired in rmcs
    case Startup(_, _, _) => m.pc.Down?
    case FinishReport(_, _) => m.pc.Reporting?
    case SetDesired(rev) => rev != ""
    case _ => true
  }

  /** The policy of HandleReboot for a reboot that is required. */
  predicate MayReboot(m: Machine, spec: RebootSpec)
  {
    if m.forceReboot then true
    else if spec.strategy != "IfRequired" then false
    else if m.lastReboot.None? || spec.minIntervalSeconds <= 0 then true
    else m.now - m.lastReboot.value >= spec.minIntervalSeconds * SECOND
  }

  function ExecuteReboot(m: Machine, w: Writes): Machine
  {
    m.(lastReboot := if w.lastOk then Some(Truncate(m.now)) else m.lastReboot,
       state := if w.stateOk then Nodes.Rebooting else m.state,
       forceReboot := m.forceReboot && !w.forceOk,
       rebootPending := m.rebootPending && !w.pendingOk,
       reboots := m.reboots + [m.now])
  }

  function HandleReboot(m: Machine, required: bool, spec: RebootSpec, w: Writes): Machine
  {
    if !required then m
    else if MayReboot(m, spec) then ExecuteReboot(m, w)
    else m.(rebootPending := m.rebootPending || w.pendingOk)
  }

  predicate HandleRebootFails(m: Machine, required: bool, spec: RebootSpec, w: Writes)
  {
    required && (if MayReboot(m, spec) then !w.executeOk else !w.pendingOk)
  }

  /** SetDone: state and revision in one patch. */
  function SetDone(m: Machine, rev: string): Machine
  {
    m.(state := Nodes.Done, current := rev, reports := m.reports + [Report(rev, m.files)])
  }

  /** SetStateWithError, whose own failure is ignored. */
  function ReportError(m: Machine, told: bool): Machine
  {
    if told then m.(state := Nodes.Failed) else m
  }

  function FinishApply(m: Machine, spec: RebootSpec, units: UnitOutcome, needsReboot: bool, w: Writes, told: bool): Machine
    requires m.pc.Working?
  {
    var rev, m' := m.pc.rev, m.(pc := Resting);
    if units.UnitsFailed? then ReportError(m', told)
    else if (!m.pc.changed && units.UnitsUnchanged?) || !needsReboot then
      var m1 := m'.(pendingReboot := "");
      if told then SetDone(m1, rev) else m1
    else if HandleRebootFails(m', true, spec, w) then ReportError(HandleReboot(m', true, spec, w), told)
    else HandleReboot(m', true, spec, w).(pendingReboot := rev)
  }

  /** The last write of a startup. */
  function ReportIdle(m: Machine, idleOk: bool): Machine
  {
    if idleOk then m.(state := Nodes.Idle) else m
  }

  /** The startup check finds that the reboot it was waiting for happened, and clears the mark. */
  predicate SeesReboot(m: Machine, clearOk: bool)
  {
    m.rebootPending && m.lastReboot.Some? && !m.bootMarker && clearOk
  }

  function StartUp(m: Machine, readOk: bool, clearOk: bool, idleOk: bool): Machine
  {
    var up := ReportIdle(m.(pc := Resting), idleOk);
    if !readOk then up
    else if !SeesReboot(m, clearOk) then up.(bootMarker := true)
    else if m.desired == "" then up.(rebootPending := false, bootMarker := true)
    else m.(rebootPending := false, pc := Reporting(m.desired))
  }

  function Next(rmcs: RMCs, m: Machine, act: Act): Machine
    requires Enabled(rmcs, m, act)
  {
    match act
    case Begin =>
      m.(state := Nodes.Applying, pc := Working(m.desired, Sort(rmcs[m.desired].files, FileBefore), false))
    case FetchFailed(told) => ReportError(m, told)
    case WriteFile(fault, told) =>
      var s := ApplyFile(m.files, m.pc.todo[0], fault);
      if s.ok then m.(files := s.host, pc := Working(m.pc.rev, m.pc.todo[1..], m.pc.changed || s.applied))
      else ReportError(m.(files := s.host, pc := Resting), told)
    case Finish(units, needsReboot, w, told) => FinishApply(m, rmcs[m.pc.rev].reboot, units, needsReboot, w, told)
    case Recheck(w) => HandleReboot(m, rmcs[m.desired].reboot.required, rmcs[m.desired].reboot, w)
    case Crash => m.(pc := Down, pendingReboot := "")
    case HostReboot => m.(pc := Down, pendingReboot := "", bootMarker := false)
    case Startup(readOk, clearOk, idleOk) => StartUp(m, readOk, clearOk, idleOk)
    case FinishReport(told, idleOk) =>
      var m1 := if told then SetDone(m, m.pc.rev) else m;
      ReportIdle(m1.(bootMarker := true, pc := Resting), idleOk)
    case SetDesired(rev) => m.(desired := rev)
    case SetForceReboot => m.(forceReboot := true)
    case Tick(elapsed) => m.(now := m.now + elapsed)
  }

  ghost predicate IsRun(rmcs: RMCs, run: seq<Machine>, acts: seq<Act>)
  {
    && |run| == |acts| + 1
    && forall i | 0 <= i < |acts| :: Enabled(rmcs, run[i], acts[i]) && run[i + 1] == Next(rmcs, run[i], acts[i])
  }

  // ------------------------------------------------------------- honest reporting

  /** The host has every file of a revision as that revision specifies it. */
  ghost predicate Held(rmcs: RMCs, rev: string, files: map<string, string>)
  {
    rev in rmcs && forall f | f in rmcs[rev].files :: FileHolds(files, f)
  }

  /** An apply that ends by marking its reboot pending: one is needed, the policy postpones it, and the mark is written. */
  predicate EndsPending(rmcs: RMCs, m: Machine, act: Act)
    requires act.Finish? && Enabled(rmcs, m, act)
  {
    && !act.units.UnitsFailed? && (m.pc.changed || act.units.UnitsChanged?) && act.needsReboot
    && !MayReboot(m, rmcs[m.pc.rev].reboot) && act.w.pendingOk
  }

  /** The desired revision may change at any time, except while a reboot is marked pending and except
      back to a revision whose reboot the agent still remembers; and an apply that was overtaken by such a
      change must not end pending. */
  predicate Considerate(rmcs: RMCs, m: Machine, act: Act)
    requires Enabled(rmcs, m, act)
  {
    match act
    case SetDesired(rev) => rev == m.desired || (!m.rebootPending && rev != m.pendingReboot)
    case Finish(_, _, _, _) => m.pc.rev == m.desired || !EndsPending(rmcs, m, act)
    case _ => true
  }

  /** How far an apply has got: files no longer to do hold. */
  ghost predicate HalfApplied(rmcs: RMCs, m: Machine)
    requires m.pc.Working?
  {
    && m.pc.rev in rmcs && !m.rebootPending && m.pc.rev != m.pendingReboot
    && KeysUnique(m.pc.todo, PathOf)
    && forall f | f in rmcs[m.pc.rev].files :: f in m.pc.todo || (FileHolds(m.files, f) && f.path !in Keys(m.pc.todo, PathOf))
  }

  ghost predicate Inv(rmcs: RMCs, m: Machine)
  {
    && (forall r | r in rmcs :: KeysUnique(rmcs[r].files, PathOf))
    && (m.rebootPending ==> Held(rmcs, m.desired, m.files))
    && (m.pendingReboot != "" && m.pendingReboot == m.desired ==> !m.pc.Working? && Held(rmcs, m.desired, m.files))
    && (m.pc.Working? ==> HalfApplied(rmcs, m))
    && (m.pc.Reporting? ==> Held(rmcs, m.pc.rev, m.files) && m.pendingReboot == "" && !m.rebootPending)
    && (m.pc.Down? ==> m.pendingReboot == "")
  }

  ghost predicate AllHonest(rmcs: RMCs, reports: seq<Report>)
  {
    forall r | r in reports :: Held(rmcs, r.rev, r.files)
  }

  lemma BeginKeepsInv(rmcs: RMCs, m: Machine)
    requires Inv(rmcs, m) && Enabled(rmcs, m, Begin)
    ensures Inv(rmcs, Next(rmcs, m, Begin))
  {
    var files := rmcs[m.desired].files;
    SortByKeyIsStrict(files, PathOf, FileBefore);
    StrictlySortedUniqueKeys(Sort(files, FileBefore), PathOf);
  }

  lemma WriteKeepsHalfApplied(rmcs: RMCs, m: Machine, fault: Fault, told: bool)
    requires Enabled(rmcs, m, WriteFile(fault, told)) && HalfApplied(rmcs, m)
    ensures var m' := Next(rmcs, m, WriteFile(fault, told)); m'.pc.Working? ==> HalfApplied(rmcs, m')
  {
    var f, rest := m.pc.todo[0], m.pc.todo[1..];
    FileStepTouchesOne(m.files, f, fault);
    TailMembers(m.pc.todo, PathOf);
    assert PathOf(f) == f.path;
    var s := ApplyFile(m.files, f, fault);
    if s.ok {
      assert FileHolds(s.host, f);
      forall g | g in rmcs[m.pc.rev].files
        ensures g in rest || (FileHolds(s.host, g) && g.path !in Keys(rest, PathOf))
      {
        if g == f {
          assert g.path !in Keys(rest, PathOf);
        } else if g !in m.pc.todo {
          assert f.path in Keys(m.pc.todo, PathOf);
          assert Keys(rest, PathOf) <= Keys(m.pc.todo, PathOf);
        }
      }
    }
  }

  lemma WriteKeepsInv(rmcs: RMCs, m: Machine, fault: Fault, told: bool)
    requires Inv(rmcs, m) && Enabled(rmcs, m, WriteFile(fault, told))
    ensures Inv(rmcs, Next(rmcs, m, WriteFile(fault, told)))
  {
    WriteKeepsHalfApplied(rmcs, m, fault, told);
  }

  /** Handling a reboot leaves files, revisions and claims alone, and may only mark one pending. */
  lemma HandleRebootFrame(m: Machine, required: bool, spec: RebootSpec, w: Writes)
    ensures var m' := HandleReboot(m, required, spec, w);
      && m'.files == m.files && m'.desired == m.desired && m'.pc == m.pc && m'.pendingReboot == m.pendingReboot
      && m'.reports == m.reports
  {
  }

  /** What the end of an apply can leave behind. */
  lemma FinishFrame(rmcs: RMCs, m: Machine, act: Act)
    requires act.Finish? && Enabled(rmcs, m, act)
    ensures var m' := Next(rmcs, m, act);
      && m'.files == m.files && m'.desired == m.desired && m'.pc == Resting
      && (m'.pendingReboot == "" || m'.pendingReboot == m.pc.rev || m'.pendingReboot == m.pendingReboot)
      && (m'.rebootPending ==> m.rebootPending || EndsPending(rmcs, m, act))
      && (m'.reports == m.reports || m'.reports == m.reports + [Report(m.pc.rev, m.files)])
  {
    var rest, spec := m.(pc := Resting), rmcs[m.pc.rev].reboot;
    HandleRebootFrame(rest, true, spec, act.w);
    if act.units.UnitsFailed? {
    } else if (!m.pc.changed && act.units.UnitsUnchanged?) || !act.needsReboot {
    } else if HandleRebootFails(rest, true, spec, act.w) {
    } else {
    }
  }

  lemma FinishKeepsInv(rmcs: RMCs, m: Machine, act: Act)
    requires Inv(rmcs, m) && act.Finish? && Enabled(rmcs, m, act)
    ensures Held(rmcs, m.pc.rev, m.files)
    ensures Considerate(rmcs, m, act) ==> Inv(rmcs, Next(rmcs, m, act))
  {
    FinishFrame(rmcs, m, act);
    assert Held(rmcs, m.pc.rev, m.files);
  }

  lemma StepKeepsInv(rmcs: RMCs, m: Machine, act: Act)
    requires Inv(rmcs, m) && Enabled(rmcs, m, act) && Considerate(rmcs, m, act)
    ensures Inv(rmcs, Next(rmcs, m, act))
  {
    match act
    case Begin => BeginKeepsInv(rmcs, m);
    case WriteFile(fault, told) => WriteKeepsInv(rmcs, m, fault, told);
    case Finish(_, _, _, _) => FinishKeepsInv(rmcs, m, act);
    case Recheck(w) => HandleRebootFrame(m, rmcs[m.desired].reboot.required, rmcs[m.desired].reboot, w);
    case _ =>
  }

  /** Even a step that breaks the restraint reports nothing false itself. */
  lemma StepReportsHonestly(rmcs: RMCs, m: Machine, act: Act)
    requires Inv(rmcs, m) && Enabled(rmcs, m, act) && AllHonest(rmcs, m.reports)
    ensures AllHonest(rmcs, Next(rmcs, m, act).reports)
  {
    match act
    case Finish(_, _, _, _) =>
      FinishKeepsInv(rmcs, m, act);
      FinishFrame(rmcs, m, act);
    case Recheck(w) => HandleRebootFrame(m, rmcs[m.desired].reboot.required, rmcs[m.desired].reboot, w);
    case _ =>
  }

  /** A catalogue that changes as the controller changes it: RMCs are added, and the reboot policies of stored
      ones refreshed, but never their files. */
  ghost predicate Refreshed(rmcs: RMCs, rmcs': RMCs)
  {
    && (forall r | r in rmcs :: r in rmcs' && rmcs'[r].files == rmcs[r].files)
    && (forall r | r in rmcs' :: KeysUnique(rmcs'[r].files, PathOf))
  }

  /** A run under a changing catalogue. */
  ghost predicate IsRunOver(cats: seq<RMCs>, run: seq<Machine>, acts: seq<Act>)
  {
    && |cats| == |run| == |acts| + 1
    && forall i | 0 <= i < |acts| :: Enabled(cats[i], run[i], acts[i]) && run[i + 1] == Next(cats[i], run[i], acts[i])
  }

  lemma RefreshKeepsInv(rmcs: RMCs, rmcs': RMCs, m: Machine)
    requires Refreshed(rmcs, rmcs') && Inv(rmcs, m) && AllHonest(rmcs, m.reports)
    ensures Inv(rmcs', m) && AllHonest(rmcs', m.reports)
  {
    forall r | r in m.reports ensures Held(rmcs', r.rev, r.files) {
      assert Held(rmcs, r.rev, r.files);
    }
  }

  /** Honest reporting: over any run, with crashes and reboots anywhere, the catalogue growing and its policies
      changing, and the desired revision changing under applies as it may, every revision the agent reports is
      one whose files the host held at that moment.  AgentLimits shows that the restraint asked for is
      exactly what this takes. */
  lemma {:induction false} ReportsAreHonest(cats: seq<RMCs>, run: seq<Machine>, acts: seq<Act>)
    requires IsRunOver(cats, run, acts) && Inv(cats[0], run[0]) && AllHonest(cats[0], run[0].reports)
    requires forall i | 0 <= i < |acts| :: Considerate(cats[i], run[i], acts[i]) && Refreshed(cats[i], cats[i + 1])
    ensures forall i | 0 <= i < |run| :: Inv(cats[i], run[i]) && AllHonest(cats[i], run[i].reports)
  {
    var i := 0;
    while i < |acts|
      invariant 0 <= i <= |acts|
      invariant forall j | 0 <= j <= i :: Inv(cats[j], run[j]) && AllHonest(cats[j], run[j].reports)
    {
      StepKeepsInv(cats[i], run[i], acts[i]);
      StepReportsHonestly(cats[i], run[i], acts[i]);
      RefreshKeepsInv(cats[i], cats[i + 1], run[i + 1]);
      i := i + 1;
    }
  }

  /** Where nothing is in flight, nothing is owed: a legitimate start. */
  lemma QuietMachineIsFine(rmcs: RMCs, m: Machine)
    requires forall r | r in rmcs :: KeysUnique(rmcs[r].files, PathOf)
    requires !m.pc.Working? && !m.pc.Reporting? && !m.rebootPending && m.pendingReboot == ""
    ensures Inv(rmcs, m)
  {
  }

  /** Taking acts one after another, if each is possible when its turn comes. */
  function Exec(rmcs: RMCs, m: Machine, acts: seq<Act>): Option<Machine>
    decreases |acts|
  {
    if acts == [] then Some(m)
    else if !Enabled(rmcs, m, acts[0]) then None
    else Exec(rmcs, Next(rmcs, m, acts[0]), acts[1..])
  }

  lemma ExecOne(rmcs: RMCs, m: Machine, act: Act, rest: seq<Act>)
    requires Enabled(rmcs, m, act)
    ensures [act] + rest != [] && Exec(rmcs, m, [act] + rest) == Exec(rmcs, Next(rmcs, m, act), rest)
  {
    assert ([act] + rest)[1..] == rest;
  }

  lemma {:induction false} ExecAppend(rmcs: RMCs, m: Machine, a: seq<Act>, b: seq<Act>)
    requires Exec(rmcs, m, a).Some?
    ensures Exec(rmcs, m, a + b) == Exec(rmcs, Exec(rmcs, m, a).value, b)
    decreases |a|
  {
    if a == [] {
      assert a + b == b;
    } else {
      ExecAppend(rmcs, Next(rmcs, m, a[0]), a[1..], b);
      assert (a + b)[1..] == a[1..] + b;
    }
  }

  // ------------------------------------------------------------- a postponed reboot

  /** A recheck reboots exactly when the RMC itself asks for a reboot and either a person forces it, or the strategy is
      `IfRequired` and no reboot is on record, no interval is asked for or the interval has passed.  Otherwise it
      touches nothing but the mark. */
  lemma RecheckRebootsIff(rmcs: RMCs, m: Machine, w: Writes)
    requires Enabled(rmcs, m, Recheck(w))
    ensures var spec, m' := rmcs[m.desired].reboot, Next(rmcs, m, Recheck(w));
      && (m'.reboots == m.reboots + [m.now] <==>
            && spec.required
            && (|| m.forceReboot
                || (&& spec.strategy == "IfRequired"
                    && (m.lastReboot.None? || spec.minIntervalSeconds <= 0
                        || m.now >= m.lastReboot.value + spec.minIntervalSeconds * SECOND))))
      && (m'.reboots != m.reboots + [m.now] ==> m' == m.(rebootPending := m.rebootPending || (spec.required && w.pendingOk)))
  {
    assert m.reboots != m.reboots + [m.now] by {
      assert |m.reboots| < |m.reboots + [m.now]|;
    }
  }

  /** Waiting for a reboot to a revision whose RMC does not itself ask for one. */
  predicate Postponed(rmcs: RMCs, m: Machine, rev: string)
  {
    && m.pc.Resting? && m.desired == rev && rev in rmcs && !rmcs[rev].reboot.required
    && WantsWork(m) && AwaitsReboot(m)
  }

  /** Marked so on the node and on a host that has not rebooted, where a crash does not forget it. */
  predicate MarkSurvives(m: Machine)
  {
    m.rebootPending && m.bootMarker
  }

  /** The same with the process gone and the mark to come back to. */
  predicate PostponedOrDown(rmcs: RMCs, m: Machine, rev: string)
  {
    || Postponed(rmcs, m, rev)
    || (m.pc.Down? && MarkSurvives(m) && Postponed(rmcs, m.(pc := Resting), rev))
  }

  /** The decision to reboot comes from the diff, but every later look at a postponed reboot asks the RMC.
      So where the two differ (Diff.RequiredAgainstTheFlag), a reboot that the policy postponed is never
      carried out by the agent: not when the interval is over, not when it is forced, and not by a restart of
      the process once the mark is written. */
  lemma {:induction false} PostponedForGood(rmcs: RMCs, run: seq<Machine>, acts: seq<Act>, rev: string)
    requires IsRun(rmcs, run, acts) && PostponedOrDown(rmcs, run[0], rev)
    requires forall i | 0 <= i < |acts| :: !acts[i].HostReboot? && (acts[i].SetDesired? ==> acts[i].rev == rev)
    requires forall i | 0 <= i < |acts| :: acts[i].Crash? ==> MarkSurvives(run[i])
    ensures forall i | 0 <= i < |run| ::
      PostponedOrDown(rmcs, run[i], rev) && run[i].reboots == run[0].reboots && run[i].current == run[0].current
  {
    var i := 0;
    while i < |acts|
      invariant 0 <= i <= |acts|
      invariant forall j | 0 <= j <= i ::
        PostponedOrDown(rmcs, run[j], rev) && run[j].reboots == run[0].reboots && run[j].current == run[0].current
    {
      PostponedStep(rmcs, run[i], acts[i], rev);
      i := i + 1;
    }
  }

  lemma PostponedStep(rmcs: RMCs, m: Machine, act: Act, rev: string)
    requires Enabled(rmcs, m, act) && PostponedOrDown(rmcs, m, rev)
    requires !act.HostReboot? && (act.SetDesired? ==> act.rev == rev) && (act.Crash? ==> MarkSurvives(m))
    ensures var m' := Next(rmcs, m, act);
      PostponedOrDown(rmcs, m', rev) && m'.reboots == m.reboots && m'.current == m.current
  {
    if act.Startup? {
      StartupKeepsMark(m, act.readOk, act.clearOk, act.idleOk);
    }
  }

  lemma StartupKeepsMark(m: Machine, readOk: bool, clearOk: bool, idleOk: bool)
    requires MarkSurvives(m)
    ensures var m' := StartUp(m, readOk, clearOk, idleOk);
      && m'.pc == Resting && MarkSurvives(m') && m'.desired == m.desired && m'.current == m.current
      && m'.paused == m.paused && m'.reboots == m.reboots && m'.pendingReboot == m.pendingReboot
  {
  }

  /** An apply ends postponed when the diff requires a reboot that the RMC does not ask for and the
      policy does not yet allow. */
  lemma ApplyEndsPostponed(rmcs: RMCs, m: Machine, units: UnitOutcome, w: Writes, told: bool)
    requires m.pc.Working? && m.pc.todo == [] && m.pc.rev in rmcs && m.pc.rev == m.desired && WantsWork(m)
    requires !units.UnitsFailed? && (m.pc.changed || units.UnitsChanged?)
    requires !rmcs[m.pc.rev].reboot.required && !MayReboot(m, rmcs[m.pc.rev].reboot) && w.pendingOk
    ensures Postponed(rmcs, Next(rmcs, m, Finish(units, true, w, told)), m.pc.rev)
  {
  }

  // ------------------------------------------------------------- reboot spacing

  /** Every reboot policy in play waits at least `interval` seconds. */
  predicate PoliciesWait(rmcs: RMCs, interval: int)
  {
    interval > 0 && forall r | r in rmcs :: rmcs[r].reboot.strategy == "IfRequired" ==> rmcs[r].reboot.minIntervalSeconds >= interval
  }

  /** Nobody forces a reboot, and the state file can be written. */
  predicate Orderly(act: Act)
  {
    match act
    case Finish(_, _, w, _) => w.lastOk
    case Recheck(w) => w.lastOk
    case SetForceReboot => false
    case _ => true
  }

  ghost predicate Spaced(reboots: seq<int>, interval: int)
  {
    forall i | 0 < i < |reboots| :: reboots[i] - reboots[i - 1] > (interval - 1) * SECOND
  }

  ghost predicate SpacingInv(m: Machine, interval: int)
  {
    && !m.forceReboot && Spaced(m.reboots, interval)
    && (m.reboots != [] ==> m.lastReboot == Some(Truncate(m.reboots[|m.reboots| - 1])))
  }

  lemma RebootKeepsSpacing(m: Machine, spec: RebootSpec, w: Writes, interval: int)
    requires SpacingInv(m, interval) && w.lastOk && interval > 0
    requires spec.strategy == "IfRequired" ==> spec.minIntervalSeconds >= interval
    ensures SpacingInv(HandleReboot(m, true, spec, w), interval)
  {
    if MayReboot(m, spec) && m.reboots != [] {
      var last := m.reboots[|m.reboots| - 1];
      assert m.now - Truncate(last) >= spec.minIntervalSeconds * SECOND >= interval * SECOND;
      assert last - Truncate(last) < SECOND;
    }
  }

  /** The end of an apply is, for reboots, the handling of the reboot or nothing. */
  lemma FinishRebootFrame(m: Machine, spec: RebootSpec, units: UnitOutcome, needsReboot: bool, w: Writes, told: bool)
    requires m.pc.Working?
    ensures var m' := FinishApply(m, spec, units, needsReboot, w, told);
      var h := HandleReboot(m.(pc := Resting), true, spec, w);
      || (m'.forceReboot == m.forceReboot && m'.reboots == m.reboots && m'.lastReboot == m.lastReboot)
      || (m'.forceReboot == h.forceReboot && m'.reboots == h.reboots && m'.lastReboot == h.lastReboot)
  {
    if units.UnitsFailed? {
    } else if (!m.pc.changed && units.UnitsUnchanged?) || !needsReboot {
    } else if HandleRebootFails(m.(pc := Resting), true, spec, w) {
    } else {
    }
  }

  lemma FinishKeepsSpacing(rmcs: RMCs, m: Machine, act: Act, interval: int)
    requires PoliciesWait(rmcs, interval) && Enabled(rmcs, m, act) && Orderly(act) && SpacingInv(m, interval)
    requires act.Finish?
    ensures SpacingInv(Next(rmcs, m, act), interval)
  {
    RebootKeepsSpacing(m.(pc := Resting), rmcs[m.pc.rev].reboot, act.w, interval);
    FinishRebootFrame(m, rmcs[m.pc.rev].reboot, act.units, act.needsReboot, act.w, act.told);
  }

  lemma RecheckKeepsSpacing(rmcs: RMCs, m: Machine, act: Act, interval: int)
    requires PoliciesWait(rmcs, interval) && Enabled(rmcs, m, act) && Orderly(act) && SpacingInv(m, interval)
    requires act.Recheck?
    ensures SpacingInv(Next(rmcs, m, act), interval)
  {
    RebootKeepsSpacing(m, rmcs[m.desired].reboot, act.w, interval);
  }

  /** No other step reboots the host or touches what the spacing rests on. */
  lemma OtherStepsKeepSpacing(rmcs: RMCs, m: Machine, act: Act)
    requires Enabled(rmcs, m, act) && Orderly(act) && !act.Finish? && !act.Recheck?
    ensures var m' := Next(rmcs, m, act);
      m'.reboots == m.reboots && m'.lastReboot == m.lastReboot && (m'.forceReboot ==> m.forceReboot)
  {
    match act
    case Begin =>
    case WriteFile(_, _) =>
    case Startup(_, _, _) =>
    case FinishReport(_, _) =>
    case _ =>
  }

  lemma StepKeepsSpacing(rmcs: RMCs, m: Machine, act: Act, interval: int)
    requires PoliciesWait(rmcs, interval) && Enabled(rmcs, m, act) && Orderly(act) && SpacingInv(m, interval)
    ensures SpacingInv(Next(rmcs, m, act), interval)
  {
    if act.Finish? {
      FinishKeepsSpacing(rmcs, m, act, interval);
    } else if act.Recheck? {
      RecheckKeepsSpacing(rmcs, m, act, interval);
    } else {
      OtherStepsKeepSpacing(rmcs, m, act);
    }
  }

  /** Reboot spacing: over any orderly run, with policies changing as long as all of them wait, two
      consecutive reboots the agent asks for are more than the interval less one second apart. */
  lemma {:induction false} RebootsAreSpaced(cats: seq<RMCs>, run: seq<Machine>, acts: seq<Act>, interval: int)
    requires IsRunOver(cats, run, acts) && forall i | 0 <= i < |cats| :: PoliciesWait(cats[i], interval)
    requires run[0].reboots == [] && !run[0].forceReboot
    requires forall i | 0 <= i < |acts| :: Orderly(acts[i])
    ensures forall i | 0 <= i < |run| :: Spaced(run[i].reboots, interval)
  {
    var i := 0;
    while i < |acts|
      invariant 0 <= i <= |acts|
      invariant forall j | 0 <= j <= i :: SpacingInv(run[j], interval)
    {
      StepKeepsSpacing(cats[i], run[i], acts[i], interval);
      i := i + 1;
    }
  }

  /** The second is really lost: the policy keeps the full interval after a reboot at `first`, whenever
      it is asked again, exactly when `first` falls on a whole second. */
  lemma FullIntervalIffWholeSecond(m: Machine, spec: RebootSpec, first: int)
    requires !m.forceReboot && spec.strategy == "IfRequired" && spec.minIntervalSeconds > 0
    requires m.lastReboot == Some(Truncate(first))
    ensures (forall t: int | MayReboot(m.(now := t), spec) :: t - first >= spec.minIntervalSeconds * SECOND)
      <==> first % SECOND == 0
  {
    var soonest := Truncate(first) + spec.minIntervalSeconds * SECOND;
    assert MayReboot(m.(now := soonest), spec);
  }
}
