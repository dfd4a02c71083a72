/** Where the agent's guarantees end, exactly: which changes of the desired revision make it report
what the host does not hold, and when it forgets a reboot it required. */
module AgentLimits {
  import opened Order
  import opened Config
  import Apply
  import opened AgentMachine
  import Nodes

  // ------------------------------------------------------------- runs from acts

  /** The machines passed through by acts that are all possible in turn. */
  function Trace(rmcs: RMCs, m: Machine, acts: seq<Act>): seq<Machine>
    requires Exec(rmcs, m, acts).Some?
    decreases |acts|
  {
    if acts == [] then [m] else [m] + Trace(rmcs, Next(rmcs, m, acts[0]), acts[1..])
  }

  lemma {:induction false} TraceIsRun(rmcs: RMCs, m: Machine, acts: seq<Act>)
    requires Exec(rmcs, m, acts).Some?
    ensures var run := Trace(rmcs, m, acts);
      IsRun(rmcs, run, acts) && run[0] == m && run[|acts|] == Exec(rmcs, m, acts).value
    decreases |acts|
  {
    if acts != [] {
      var rest := Trace(rmcs, Next(rmcs, m, acts[0]), acts[1..]);
      var run := [m] + rest;
      TraceIsRun(rmcs, Next(rmcs, m, acts[0]), acts[1..]);
      forall i | 0 <= i < |acts| ensures Enabled(rmcs, run[i], acts[i]) && run[i + 1] == Next(rmcs, run[i], acts[i]) {
        if i > 0 {
          assert run[i] == rest[i - 1] && acts[i] == acts[1..][i - 1] && run[i + 1] == rest[i];
        }
      }
    }
  }

  // ------------------------------------------------------------- changes of the desired revision

  /** Catalogues of RMCs that differ at most in what one revision holds. */
  ghost predicate SameBut(rmcs: RMCs, rmcs': RMCs, rev: string)
  {
    forall r | r != rev :: (r in rmcs <==> r in rmcs') && (r in rmcs ==> rmcs[r] == rmcs'[r])
  }

  /** A run that starts with `act` and shows restraint from there on. */
  ghost predicate RestrainedAfter(rmcs: RMCs, m: Machine, act: Act, run: seq<Machine>, acts: seq<Act>)
  {
    && IsRun(rmcs, run, acts) && |acts| > 0 && run[0] == m && acts[0] == act
    && forall i | 0 < i < |acts| :: Considerate(rmcs, run[i], acts[i])
  }

  /** Whatever `rev` holds, and whatever happens with restraint after `act`, all reports are honest. */
  ghost predicate StaysHonest(rmcs: RMCs, m: Machine, act: Act, rev: string)
  {
    forall rmcs': RMCs, run: seq<Machine>, acts: seq<Act> |
      SameBut(rmcs, rmcs', rev) && Inv(rmcs', m) && RestrainedAfter(rmcs', m, act, run, acts) ::
      AllHonest(rmcs', run[|acts|].reports)
  }

  /** An RMC with one file that a host lacks, and a reboot policy that postpones a second reboot. */
  function Foreign(files: map<string, string>): RMC
  {
    var content := if "/f" in files then files["/f"] + "x" else "";
    RMC("", "", "", "", [FileSpec("/f", content, 0, "", "")], [], [], map[], map[], RebootSpec(true, "IfRequired", 1000))
  }

  lemma ForeignIsNotHeld(rmcs: RMCs, rev: string, files: map<string, string>)
    requires rev in rmcs && rmcs[rev] == Foreign(files)
    ensures !Held(rmcs, rev, files)
  {
    assert Foreign(files).files[0] in rmcs[rev].files;
  }

  /** Acts that no restraint is asked of. */
  predicate Harmless(act: Act)
  {
    !act.SetDesired? && (act.Finish? ==> act.units.UnitsFailed?)
  }

  const NO_UNMARK := Writes(true, true, true, false, true)
  const ALL_OK := Writes(true, true, true, true, true)

  /** An agent at rest that waits for a reboot to a revision it never applied comes to report it:
      two looks at the reboot, the second of which the policy postpones, and a reboot of the host. */
  lemma WaitingEndsInALie(rmcs: RMCs, m: Machine, rev: string) returns (acts: seq<Act>, end: Machine)
    requires m.pc.Resting? && m.desired == rev && WantsWork(m) && (m.rebootPending || m.pendingReboot == rev)
    requires rev in rmcs && rmcs[rev] == Foreign(m.files)
    ensures acts == [Recheck(NO_UNMARK), Recheck(ALL_OK), HostReboot, Startup(true, true, true), FinishReport(true, true)]
    ensures Exec(rmcs, m, acts) == Some(end) && !AllHonest(rmcs, end.reports)
  {
    var spec := rmcs[rev].reboot;
    var m1 := Next(rmcs, m, Recheck(NO_UNMARK));
    assert m1.lastReboot.Some? && !MayReboot(m1, spec) by {
      if MayReboot(m, spec) {
        assert m1.lastReboot == Some(Truncate(m.now)) && !m1.forceReboot && m1.now == m.now;
        assert m.now - Truncate(m.now) < SECOND;
      } else {
        assert m1 == m;
      }
    }
    var m2 := Next(rmcs, m1, Recheck(ALL_OK));
    assert m2 == m1.(rebootPending := true);
    var m3 := Next(rmcs, m2, HostReboot);
    var m4 := Next(rmcs, m3, Startup(true, true, true));
    end := Next(rmcs, m4, FinishReport(true, true));
    acts := [Recheck(NO_UNMARK)] + ([Recheck(ALL_OK)] + ([HostReboot] + ([Startup(true, true, true)] + ([FinishReport(true, true)] + []))));
    ExecOne(rmcs, m4, FinishReport(true, true), []);
    ExecOne(rmcs, m3, Startup(true, true, true), [FinishReport(true, true)] + []);
    ExecOne(rmcs, m2, HostReboot, [Startup(true, true, true)] + ([FinishReport(true, true)] + []));
    ExecOne(rmcs, m1, Recheck(ALL_OK), [HostReboot] + ([Startup(true, true, true)] + ([FinishReport(true, true)] + [])));
    ExecOne(rmcs, m, Recheck(NO_UNMARK), [Recheck(ALL_OK)] + ([HostReboot] + ([Startup(true, true, true)] + ([FinishReport(true, true)] + []))));
    ForeignIsNotHeld(rmcs, rev, m.files);
    assert m1.files == m.files && Report(rev, m.files) in end.reports;
  }

  /** One act that brings a process to rest and changes nothing else that matters here. */
  function ToRest(m: Machine): Act
  {
    match m.pc
    case Down => Startup(false, false, false)
    case Resting => Tick(0)
    case Working(_, todo, _) => if todo == [] then Finish(UnitsFailed, false, ALL_OK, false) else WriteFile(Apply.Cancelled, false)
    case Reporting(_) => FinishReport(false, false)
  }

  lemma ToRestRests(rmcs: RMCs, m: Machine)
    requires m.pc.Working? ==> m.pc.rev in rmcs
    ensures Enabled(rmcs, m, ToRest(m)) && Harmless(ToRest(m))
    ensures var m' := Next(rmcs, m, ToRest(m));
      && m'.pc == Resting && m'.files == m.files && m'.desired == m.desired && m'.current == m.current && m'.paused == m.paused
      && m'.rebootPending == m.rebootPending && m'.pendingReboot == m.pendingReboot
  {
  }

  /** If an act leaves the agent waiting for a reboot to a revision it never applied, it is not safe. */
  lemma UnsafeAct(rmcs: RMCs, rmcs': RMCs, m: Machine, act: Act, rev: string)
    requires SameBut(rmcs, rmcs', rev) && Inv(rmcs', m) && Enabled(rmcs', m, act)
    requires var m1 := Next(rmcs', m, act);
      && (m1.pc.Working? ==> m1.pc.rev in rmcs')
      && m1.desired == rev && WantsWork(m1) && (m1.rebootPending || m1.pendingReboot == rev)
      && rev in rmcs' && rmcs'[rev] == Foreign(m1.files)
    ensures !StaysHonest(rmcs, m, act, rev)
  {
    var m1 := Next(rmcs', m, act);
    ToRestRests(rmcs', m1);
    var m2 := Next(rmcs', m1, ToRest(m1));
    var tail, end := WaitingEndsInALie(rmcs', m2, rev);
    ExecOne(rmcs', m1, ToRest(m1), tail);
    ExecOne(rmcs', m, act, [ToRest(m1)] + tail);
    var acts := [act] + ([ToRest(m1)] + tail);
    var run := Trace(rmcs', m, acts);
    TraceIsRun(rmcs', m, acts);
    forall i | 0 < i < |acts| ensures Considerate(rmcs', run[i], acts[i]) {
      assert Harmless(acts[i]);
      assert Enabled(rmcs', run[i], acts[i]);
    }
    assert RestrainedAfter(rmcs', m, act, run, acts);
  }

  lemma SafeAct(rmcs: RMCs, m: Machine, act: Act, rev: string)
    requires m.reports == [] && Enabled(rmcs, m, act)
    requires forall rmcs': RMCs | SameBut(rmcs, rmcs', rev) && Enabled(rmcs', m, act) :: Considerate(rmcs', m, act)
    ensures StaysHonest(rmcs, m, act, rev)
  {
    forall rmcs': RMCs, run: seq<Machine>, acts: seq<Act> |
      SameBut(rmcs, rmcs', rev) && Inv(rmcs', m) && RestrainedAfter(rmcs', m, act, run, acts)
      ensures AllHonest(rmcs', run[|acts|].reports)
    {
      assert Enabled(rmcs', run[0], acts[0]);
      var cats := seq(|run|, i => rmcs');
      ReportsAreHonest(cats, run, acts);
    }
  }

  // ------------------------------------------------------------- changes that leave the agent nothing to do

  /** A reboot is marked pending, but none is recorded, and the agent has nothing to do that could record one. */
  predicate Blocked(m: Machine)
  {
    m.rebootPending && m.lastReboot.None? && !WantsWork(m) && (m.pc.Resting? || m.pc.Down?)
  }

  /** The desired revision is one whose reboot the agent remembers, and it has nothing to do about it. */
  ghost predicate Remembering(rmcs: RMCs, m: Machine)
  {
    && (forall r | r in rmcs :: KeysUnique(rmcs[r].files, PathOf))
    && !m.rebootPending && m.pendingReboot == m.desired != "" && !WantsWork(m)
    && (m.pc.Resting? || (m.pc.Working? && HalfApplied(rmcs, m)))
  }

  /** From either of these, with restraint, nothing false is reported, and the agent comes to where the
      invariant holds or stays. */
  ghost predicate Benign(rmcs: RMCs, m: Machine)
  {
    Inv(rmcs, m) || Blocked(m) || Remembering(rmcs, m)
  }

  lemma BlockedStep(rmcs: RMCs, m: Machine, act: Act)
    requires Blocked(m) && Enabled(rmcs, m, act) && Considerate(rmcs, m, act)
    ensures Blocked(Next(rmcs, m, act)) && Next(rmcs, m, act).reports == m.reports
  {
  }

  lemma RememberingFinish(rmcs: RMCs, m: Machine, act: Act)
    requires Remembering(rmcs, m) && act.Finish? && Enabled(rmcs, m, act) && Considerate(rmcs, m, act)
    ensures Benign(rmcs, Next(rmcs, m, act))
    ensures AllHonest(rmcs, m.reports) ==> AllHonest(rmcs, Next(rmcs, m, act).reports)
  {
    FinishFrame(rmcs, m, act);
    assert Held(rmcs, m.pc.rev, m.files);
    var m' := Next(rmcs, m, act);
    if m'.pendingReboot == m.pendingReboot {
      KeptMemoryKeepsCurrent(rmcs, m, act);
      assert Remembering(rmcs, m');
    } else {
      assert Inv(rmcs, m');
    }
  }

  /** An apply that ends without forgetting or replacing what the agent remembers ended in an error. */
  lemma KeptMemoryKeepsCurrent(rmcs: RMCs, m: Machine, act: Act)
    requires act.Finish? && Enabled(rmcs, m, act) && m.pendingReboot != "" && m.pc.rev != m.pendingReboot
    requires Next(rmcs, m, act).pendingReboot == m.pendingReboot
    ensures var m' := Next(rmcs, m, act);
      m'.current == m.current && m'.paused == m.paused && m'.desired == m.desired
  {
    HandleRebootFrame(m.(pc := Resting), true, rmcs[m.pc.rev].reboot, act.w);
  }

  lemma RememberingWrite(rmcs: RMCs, m: Machine, act: Act)
    requires Remembering(rmcs, m) && act.WriteFile? && Enabled(rmcs, m, act)
    ensures Remembering(rmcs, Next(rmcs, m, act)) && Next(rmcs, m, act).reports == m.reports
  {
    WriteKeepsHalfApplied(rmcs, m, act.fault, act.told);
  }

  lemma RememberingStep(rmcs: RMCs, m: Machine, act: Act)
    requires Remembering(rmcs, m) && Enabled(rmcs, m, act) && Considerate(rmcs, m, act) && AllHonest(rmcs, m.reports)
    ensures Benign(rmcs, Next(rmcs, m, act)) && AllHonest(rmcs, Next(rmcs, m, act).reports)
  {
    match act
    case WriteFile(_, _) => RememberingWrite(rmcs, m, act);
    case Finish(_, _, _, _) => RememberingFinish(rmcs, m, act);
    case SetDesired(rev) =>
      if rev == m.desired {
        assert Next(rmcs, m, act) == m;
      } else {
        assert Inv(rmcs, Next(rmcs, m, act));
      }
    case Crash => assert Inv(rmcs, Next(rmcs, m, act));
    case HostReboot => assert Inv(rmcs, Next(rmcs, m, act));
    case _ =>
  }

  lemma BenignStep(rmcs: RMCs, m: Machine, act: Act)
    requires Benign(rmcs, m) && Enabled(rmcs, m, act) && Considerate(rmcs, m, act) && AllHonest(rmcs, m.reports)
    ensures Benign(rmcs, Next(rmcs, m, act)) && AllHonest(rmcs, Next(rmcs, m, act).reports)
  {
    if Inv(rmcs, m) {
      StepKeepsInv(rmcs, m, act);
      StepReportsHonestly(rmcs, m, act);
    } else if Blocked(m) {
      BlockedStep(rmcs, m, act);
    } else {
      RememberingStep(rmcs, m, act);
    }
  }

  lemma {:induction false} BenignRun(rmcs: RMCs, run: seq<Machine>, acts: seq<Act>)
    requires IsRun(rmcs, run, acts) && |acts| > 0 && Benign(rmcs, run[1]) && AllHonest(rmcs, run[1].reports)
    requires forall i | 0 < i < |acts| :: Considerate(rmcs, run[i], acts[i])
    ensures AllHonest(rmcs, run[|acts|].reports)
  {
    var i := 1;
    while i < |acts|
      invariant 1 <= i <= |acts| && Benign(rmcs, run[i]) && AllHonest(rmcs, run[i].reports)
    {
      BenignStep(rmcs, run[i], acts[i]);
      i := i + 1;
    }
  }

  /** An act is safe if it leads to a benign machine, whatever the revision holds. */
  lemma BenignAct(rmcs: RMCs, m: Machine, act: Act, rev: string)
    requires forall rmcs': RMCs | SameBut(rmcs, rmcs', rev) && Inv(rmcs', m) && Enabled(rmcs', m, act) ::
      Benign(rmcs', Next(rmcs', m, act)) && AllHonest(rmcs', Next(rmcs', m, act).reports)
    ensures StaysHonest(rmcs, m, act, rev)
  {
    forall rmcs': RMCs, run: seq<Machine>, acts: seq<Act> |
      SameBut(rmcs, rmcs', rev) && Inv(rmcs', m) && RestrainedAfter(rmcs', m, act, run, acts)
      ensures AllHonest(rmcs', run[|acts|].reports)
    {
      assert Enabled(rmcs', run[0], acts[0]) && run[1] == Next(rmcs', run[0], acts[0]);
      BenignRun(rmcs', run, acts);
    }
  }

  // ------------------------------------------------------------- the exact conditions

  /** A change of the desired revision to `rev` that the honest-report invariant survives, or that nothing comes of. */
  predicate SafeChange(m: Machine, rev: string)
  {
    || rev == m.desired
    || (if m.paused || rev == m.current then !m.rebootPending || m.lastReboot.None?
        else !m.rebootPending && rev != m.pendingReboot)
  }

  /** A change of the desired revision is safe exactly when no reboot is marked pending and the new revision
      is not one whose reboot the agent still remembers; or, if it leaves the agent nothing to do (the node is
      paused or runs that revision), when no reboot is both marked pending and recorded.  An unsafe one ends in a
      false report, for some content of the new revision and with every party showing restraint afterwards. */
  lemma ChangeWhileAwaiting(rmcs: RMCs, m: Machine, rev: string)
    requires Inv(rmcs, m) && m.reports == [] && rev != ""
    ensures StaysHonest(rmcs, m, SetDesired(rev), rev) <==> SafeChange(m, rev)
  {
    if SafeChange(m, rev) {
      SafeChangeIsBenign(rmcs, m, rev);
    } else if m.paused || rev == m.current {
      RecordedChangeIsUnsafe(rmcs, m, rev);
    } else {
      var rmcs' := rmcs[rev := Foreign(m.files)];
      UnsafeAct(rmcs, rmcs', m, SetDesired(rev), rev);
    }
  }

  lemma SafeChangeIsBenign(rmcs: RMCs, m: Machine, rev: string)
    requires Inv(rmcs, m) && m.reports == [] && rev != "" && SafeChange(m, rev)
    ensures StaysHonest(rmcs, m, SetDesired(rev), rev)
  {
    forall rmcs': RMCs | SameBut(rmcs, rmcs', rev) && Inv(rmcs', m)
      ensures Benign(rmcs', Next(rmcs', m, SetDesired(rev))) && AllHonest(rmcs', Next(rmcs', m, SetDesired(rev)).reports)
    {
      var m' := Next(rmcs', m, SetDesired(rev));
      if Considerate(rmcs', m, SetDesired(rev)) {
        StepKeepsInv(rmcs', m, SetDesired(rev));
      } else if m.rebootPending {
        assert Blocked(m');
      } else {
        assert Remembering(rmcs', m');
      }
    }
    BenignAct(rmcs, m, SetDesired(rev), rev);
  }

  /** With a reboot both marked pending and recorded, the next boot reports whatever is desired. */
  lemma RecordedChangeIsUnsafe(rmcs: RMCs, m: Machine, rev: string)
    requires Inv(rmcs, m) && m.rebootPending && m.lastReboot.Some? && rev != "" && rev != m.desired
    ensures !StaysHonest(rmcs, m, SetDesired(rev), rev)
  {
    var rmcs' := rmcs[rev := Foreign(m.files)];
    var acts, end := RetargetedThenRebooted(rmcs', m, rev);
    var run := Trace(rmcs', m, acts);
    TraceIsRun(rmcs', m, acts);
    forall i | 0 < i < |acts| ensures Considerate(rmcs', run[i], acts[i]) {
      assert Harmless(acts[i]) && Enabled(rmcs', run[i], acts[i]);
    }
    ForeignIsNotHeld(rmcs', rev, m.files);
    assert Report(rev, m.files) in end.reports;
    assert RestrainedAfter(rmcs', m, SetDesired(rev), run, acts);
  }

  /** Retargeted while it awaits a reboot, an agent reports the new revision on the files it has. */
  lemma RetargetedThenRebooted(rmcs: RMCs, m: Machine, rev: string) returns (acts: seq<Act>, end: Machine)
    requires m.rebootPending && m.lastReboot.Some? && rev != ""
    ensures acts == [SetDesired(rev), HostReboot, Startup(true, true, true), FinishReport(true, true)]
    ensures Exec(rmcs, m, acts) == Some(end)
    ensures end.current == rev && end.files == m.files && end.reports == m.reports + [Report(rev, m.files)]
  {
    var m1 := Next(rmcs, m, SetDesired(rev));
    var tail;
    tail, end := RebootedThenReports(rmcs, m1);
    acts := [SetDesired(rev)] + tail;
    ExecOne(rmcs, m, SetDesired(rev), tail);
  }

  lemma RebootedThenReports(rmcs: RMCs, m: Machine) returns (acts: seq<Act>, end: Machine)
    requires m.rebootPending && m.lastReboot.Some? && m.desired != ""
    ensures acts == [HostReboot, Startup(true, true, true), FinishReport(true, true)]
    ensures Exec(rmcs, m, acts) == Some(end)
    ensures end.current == m.desired && end.files == m.files && end.reports == m.reports + [Report(m.desired, m.files)]
  {
    var m2 := Next(rmcs, m, HostReboot);
    var m3 := Next(rmcs, m2, Startup(true, true, true));
    end := Next(rmcs, m3, FinishReport(true, true));
    acts := [HostReboot] + ([Startup(true, true, true)] + ([FinishReport(true, true)] + []));
    ExecOne(rmcs, m3, FinishReport(true, true), []);
    ExecOne(rmcs, m2, Startup(true, true, true), [FinishReport(true, true)] + []);
    ExecOne(rmcs, m, HostReboot, [Startup(true, true, true)] + ([FinishReport(true, true)] + []));
  }

  /** The end of an apply that the honest-report invariant survives, or that nothing comes of. */
  predicate SafeEnd(rmcs: RMCs, m: Machine, finish: Act)
    requires finish.Finish? && Enabled(rmcs, m, finish)
  {
    m.pc.rev == m.desired || !EndsPending(rmcs, m, finish) || (!WantsWork(m) && m.lastReboot.None?)
  }

  /** The end of an apply is safe exactly when it is still the desired revision's, or does not end with its reboot
      marked pending, or leaves the agent nothing to do on a host that has recorded no reboot. */
  lemma ChangeWhileApplying(rmcs: RMCs, m: Machine, finish: Act)
    requires Inv(rmcs, m) && m.reports == [] && finish.Finish? && Enabled(rmcs, m, finish) && m.desired != ""
    ensures StaysHonest(rmcs, m, finish, m.desired) <==> SafeEnd(rmcs, m, finish)
  {
    if Considerate(rmcs, m, finish) {
      SafeAct(rmcs, m, finish, m.desired);
    } else if SafeEnd(rmcs, m, finish) {
      BlockedEndIsSafe(rmcs, m, finish);
    } else {
      UnsafeEnd(rmcs, m, finish);
    }
  }

  lemma BlockedEndIsSafe(rmcs: RMCs, m: Machine, finish: Act)
    requires Inv(rmcs, m) && m.reports == [] && finish.Finish? && Enabled(rmcs, m, finish) && m.pc.rev != m.desired
    requires EndsPending(rmcs, m, finish) && !WantsWork(m) && m.lastReboot.None?
    ensures StaysHonest(rmcs, m, finish, m.desired)
  {
    forall rmcs': RMCs | SameBut(rmcs, rmcs', m.desired) && Inv(rmcs', m) && Enabled(rmcs', m, finish)
      ensures Benign(rmcs', Next(rmcs', m, finish)) && AllHonest(rmcs', Next(rmcs', m, finish).reports)
    {
      PendingEndIsPending(rmcs', m, finish);
      assert Blocked(Next(rmcs', m, finish));
    }
    BenignAct(rmcs, m, finish, m.desired);
  }

  lemma UnsafeEnd(rmcs: RMCs, m: Machine, finish: Act)
    requires Inv(rmcs, m) && finish.Finish? && Enabled(rmcs, m, finish) && m.pc.rev != m.desired && m.desired != ""
    requires EndsPending(rmcs, m, finish) && (WantsWork(m) || m.lastReboot.Some?)
    ensures !StaysHonest(rmcs, m, finish, m.desired)
  {
    var rmcs' := rmcs[m.desired := Foreign(m.files)];
    PendingEndIsPending(rmcs', m, finish);
    if WantsWork(m) {
      UnsafeAct(rmcs, rmcs', m, finish, m.desired);
    } else {
      var m1 := Next(rmcs', m, finish);
      var tail, end := RebootedThenReports(rmcs', m1);
      var acts := [finish] + tail;
      ExecOne(rmcs', m, finish, tail);
      var run := Trace(rmcs', m, acts);
      TraceIsRun(rmcs', m, acts);
      forall i | 0 < i < |acts| ensures Considerate(rmcs', run[i], acts[i]) {
        assert Harmless(acts[i]) && Enabled(rmcs', run[i], acts[i]);
      }
      ForeignIsNotHeld(rmcs', m.desired, m.files);
      assert Report(m.desired, m.files) in end.reports;
      assert RestrainedAfter(rmcs', m, finish, run, acts);
    }
  }

  lemma PendingEndIsPending(rmcs: RMCs, m: Machine, finish: Act)
    requires finish.Finish? && Enabled(rmcs, m, finish) && EndsPending(rmcs, m, finish)
    ensures var m' := Next(rmcs, m, finish);
      && m'.rebootPending && m'.current == m.current && m'.paused == m.paused && m'.desired == m.desired && m'.files == m.files
      && m'.lastReboot == m.lastReboot && m'.pc == Resting && m'.reports == m.reports
  {
  }

  // ------------------------------------------------------------- one such host

  function OneFile(name: string, content: string): RMC
  {
    RMC(name, "pool", name, "", [FileSpec("/f", content, 0, "", "")], [], [], map[], map[], RebootSpec(true, "Never", 0))
  }

  const CATALOGUE := map["a" := OneFile("a", "one"), "b" := OneFile("b", "two")]

  /** A host that holds revision a and awaits its reboot. */
  const AWAITING := Machine(
    map["/f" := "one"], Some(0), true, "a", "", Nodes.Applying, true, false, false, Resting, "a", 0, [], [])

  /** Retargeted to b before the reboot comes, this host reports b while it holds a. */
  lemma FalseReport() returns (end: Machine)
    ensures Inv(CATALOGUE, AWAITING) && AWAITING.reports == []
    ensures Exec(CATALOGUE, AWAITING, [SetDesired("b"), HostReboot, Startup(true, true, true), FinishReport(true, true)]) == Some(end)
    ensures end.current == "b" && end.files == map["/f" := "one"] && !AllHonest(CATALOGUE, end.reports)
  {
    var acts;
    acts, end := RetargetedThenRebooted(CATALOGUE, AWAITING, "b");
    assert CATALOGUE["b"].files[0] in CATALOGUE["b"].files;
    assert Report("b", AWAITING.files) in end.reports;
  }

  // ------------------------------------------------------------- forgotten reboots

  predicate IsWrite(act: Act)
  {
    act.WriteFile?
  }

  /** One write that goes through: it counts as a change exactly when the file did not hold, and
      leaves what holds of the others as it was. */
  lemma WriteChangesIffNotHeld(rmcs: RMCs, m: Machine, act: Act)
    requires IsWrite(act) && Enabled(rmcs, m, act) && KeysUnique(m.pc.todo, PathOf)
    requires Next(rmcs, m, act).pc.Working?
    ensures var m', f, rest := Next(rmcs, m, act), m.pc.todo[0], m.pc.todo[1..];
      && m' == m.(files := m'.files, pc := Working(m.pc.rev, rest, m'.pc.changed))
      && (m'.pc.changed <==> m.pc.changed || !Apply.FileHolds(m.files, f))
      && forall g | g in rest :: Apply.FileHolds(m'.files, g) <==> Apply.FileHolds(m.files, g)
  {
    var f, rest := m.pc.todo[0], m.pc.todo[1..];
    TailMembers(m.pc.todo, PathOf);
    forall g | g in rest ensures g.path != f.path {
      assert PathOf(g) != PathOf(f);
    }
  }

  /** Writes that get an apply to the end of its list find something to change exactly when the list asks
      for something the host does not hold. */
  lemma {:induction false} WritesChangeIffNotHeld(rmcs: RMCs, m: Machine, acts: seq<Act>)
    requires m.pc.Working? && KeysUnique(m.pc.todo, PathOf)
    requires (forall i | 0 <= i < |acts| :: IsWrite(acts[i])) && Exec(rmcs, m, acts).Some?
    requires var end := Exec(rmcs, m, acts).value; end.pc.Working? && end.pc.todo == []
    ensures var end := Exec(rmcs, m, acts).value;
      && end == m.(files := end.files, pc := Working(m.pc.rev, [], end.pc.changed))
      && (end.pc.changed <==> m.pc.changed || exists f :: f in m.pc.todo && !Apply.FileHolds(m.files, f))
    decreases |acts|
  {
    if acts != [] {
      var m' := Next(rmcs, m, acts[0]);
      assert IsWrite(acts[0]);
      StillWorking(rmcs, m', acts[1..]);
      WriteChangesIffNotHeld(rmcs, m, acts[0]);
      WritesChangeIffNotHeld(rmcs, m', acts[1..]);
      assert m.pc.todo == [m.pc.todo[0]] + m'.pc.todo;
    }
  }

  /** No write follows the end of an apply. */
  lemma StillWorking(rmcs: RMCs, m: Machine, acts: seq<Act>)
    requires (forall i | 0 <= i < |acts| :: IsWrite(acts[i])) && Exec(rmcs, m, acts).Some?
    requires Exec(rmcs, m, acts).value.pc.Working?
    ensures m.pc.Working?
  {
    assert acts != [] ==> IsWrite(acts[0]);
  }

  /** Reported done, with no reboot made, marked or remembered since `m`. */
  predicate Forgotten(m: Machine, end: Machine)
  {
    end.state.Done? && end.current == m.desired && end.reboots == m.reboots && !end.rebootPending && end.pendingReboot == ""
  }

  ghost predicate AllHold(rmcs: RMCs, m: Machine)
    requires m.desired in rmcs
  {
    forall f | f in rmcs[m.desired].files :: Apply.FileHolds(m.files, f)
  }

  /** An apply, from its announcement through the end of its writes. */
  ghost predicate AppliesTo(rmcs: RMCs, m: Machine, writes: seq<Act>, end: Machine)
  {
    && (forall i | 0 <= i < |writes| :: IsWrite(writes[i]))
    && Exec(rmcs, m, [Begin] + writes) == Some(end) && end.pc.Working? && end.pc.todo == []
  }

  /** An apply of a revision that needs a reboot forgets it exactly when it finds every file in place
      and no unit to change. */
  lemma ApplyForgetsIff(rmcs: RMCs, m: Machine, writes: seq<Act>, applied: Machine, units: UnitOutcome, w: Writes)
    requires Enabled(rmcs, m, Begin) && KeysUnique(rmcs[m.desired].files, PathOf) && AppliesTo(rmcs, m, writes, applied)
    ensures Enabled(rmcs, applied, Finish(units, true, w, true))
    ensures Forgotten(m, Next(rmcs, applied, Finish(units, true, w, true))) <==> AllHold(rmcs, m) && units.UnitsUnchanged?
  {
    var files := rmcs[m.desired].files;
    var begun := Next(rmcs, m, Begin);
    ExecOne(rmcs, m, Begin, writes);
    SortKeepsMembers(files, Apply.FileBefore);
    SortByKeyIsStrict(files, PathOf, Apply.FileBefore);
    StrictlySortedUniqueKeys(begun.pc.todo, PathOf);
    WritesChangeIffNotHeld(rmcs, begun, writes);
    EndForgetsIff(rmcs, applied, units, w);
  }

  lemma EndForgetsIff(rmcs: RMCs, m: Machine, units: UnitOutcome, w: Writes)
    requires Enabled(rmcs, m, Finish(units, true, w, true)) && m.state.Applying? && !m.rebootPending && m.pc.rev == m.desired
    ensures Forgotten(m, Next(rmcs, m, Finish(units, true, w, true))) <==> !m.pc.changed && units.UnitsUnchanged?
  {
    if units.UnitsFailed? {
    } else if !m.pc.changed && units.UnitsUnchanged? {
    } else if HandleRebootFails(m.(pc := Resting), true, rmcs[m.pc.rev].reboot, w) {
    } else {
    }
  }

  /** An apply that runs to its end and has changed something answers for the reboot it needs: the host
      reboots, the reboot is marked pending, or the error is reported. */
  lemma EndAnswersForReboot(rmcs: RMCs, m: Machine, units: UnitOutcome, w: Writes)
    requires Enabled(rmcs, m, Finish(units, true, w, true)) && (m.pc.changed || !units.UnitsUnchanged?)
    ensures var m' := Next(rmcs, m, Finish(units, true, w, true));
      m'.reboots == m.reboots + [m.now] || m'.rebootPending || m'.state.Failed?
  {
    if units.UnitsFailed? {
    } else if HandleRebootFails(m.(pc := Resting), true, rmcs[m.pc.rev].reboot, w) {
    } else {
    }
  }

  /** A crash anywhere in an apply: the next apply forgets the reboot exactly when every file of
      the desired revision was already in place. */
  lemma CrashForgetsReboot(rmcs: RMCs, m: Machine, writes: seq<Act>, applied: Machine, units: UnitOutcome, w: Writes)
    requires Inv(rmcs, m) && m.pc.Working? && WantsWork(m) && m.desired in rmcs
    requires var up := m.(pc := Resting, pendingReboot := "", state := Nodes.Idle, bootMarker := true);
      AppliesTo(rmcs, up, writes, applied)
    ensures Exec(rmcs, m, [Crash, Startup(true, true, true)]) ==
      Some(m.(pc := Resting, pendingReboot := "", state := Nodes.Idle, bootMarker := true))
    ensures Enabled(rmcs, applied, Finish(units, true, w, true))
    ensures Forgotten(m, Next(rmcs, applied, Finish(units, true, w, true))) <==> AllHold(rmcs, m) && units.UnitsUnchanged?
  {
    var down := Next(rmcs, m, Crash);
    var up := Next(rmcs, down, Startup(true, true, true));
    ExecOne(rmcs, down, Startup(true, true, true), []);
    ExecOne(rmcs, m, Crash, [Startup(true, true, true)]);
    assert [Startup(true, true, true)] == [Startup(true, true, true)] + [];
    assert [Crash, Startup(true, true, true)] == [Crash] + [Startup(true, true, true)];
    ApplyForgetsIff(rmcs, up, writes, applied, units, w);
  }

  /** No crash is needed: when the reboot is required and neither made nor marked because the call failed,
      the error is reported, and the next apply of the same revision, with no unit to change, reports it done. */
  lemma FailedRebootIsForgotten(rmcs: RMCs, m: Machine, w: Writes, writes: seq<Act>, applied: Machine, again: Writes)
    requires Inv(rmcs, m) && m.pc.Working? && m.pc.todo == [] && m.pc.rev == m.desired && WantsWork(m)
    requires m.pc.changed && HandleRebootFails(m, true, rmcs[m.pc.rev].reboot, w)
    requires var failed := Next(rmcs, m, Finish(UnitsUnchanged, true, w, true)); AppliesTo(rmcs, failed, writes, applied)
    ensures Enabled(rmcs, applied, Finish(UnitsUnchanged, true, again, true))
    ensures var failed := Next(rmcs, m, Finish(UnitsUnchanged, true, w, true));
      failed.state.Failed? && Forgotten(failed, Next(rmcs, applied, Finish(UnitsUnchanged, true, again, true)))
  {
    var finish := Finish(UnitsUnchanged, true, w, true);
    var failed := Next(rmcs, m, finish);
    FinishFrame(rmcs, m, finish);
    FinishKeepsInv(rmcs, m, finish);
    ExecOne(rmcs, failed, Begin, writes);
    ApplyForgetsIff(rmcs, failed, writes, applied, UnitsUnchanged, again);
  }
}
