/** Applying a rendered config to a host (internal/agent/apply.go, files.go, systemd.go).

Files are compared and written by content only; a path is taken to be in its clean form, so that
different paths are different files.  Units follow the state changes that the repository's own
systemd double prescribes (internal/agent/systemd_test.go). */
module Apply {
  import opened Order
  import opened Config

  // ------------------------------------------------------------- files

  datatype FileAction = Write | Delete | UnknownState

  function ActionOf(f: FileSpec): FileAction
  {
    if f.state == "absent" then Delete
    else if f.state == "" || f.state == "present" then Write
    else UnknownState
  }

  predicate IsAbs(path: string)
  {
    path != "" && path[0] == '/'
  }

  /** Where an item goes wrong, if it does: stopped before it, failing before or after the change. */
  datatype Fault = NoFault | Cancelled | FailsBefore | FailsAfter

  datatype Step<S> = Step(host: S, applied: bool, ok: bool)

  /** Apply of the file applier. */
  function ApplyFile(files: map<string, string>, f: FileSpec, fault: Fault): Step<map<string, string>>
  {
    if fault.Cancelled? || !IsAbs(f.path) then Step(files, false, false)
    else match ActionOf(f)
      case UnknownState => Step(files, false, false)
      case Delete =>
        if f.path !in files then Step(files, false, true)
        else if fault != NoFault then Step(files, false, false)
        else Step(files - {f.path}, true, true)
      case Write =>
        if f.path in files && files[f.path] == f.content then Step(files, false, true)
        else if fault.FailsBefore? then Step(files, false, false)
        else Step(files[f.path := f.content], true, !fault.FailsAfter?)
  }

  /** The host has what a file spec asks for. */
  predicate FileHolds(files: map<string, string>, f: FileSpec)
  {
    if f.state == "absent" then f.path !in files
    else (f.state == "present" || f.state == "") && f.path in files && files[f.path] == f.content
  }

  /** A file is never left half written: whatever goes wrong it is as it was or as specified, and it is as it was
      unless the failure comes after the change.  Undisturbed, a file with an absolute path and a known state
      comes to hold, and is only touched if it did not. */
  lemma FileIsWholeOrUntouched(files: map<string, string>, f: FileSpec, fault: Fault)
    ensures var r := ApplyFile(files, f, fault);
      && (r.host == files || FileHolds(r.host, f))
      && (!r.ok && !fault.FailsAfter? ==> r.host == files)
      && (!r.applied ==> r.host == files)
      && (r.ok ==> FileHolds(r.host, f) && (r.applied <==> !FileHolds(files, f)))
      && (r.ok && !FileHolds(files, f) ==> fault.NoFault?)
      && (fault.NoFault? ==>
            (r.ok <==> f.path != "" && f.path[0] == '/' && (f.state == "" || f.state == "present" || f.state == "absent")))
  {
  }

  // ------------------------------------------------------------- units

  datatype UnitFileState = NoFileState | Masked | Enabled | EnabledRuntime | Disabled | OtherFileState(text: string)

  datatype ActiveState = NoActiveState | Active | Inactive | FailedState | OtherActiveState(text: string)

  datatype UnitStatus = UnitStatus(fileState: UnitFileState, active: ActiveState)

  datatype UnitAction = Leave | Start | Stop | Restart | Reload | UnknownAction

  function UnitActionOf(u: UnitSpec): UnitAction
  {
    if u.state == "" then Leave
    else if u.state == "started" then Start
    else if u.state == "stopped" then Stop
    else if u.state == "restarted" then Restart
    else if u.state == "reloaded" then Reload
    else UnknownAction
  }

  /** Which of the calls made for a unit fail. */
  datatype UnitFault = UnitFault(cancelled: bool, maskFails: bool, enableFails: bool, stateFails: bool)

  const NO_UNIT_FAULT := UnitFault(false, false, false, false)

  function ApplyMask(s: UnitStatus, mask: bool, fails: bool): Step<UnitStatus>
  {
    if mask then
      if s.fileState.Masked? then Step(s, false, true)
      else Step(if fails then s else s.(fileState := Masked), true, !fails)
    else
      if !s.fileState.Masked? then Step(s, false, true)
      else Step(if fails then s else s.(fileState := Disabled), true, !fails)
  }

  function ApplyEnabled(s: UnitStatus, enabled: bool, fails: bool): Step<UnitStatus>
  {
    if enabled then
      if s.fileState.Enabled? || s.fileState.EnabledRuntime? then Step(s, false, true)
      else Step(if fails then s else s.(fileState := Enabled), true, !fails)
    else
      if s.fileState.Disabled? || s.fileState.NoFileState? then Step(s, false, true)
      else Step(if fails then s else s.(fileState := Disabled), true, !fails)
  }

  function ApplyState(s: UnitStatus, action: UnitAction, fails: bool): Step<UnitStatus>
  {
    match action
    case Leave => Step(s, false, true)
    case Start =>
      if s.active.Active? then Step(s, false, true)
      else Step(if fails then s else s.(active := Active), true, !fails)
    case Stop =>
      if s.active.Inactive? || s.active.FailedState? || s.active.NoActiveState? then Step(s, false, true)
      else Step(if fails then s else s.(active := Inactive), true, !fails)
    case Restart => Step(if fails then s else s.(active := Active), true, !fails)
    case Reload => Step(s, true, !fails)
    case UnknownAction => Step(s, false, false)
  }

  /** Apply of the systemd applier: mask, then enablement, then run state. */
  function ApplyUnit(s: UnitStatus, u: UnitSpec, fault: UnitFault): Step<UnitStatus>
  {
    if fault.cancelled then Step(s, false, false)
    else
      var m := ApplyMask(s, u.mask, fault.maskFails);
      if !m.ok then m
      else
        var e := if u.enabled.None? then Step(m.host, false, true) else ApplyEnabled(m.host, u.enabled.value, fault.enableFails);
        if !e.ok then e
        else
          var r := ApplyState(e.host, UnitActionOf(u), fault.stateFails);
          Step(r.host, m.applied || e.applied || r.applied, r.ok)
  }

  function StatusOf(units: map<string, UnitStatus>, name: string): UnitStatus
  {
    if name in units then units[name] else UnitStatus(NoFileState, NoActiveState)
  }

  /** A spec whose second application does nothing. */
  predicate Idempotent(u: UnitSpec)
  {
    !(u.mask && u.enabled.Some?) && u.state != "restarted" && u.state != "reloaded"
  }

  /** A unit that was `before` has become what the spec asks for, in the spec's own words. */
  predicate UnitHolds(before: UnitStatus, after: UnitStatus, u: UnitSpec)
  {
    && (u.state == "started" || u.state == "restarted" ==> after.active.Active?)
    && (u.state == "stopped" ==> after.active.Inactive? || after.active.FailedState? || after.active.NoActiveState?)
    && (u.state == "" || u.state == "reloaded" ==> after.active == before.active)
    && (u.state == "" || u.state == "started" || u.state == "stopped" || u.state == "restarted" || u.state == "reloaded")
    && (u.enabled == Some(true) ==> after.fileState.Enabled? || after.fileState.EnabledRuntime?)
    && (u.enabled == Some(false) ==> after.fileState.Disabled? || after.fileState.NoFileState?)
    && (u.enabled == None ==>
          after.fileState == if u.mask then Masked else if before.fileState.Masked? then Disabled else before.fileState)
  }

  /** What applying a unit achieves: if it succeeds the unit has become what the spec asks for; if it reports no
      change there was none; a spec that is idempotent and holds already is left alone; and if every call fails
      nothing changes, and nothing is reported as done. */
  lemma UnitAchieves(s: UnitStatus, u: UnitSpec, fault: UnitFault)
    ensures var r := ApplyUnit(s, u, fault);
      && (r.ok ==> UnitHolds(s, r.host, u))
      && (!r.applied && r.ok ==> r.host == s)
      && (Idempotent(u) && UnitHolds(s, s, u) && !fault.cancelled ==> r == Step(s, false, true))
      && (fault.maskFails && fault.enableFails && fault.stateFails ==> r.host == s && !(r.ok && r.applied))
  {
  }

  /** Applying a unit again after a success does something exactly when the spec restarts or reloads
      it, or both masks it and says whether it is enabled. */
  lemma UnitAgain(s: UnitStatus, u: UnitSpec, fault: UnitFault)
    requires ApplyUnit(s, u, fault).ok
    ensures var s' := ApplyUnit(s, u, fault).host;
      var again := ApplyUnit(s', u, NO_UNIT_FAULT);
      again.ok && (again.applied <==> !Idempotent(u)) && (Idempotent(u) ==> again.host == s')
  {
  }

  /** A unit the host does not know has no state: there is nothing to stop, disable or unmask. */
  lemma UnknownUnitIsLeft(units: map<string, UnitStatus>, u: UnitSpec, fault: UnitFault)
    requires u.name !in units && !fault.cancelled
    requires (u.state == "" || u.state == "stopped") && u.enabled != Some(true) && !u.mask
    ensures ApplyUnit(StatusOf(units, u.name), u, fault) == Step(UnitStatus(NoFileState, NoActiveState), false, true)
  {
  }

  // ------------------------------------------------------------- a whole config

  datatype Faults = Faults(file: string -> Fault, unit: string -> UnitFault)

  /** A pass over files or over units: the host after it, what was counted, and whether it got through. */
  datatype Pass<S> = Pass(host: S, applied: nat, skipped: nat, ok: bool)

  function FilePass(files: map<string, string>, list: seq<FileSpec>, fault: string -> Fault, applied: nat, skipped: nat): Pass<map<string, string>>
    decreases |list|
  {
    if list == [] then Pass(files, applied, skipped, true)
    else
      var s := ApplyFile(files, list[0], fault(list[0].path));
      if !s.ok then Pass(s.host, applied, skipped, false)
      else if s.applied then FilePass(s.host, list[1..], fault, applied + 1, skipped)
      else FilePass(s.host, list[1..], fault, applied, skipped + 1)
  }

  function UnitPass(units: map<string, UnitStatus>, list: seq<UnitSpec>, fault: string -> UnitFault, applied: nat, skipped: nat): Pass<map<string, UnitStatus>>
    decreases |list|
  {
    if list == [] then Pass(units, applied, skipped, true)
    else
      var s := ApplyUnit(StatusOf(units, list[0].name), list[0], fault(list[0].name));
      var units' := units[list[0].name := s.host];
      if !s.ok then Pass(units', applied, skipped, false)
      else if s.applied then UnitPass(units', list[1..], fault, applied + 1, skipped)
      else UnitPass(units', list[1..], fault, applied, skipped + 1)
  }

  predicate FileBefore(a: FileSpec, b: FileSpec) { StrLess(PathOf(a), PathOf(b)) }

  predicate UnitBefore(a: UnitSpec, b: UnitSpec) { StrLess(NameOf(a), NameOf(b)) }

  datatype ApplyResult = ApplyResult(success: bool, filesApplied: nat, filesSkipped: nat, unitsApplied: nat, unitsSkipped: nat)

  class Applier {
    var files: map<string, string>
    var units: map<string, UnitStatus>

    constructor (files: map<string, string>, units: map<string, UnitStatus>)
      ensures this.files == files && this.units == units
    {
      this.files, this.units := files, units;
    }

    /** Apply of the applier: files by path, then units by name, stopping at the first error. */
    method ApplyConfig(fs: seq<FileSpec>, us: seq<UnitSpec>, faults: Faults) returns (r: ApplyResult)
      modifies this
      ensures var f := FilePass(old(files), Sort(fs, FileBefore), faults.file, 0, 0);
        && files == f.host && r.filesApplied == f.applied && r.filesSkipped == f.skipped
        && (!f.ok ==> units == old(units) && r == ApplyResult(false, f.applied, f.skipped, 0, 0))
        && (f.ok ==>
              var u := UnitPass(old(units), Sort(us, UnitBefore), faults.unit, 0, 0);
              units == u.host && r == ApplyResult(u.ok, f.applied, f.skipped, u.applied, u.skipped))
      ensures r.success && KeysUnique(fs, PathOf) && KeysUnique(us, NameOf) ==> AsSpecified(files, units, old(units), fs, us)
    {
      r := ApplyResult(false, 0, 0, 0, 0);
      var sorted := Sort(fs, FileBefore);
      for i := 0 to |sorted|
        invariant units == old(units) && r == ApplyResult(false, r.filesApplied, r.filesSkipped, 0, 0)
        invariant FilePass(old(files), sorted, faults.file, 0, 0)
               == FilePass(files, sorted[i..], faults.file, r.filesApplied, r.filesSkipped)
      {
        assert sorted[i..][0] == sorted[i] && sorted[i..][1..] == sorted[i + 1..];
        var s := ApplyFile(files, sorted[i], faults.file(sorted[i].path));
        files := s.host;
        if !s.ok {
          return;
        }
        if s.applied {
          r := r.(filesApplied := r.filesApplied + 1);
        } else {
          r := r.(filesSkipped := r.filesSkipped + 1);
        }
      }
      ghost var filesDone := r;
      var sortedUnits := Sort(us, UnitBefore);
      for i := 0 to |sortedUnits|
        invariant r == filesDone.(unitsApplied := r.unitsApplied, unitsSkipped := r.unitsSkipped)
        invariant FilePass(old(files), sorted, faults.file, 0, 0) == Pass(files, r.filesApplied, r.filesSkipped, true)
        invariant UnitPass(old(units), sortedUnits, faults.unit, 0, 0)
               == UnitPass(units, sortedUnits[i..], faults.unit, r.unitsApplied, r.unitsSkipped)
      {
        assert sortedUnits[i..][0] == sortedUnits[i] && sortedUnits[i..][1..] == sortedUnits[i + 1..];
        var u := sortedUnits[i];
        var s := ApplyUnit(StatusOf(units, u.name), u, faults.unit(u.name));
        units := units[u.name := s.host];
        if !s.ok {
          return;
        }
        if s.applied {
          r := r.(unitsApplied := r.unitsApplied + 1);
        } else {
          r := r.(unitsSkipped := r.unitsSkipped + 1);
        }
      }
      r := r.(success := true);
      if KeysUnique(fs, PathOf) && KeysUnique(us, NameOf) {
        SuccessIsAsSpecified(old(files), old(units), fs, us, faults);
      }
    }
  }

  // ------------------------------------------------------------- what a pass achieves

  /** Only the paths of the specs are touched. */
  ghost predicate UntouchedBut<T>(before: map<string, T>, after: map<string, T>, keys: set<string>)
  {
    forall k | k !in keys :: (k in before <==> k in after) && (k in before ==> before[k] == after[k])
  }

  /** A successful pass makes every spec hold, whatever the host was, and counts every spec once. */
  lemma {:induction false} FilePassHolds(files: map<string, string>, list: seq<FileSpec>, fault: string -> Fault, applied: nat, skipped: nat)
    requires KeysUnique(list, PathOf)
    requires FilePass(files, list, fault, applied, skipped).ok
    ensures var p := FilePass(files, list, fault, applied, skipped);
      && (forall f | f in list :: FileHolds(p.host, f))
      && p.applied + p.skipped == applied + skipped + |list|
      && UntouchedBut(files, p.host, Keys(list, PathOf))
      && (p.applied >= applied) && (p.applied == applied ==> p.host == files)
    decreases |list|
  {
    if list != [] {
      var f, rest := list[0], list[1..];
      var s := ApplyFile(files, f, fault(f.path));
      var a, k := if s.applied then applied + 1 else applied, if s.applied then skipped else skipped + 1;
      TailMembers(list, PathOf);
      FilePassHolds(s.host, rest, fault, a, k);
      assert PathOf(f) == f.path;
      assert f.path !in Keys(rest, PathOf);
      assert list == [f] + rest;
      assert FileHolds(s.host, f);
    }
  }

  /** On a host where every spec holds, a pass changes nothing. */
  lemma {:induction false} FilePassOnHeld(files: map<string, string>, list: seq<FileSpec>, fault: string -> Fault, applied: nat, skipped: nat)
    requires forall f | f in list :: FileHolds(files, f) && IsAbs(f.path)
    requires forall p :: fault(p) == NoFault
    ensures FilePass(files, list, fault, applied, skipped) == Pass(files, applied, skipped + |list|, true)
    decreases |list|
  {
    if list != [] {
      assert list[0] in list;
      assert ApplyFile(files, list[0], fault(list[0].path)) == Step(files, false, true);
      FilePassOnHeld(files, list[1..], fault, applied, skipped + 1);
    }
  }

  lemma {:induction false} PassedFilesAreAbsolute(files: map<string, string>, list: seq<FileSpec>, fault: string -> Fault, applied: nat, skipped: nat)
    requires FilePass(files, list, fault, applied, skipped).ok
    ensures forall f | f in list :: f.path != "" && f.path[0] == '/'
    decreases |list|
  {
    if list != [] {
      var s := ApplyFile(files, list[0], fault(list[0].path));
      PassedFilesAreAbsolute(s.host, list[1..], fault,
                             if s.applied then applied + 1 else applied, if s.applied then skipped else skipped + 1);
      assert list == [list[0]] + list[1..];
    }
  }

  /** A failed pass got through the specs before the failing one and ended at its step. */
  lemma {:induction false} FailedFilePassSplits(files: map<string, string>, list: seq<FileSpec>, fault: string -> Fault, applied: nat, skipped: nat)
    returns (n: nat)
    requires !FilePass(files, list, fault, applied, skipped).ok
    ensures n < |list|
    ensures var q := FilePass(files, list[..n], fault, applied, skipped);
      var s := ApplyFile(q.host, list[n], fault(list[n].path));
      q.ok && !s.ok && FilePass(files, list, fault, applied, skipped) == Pass(s.host, q.applied, q.skipped, false)
    decreases |list|
  {
    var f, rest := list[0], list[1..];
    var s := ApplyFile(files, f, fault(f.path));
    if !s.ok {
      n := 0;
    } else {
      var m := FailedFilePassSplits(s.host, rest, fault, if s.applied then applied + 1 else applied, if s.applied then skipped else skipped + 1);
      n := m + 1;
      assert list[..n][0] == f && list[..n][1..] == rest[..m];
    }
  }

  /** A file step touches its own path only. */
  lemma FileStepTouchesOne(files: map<string, string>, f: FileSpec, fault: Fault)
    ensures UntouchedBut(files, ApplyFile(files, f, fault).host, {f.path})
    ensures forall g: FileSpec | g.path != f.path && FileHolds(files, g) :: FileHolds(ApplyFile(files, f, fault).host, g)
  {
  }

  /** On error only a prefix was touched: the specs before the failing one hold, and no path outside
      that prefix and the failing spec changed. */
  lemma FailedFilePassIsPrefix(files: map<string, string>, list: seq<FileSpec>, fault: string -> Fault) returns (n: nat)
    requires KeysUnique(list, PathOf)
    requires !FilePass(files, list, fault, 0, 0).ok
    ensures var p := FilePass(files, list, fault, 0, 0);
      && n < |list| && p.applied + p.skipped == n
      && UntouchedBut(files, p.host, Keys(list[..n], PathOf) + {list[n].path})
      && (forall f | f in list[..n] :: FileHolds(p.host, f))
  {
    n := FailedFilePassSplits(files, list, fault, 0, 0);
    var front, q := list[..n], FilePass(files, list[..n], fault, 0, 0);
    FilePassHolds(files, front, fault, 0, 0);
    FileStepTouchesOne(q.host, list[n], fault(list[n].path));
    forall f | f in front ensures f.path != list[n].path {
      var i :| 0 <= i < n && list[i] == f;
      assert PathOf(list[i]) != PathOf(list[n]);
    }
  }

  /** Each unit comes out of a successful pass as its own application leaves it. */
  lemma {:induction false} UnitPassPointwise(units: map<string, UnitStatus>, list: seq<UnitSpec>, fault: string -> UnitFault, applied: nat, skipped: nat)
    requires KeysUnique(list, NameOf)
    requires UnitPass(units, list, fault, applied, skipped).ok
    ensures var p := UnitPass(units, list, fault, applied, skipped);
      && (forall u | u in list ::
            var s := ApplyUnit(StatusOf(units, u.name), u, fault(u.name));
            s.ok && u.name in p.host && p.host[u.name] == s.host)
      && UntouchedBut(units, p.host, Keys(list, NameOf))
    decreases |list|
  {
    if list != [] {
      var u, rest := list[0], list[1..];
      var s := ApplyUnit(StatusOf(units, u.name), u, fault(u.name));
      var units' := units[u.name := s.host];
      TailMembers(list, NameOf);
      UnitPassPointwise(units', rest, fault, if s.applied then applied + 1 else applied, if s.applied then skipped else skipped + 1);
      OtherUnits(units, u, s.host, rest);
      assert NameOf(u) == u.name;
      assert list == [u] + rest;
    }
  }

  lemma OtherUnits(units: map<string, UnitStatus>, u: UnitSpec, s: UnitStatus, rest: seq<UnitSpec>)
    requires forall v | v in rest :: NameOf(v) != NameOf(u)
    ensures forall v | v in rest :: StatusOf(units[u.name := s], v.name) == StatusOf(units, v.name)
    ensures u.name !in Keys(rest, NameOf)
  {
    forall v | v in rest ensures StatusOf(units[u.name := s], v.name) == StatusOf(units, v.name) {
      assert NameOf(v) != NameOf(u);
    }
  }

  /** Every unit is counted once, as applied exactly when its own application did something. */
  lemma {:induction false} UnitPassCounts(units: map<string, UnitStatus>, list: seq<UnitSpec>, fault: string -> UnitFault, applied: nat, skipped: nat)
    requires KeysUnique(list, NameOf)
    requires UnitPass(units, list, fault, applied, skipped).ok
    ensures var p := UnitPass(units, list, fault, applied, skipped);
      && p.applied + p.skipped == applied + skipped + |list|
      && p.applied >= applied
      && (p.applied == applied <==> forall u | u in list :: !ApplyUnit(StatusOf(units, u.name), u, fault(u.name)).applied)
    decreases |list|
  {
    if list != [] {
      var u, rest := list[0], list[1..];
      var s := ApplyUnit(StatusOf(units, u.name), u, fault(u.name));
      TailMembers(list, NameOf);
      OtherUnits(units, u, s.host, rest);
      UnitPassCounts(units[u.name := s.host], rest, fault, if s.applied then applied + 1 else applied, if s.applied then skipped else skipped + 1);
      assert list == [u] + rest;
    }
  }

  /** A failed pass got as far as it counts, and touched nothing behind the failing unit. */
  lemma {:induction false} FailedUnitPassStops(units: map<string, UnitStatus>, list: seq<UnitSpec>, fault: string -> UnitFault, applied: nat, skipped: nat)
    returns (n: nat)
    requires !UnitPass(units, list, fault, applied, skipped).ok
    ensures var p := UnitPass(units, list, fault, applied, skipped);
      n < |list| && p.applied + p.skipped == applied + skipped + n
      && UntouchedBut(units, p.host, Keys(list[..n + 1], NameOf))
    decreases |list|
  {
    var u, rest := list[0], list[1..];
    var s := ApplyUnit(StatusOf(units, u.name), u, fault(u.name));
    assert NameOf(u) == u.name;
    if !s.ok {
      n := 0;
      assert list[..1] == [u];
      assert u in list[..1];
    } else {
      var a, k := if s.applied then applied + 1 else applied, if s.applied then skipped else skipped + 1;
      var m := FailedUnitPassStops(units[u.name := s.host], rest, fault, a, k);
      n := m + 1;
      assert list[..n + 1] == [u] + rest[..m + 1];
      assert u in list[..n + 1];
      assert Keys(rest[..m + 1], NameOf) <= Keys(list[..n + 1], NameOf);
    }
  }

  /** How the unit at `i` comes out: as its own application leaves it, which goes through before `n` and fails at `n`. */
  ghost predicate EndsAsApplied(units: map<string, UnitStatus>, host: map<string, UnitStatus>, list: seq<UnitSpec>, fault: string -> UnitFault, n: nat, i: nat)
    requires i < |list|
  {
    var s := ApplyUnit(StatusOf(units, list[i].name), list[i], fault(list[i].name));
    (s.ok <==> i < n) && StatusOf(host, list[i].name) == s.host
  }

  lemma {:induction false} FailedUnitPassAt(
    units: map<string, UnitStatus>, list: seq<UnitSpec>, fault: string -> UnitFault, applied: nat, skipped: nat, n: nat, i: nat)
    requires KeysUnique(list, NameOf) && !UnitPass(units, list, fault, applied, skipped).ok
    requires var p := UnitPass(units, list, fault, applied, skipped); p.applied + p.skipped == applied + skipped + n
    requires i <= n < |list|
    ensures EndsAsApplied(units, UnitPass(units, list, fault, applied, skipped).host, list, fault, n, i)
    decreases |list|
  {
    var u, rest := list[0], list[1..];
    var s := ApplyUnit(StatusOf(units, u.name), u, fault(u.name));
    assert NameOf(u) == u.name;
    if s.ok {
      var a, k := if s.applied then applied + 1 else applied, if s.applied then skipped else skipped + 1;
      var units' := units[u.name := s.host];
      TailMembers(list, NameOf);
      OtherUnits(units, u, s.host, rest);
      var m := FailedUnitPassStops(units', rest, fault, a, k);
      if i == 0 {
        assert Keys(rest[..m + 1], NameOf) <= Keys(rest, NameOf);
        assert UnitPass(units', rest, fault, a, k).host == UnitPass(units, list, fault, applied, skipped).host;
      } else {
        FailedUnitPassAt(units', rest, fault, a, k, n - 1, i - 1);
        assert list[i] == rest[i - 1] && rest[i - 1] in rest;
      }
    }
  }

  /** A failed pass over units got through exactly the units before the failing one, each of which ends as
      its own application leaves it; the failing one is where its failure left it, and nothing
      behind it was touched. */
  lemma FailedUnitPassIsPrefix(units: map<string, UnitStatus>, list: seq<UnitSpec>, fault: string -> UnitFault, applied: nat, skipped: nat)
    returns (n: nat)
    requires KeysUnique(list, NameOf) && !UnitPass(units, list, fault, applied, skipped).ok
    ensures var p := UnitPass(units, list, fault, applied, skipped);
      n < |list| && p.applied + p.skipped == applied + skipped + n
      && UntouchedBut(units, p.host, Keys(list[..n + 1], NameOf))
      && forall i | 0 <= i <= n :: EndsAsApplied(units, p.host, list, fault, n, i)
  {
    n := FailedUnitPassStops(units, list, fault, applied, skipped);
    var host := UnitPass(units, list, fault, applied, skipped).host;
    forall i | 0 <= i <= n ensures EndsAsApplied(units, host, list, fault, n, i) {
      FailedUnitPassAt(units, list, fault, applied, skipped, n, i);
    }
  }

  /** After a pass each unit, applied again, acts exactly if its spec is not idempotent. */
  lemma UnitsAgain(units: map<string, UnitStatus>, list: seq<UnitSpec>, fault: string -> UnitFault, u: UnitSpec)
    requires KeysUnique(list, NameOf) && UnitPass(units, list, fault, 0, 0).ok && u in list
    ensures var units' := UnitPass(units, list, fault, 0, 0).host;
      && u.name in units'
      && var s := ApplyUnit(units'[u.name], u, NO_UNIT_FAULT);
         s.ok && (s.applied <==> !Idempotent(u)) && (Idempotent(u) ==> s.host == units'[u.name])
  {
    UnitPassPointwise(units, list, fault, 0, 0);
    UnitAgain(StatusOf(units, u.name), u, fault(u.name));
  }

  /** A pass that leaves each listed unit as it was changes nothing. */
  lemma SameUnits(before: map<string, UnitStatus>, after: map<string, UnitStatus>, list: seq<UnitSpec>)
    requires UntouchedBut(before, after, Keys(list, NameOf))
    requires forall u | u in list :: u.name in before && u.name in after && after[u.name] == before[u.name]
    ensures after == before
  {
    forall k ensures (k in after <==> k in before) && (k in before ==> after[k] == before[k]) {
      if k in Keys(list, NameOf) {
        var u :| u in list && NameOf(u) == k;
      }
    }
  }

  lemma UnitPassAgain(units: map<string, UnitStatus>, list: seq<UnitSpec>, fault: string -> UnitFault, noFault: string -> UnitFault)
    requires KeysUnique(list, NameOf) && forall p :: noFault(p) == NO_UNIT_FAULT
    requires UnitPass(units, list, fault, 0, 0).ok
    ensures var units' := UnitPass(units, list, fault, 0, 0).host;
      var again := UnitPass(units', list, noFault, 0, 0);
      && again.ok
      && (again.applied == 0 <==> forall u | u in list :: Idempotent(u))
      && (again.applied == 0 ==> again.host == units')
  {
    var units' := UnitPass(units, list, fault, 0, 0).host;
    forall u | u in list
      ensures u.name in units' && StatusOf(units', u.name) == units'[u.name]
      ensures var s := ApplyUnit(units'[u.name], u, NO_UNIT_FAULT);
        s.ok && (s.applied <==> !Idempotent(u)) && (Idempotent(u) ==> s.host == units'[u.name])
    {
      UnitsAgain(units, list, fault, u);
    }
    UnitPassSucceeds(units', list, noFault, 0, 0);
    UnitPassPointwise(units', list, noFault, 0, 0);
    UnitPassCounts(units', list, noFault, 0, 0);
    var again := UnitPass(units', list, noFault, 0, 0);
    if again.applied == 0 {
      SameUnits(units', again.host, list);
    }
  }

  /** If each unit on its own goes through, so does the pass. */
  lemma {:induction false} UnitPassSucceeds(units: map<string, UnitStatus>, list: seq<UnitSpec>, fault: string -> UnitFault, applied: nat, skipped: nat)
    requires KeysUnique(list, NameOf)
    requires forall u | u in list :: ApplyUnit(StatusOf(units, u.name), u, fault(u.name)).ok
    ensures UnitPass(units, list, fault, applied, skipped).ok
    decreases |list|
  {
    if list != [] {
      var u, rest := list[0], list[1..];
      assert u in list;
      var s := ApplyUnit(StatusOf(units, u.name), u, fault(u.name));
      var units' := units[u.name := s.host];
      TailMembers(list, NameOf);
      forall v | v in rest ensures ApplyUnit(StatusOf(units', v.name), v, fault(v.name)).ok {
        assert v in list && NameOf(v) != NameOf(u);
        assert StatusOf(units', v.name) == StatusOf(units, v.name);
      }
      UnitPassSucceeds(units', rest, fault, if s.applied then applied + 1 else applied, if s.applied then skipped else skipped + 1);
    }
  }

  lemma UnitsHold(units: map<string, UnitStatus>, list: seq<UnitSpec>, fault: string -> UnitFault)
    requires KeysUnique(list, NameOf) && UnitPass(units, list, fault, 0, 0).ok
    ensures forall u | u in list :: UnitHolds(StatusOf(units, u.name), StatusOf(UnitPass(units, list, fault, 0, 0).host, u.name), u)
  {
    UnitPassPointwise(units, list, fault, 0, 0);
    forall u | u in list ensures UnitHolds(StatusOf(units, u.name), StatusOf(UnitPass(units, list, fault, 0, 0).host, u.name), u) {
      UnitAchieves(StatusOf(units, u.name), u, fault(u.name));
    }
  }

  /** A host to which a config was applied with success: every file and every unit is as specified, and every path
      of the config is absolute. */
  ghost predicate AsSpecified(
    files: map<string, string>, units: map<string, UnitStatus>, before: map<string, UnitStatus>, fs: seq<FileSpec>, us: seq<UnitSpec>)
  {
    && (forall f | f in fs :: FileHolds(files, f) && f.path != "" && f.path[0] == '/')
    && (forall u | u in us :: UnitHolds(StatusOf(before, u.name), StatusOf(units, u.name), u))
  }

  lemma SuccessIsAsSpecified(files: map<string, string>, units: map<string, UnitStatus>, fs: seq<FileSpec>, us: seq<UnitSpec>, faults: Faults)
    requires KeysUnique(fs, PathOf) && KeysUnique(us, NameOf)
    requires FilePass(files, Sort(fs, FileBefore), faults.file, 0, 0).ok
    requires UnitPass(units, Sort(us, UnitBefore), faults.unit, 0, 0).ok
    ensures AsSpecified(FilePass(files, Sort(fs, FileBefore), faults.file, 0, 0).host, UnitPass(units, Sort(us, UnitBefore), faults.unit, 0, 0).host,
                        units, fs, us)
  {
    var sf, su := Sort(fs, FileBefore), Sort(us, UnitBefore);
    SortByKeyIsStrict(fs, PathOf, FileBefore);
    SortByKeyIsStrict(us, NameOf, UnitBefore);
    StrictlySortedUniqueKeys(sf, PathOf);
    StrictlySortedUniqueKeys(su, NameOf);
    FilePassHolds(files, sf, faults.file, 0, 0);
    PassedFilesAreAbsolute(files, sf, faults.file, 0, 0);
    UnitsHold(units, su, faults.unit);
    assert forall u | u in us :: u in su;
  }

  /** Apply converges.  After a success every file and unit of the config is as specified and everything is
      counted once; applying the same config again, undisturbed, changes nothing exactly when every
      unit spec is idempotent. */
  lemma ApplyConverges(
    files: map<string, string>, units: map<string, UnitStatus>, fs: seq<FileSpec>, us: seq<UnitSpec>, faults: Faults, calm: Faults)
    requires KeysUnique(fs, PathOf) && KeysUnique(us, NameOf)
    requires (forall p :: calm.file(p) == NoFault) && forall p :: calm.unit(p) == NO_UNIT_FAULT
    requires FilePass(files, Sort(fs, FileBefore), faults.file, 0, 0).ok
    requires UnitPass(units, Sort(us, UnitBefore), faults.unit, 0, 0).ok
    ensures var f := FilePass(files, Sort(fs, FileBefore), faults.file, 0, 0);
      var u := UnitPass(units, Sort(us, UnitBefore), faults.unit, 0, 0);
      var f' := FilePass(f.host, Sort(fs, FileBefore), calm.file, 0, 0);
      var u' := UnitPass(u.host, Sort(us, UnitBefore), calm.unit, 0, 0);
      && (forall x | x in fs :: FileHolds(f.host, x))
      && (forall x | x in us :: UnitHolds(StatusOf(units, x.name), StatusOf(u.host, x.name), x))
      && f.applied + f.skipped == |fs| && u.applied + u.skipped == |us|
      && f' == Pass(f.host, 0, |fs|, true) && u'.ok
      && (u'.applied == 0 <==> forall x | x in us :: Idempotent(x))
      && (u'.applied == 0 ==> u'.host == u.host)
  {
    var sf, su := Sort(fs, FileBefore), Sort(us, UnitBefore);
    SortByKeyIsStrict(fs, PathOf, FileBefore);
    SortByKeyIsStrict(us, NameOf, UnitBefore);
    StrictlySortedUniqueKeys(sf, PathOf);
    StrictlySortedUniqueKeys(su, NameOf);
    SortPermutes(fs, FileBefore);
    SortPermutes(us, UnitBefore);
    FilePassHolds(files, sf, faults.file, 0, 0);
    PassedFilesAreAbsolute(files, sf, faults.file, 0, 0);
    FilePassOnHeld(FilePass(files, sf, faults.file, 0, 0).host, sf, calm.file, 0, 0);
    UnitsHold(units, su, faults.unit);
    UnitPassCounts(units, su, faults.unit, 0, 0);
    UnitPassAgain(units, su, faults.unit, calm.unit);
  }
}
