/** The difference between two rendered configs and the reboot decision built on it
(internal/agent/diff.go, internal/agent/reboot_decision.go). */
module Diff {
  import opened Order
  import opened Config
  import Merge
  import Rmc

  datatype ChangeType = Added | Modified | Removed

  /** A changed path or unit name. */
  datatype Change = Change(key: string, kind: ChangeType)

  function ChangeKey(c: Change): string { c.key }

  predicate ChangeLess(a: Change, b: Change) { StrLess(ChangeKey(a), ChangeKey(b)) }

  predicate FilesEqual(a: FileSpec, b: FileSpec)
  {
    a.content == b.content && a.mode == b.mode && a.owner == b.owner && a.state == b.state
  }

  predicate BoolPtrEqual(a: Option<bool>, b: Option<bool>)
  {
    if a.None? && b.None? then true
    else if a.None? || b.None? then false
    else a.value == b.value
  }

  predicate UnitsEqual(a: UnitSpec, b: UnitSpec)
  {
    if !BoolPtrEqual(a.enabled, b.enabled) then false
    else a.state == b.state && a.mask == b.mask
  }

  /** What happened to a key between two lists. */
  function KindOf<T>(current: seq<T>, new_: seq<T>, key: T -> string, equal: (T, T) -> bool, k: string): Option<ChangeType>
  {
    match (LastItem(current, key, k), LastItem(new_, key, k))
    case (None, None) => None
    case (None, Some(_)) => Some(Added)
    case (Some(_), None) => Some(Removed)
    case (Some(x), Some(y)) => if equal(x, y) then None else Some(Modified)
  }

  /** Exactly the changed keys, each once, with the right kind, in order. */
  ghost predicate IsDiff<T>(changes: seq<Change>, current: seq<T>, new_: seq<T>, key: T -> string, equal: (T, T) -> bool)
  {
    && StrictlySorted(changes, ChangeKey)
    && forall c :: c in changes <==> KindOf(current, new_, key, equal, c.key) == Some(c.kind)
  }

  method IndexByKey<T>(items: seq<T>, key: T -> string) returns (m: map<string, T>)
    ensures forall k :: k in m <==> LastItem(items, key, k).Some?
    ensures forall k | k in m :: LastItem(items, key, k) == Some(m[k])
  {
    m := map[];
    for i := 0 to |items|
      invariant forall k :: k in m <==> LastItem(items[..i], key, k).Some?
      invariant forall k | k in m :: LastItem(items[..i], key, k) == Some(m[k])
    {
      assert items[..i + 1][..i] == items[..i];
      m := m[key(items[i]) := items[i]];
    }
    assert items[..|items|] == items;
  }

  /** DiffFiles and DiffUnits: the two differ in the key and in what counts as equal. */
  method DiffItems<T>(current: seq<T>, new_: seq<T>, key: T -> string, equal: (T, T) -> bool) returns (changes: seq<Change>)
    ensures KeysUnique(current, key) && KeysUnique(new_, key) ==> IsDiff(changes, current, new_, key, equal)
  {
    var currentMap := IndexByKey(current, key);
    var newMap := IndexByKey(new_, key);
    ghost var unique := KeysUnique(current, key) && KeysUnique(new_, key);
    changes := [];
    for i := 0 to |new_|
      invariant unique ==> KeysUnique(changes, ChangeKey)
      invariant unique ==> forall c :: c in changes <==>
        Lists(new_[..i], key, c.key) && KindOf(current, new_, key, equal, c.key) == Some(c.kind)
    {
      var x := new_[i];
      if unique {
        NextKeyIsNew(new_, key, i);
        UniqueItem(new_, key, x);
      }
      if key(x) !in currentMap {
        changes := changes + [Change(key(x), Added)];
      } else if !equal(currentMap[key(x)], x) {
        changes := changes + [Change(key(x), Modified)];
      }
    }
    assert new_[..|new_|] == new_;
    for i := 0 to |current|
      invariant unique ==> KeysUnique(changes, ChangeKey)
      invariant unique ==> forall c :: c in changes <==>
        (Lists(new_, key, c.key) || Lists(current[..i], key, c.key)) && KindOf(current, new_, key, equal, c.key) == Some(c.kind)
    {
      var x := current[i];
      LastItemIsListed(new_, key, key(x));
      if unique {
        NextKeyIsNew(current, key, i);
        UniqueItem(current, key, x);
      }
      if key(x) !in newMap {
        changes := changes + [Change(key(x), Removed)];
      }
    }
    assert current[..|current|] == current;
    if unique {
      SortByKeyIsStrict(changes, ChangeKey, ChangeLess);
      forall c: Change | KindOf(current, new_, key, equal, c.key) == Some(c.kind) ensures c in changes {
        LastItemIsListed(new_, key, c.key);
        LastItemIsListed(current, key, c.key);
      }
    }
    changes := Sort(changes, ChangeLess);
  }

  lemma NextKeyIsNew<T>(items: seq<T>, key: T -> string, i: nat)
    requires KeysUnique(items, key) && i < |items|
    ensures !Lists(items[..i], key, key(items[i]))
    ensures forall k :: Lists(items[..i + 1], key, k) <==> Lists(items[..i], key, k) || k == key(items[i])
  {
    forall k ensures Lists(items[..i + 1], key, k) <==> Lists(items[..i], key, k) || k == key(items[i]) {
      if j :| 0 <= j < i && key(items[..i][j]) == k {
        assert key(items[..i + 1][j]) == k;
      }
      var longer := items[..i + 1];
      assert longer[i] == items[i];
      if j :| 0 <= j < |longer| && key(longer[j]) == k {
        if j < i {
          assert key(items[..i][j]) == k;
        }
      }
    }
  }

  method DiffFiles(current: seq<FileSpec>, new_: seq<FileSpec>) returns (changes: seq<Change>)
    ensures KeysUnique(current, PathOf) && KeysUnique(new_, PathOf) ==> IsDiff(changes, current, new_, PathOf, FilesEqual)
  {
    changes := DiffItems(current, new_, PathOf, FilesEqual);
  }

  method DiffUnits(current: seq<UnitSpec>, new_: seq<UnitSpec>) returns (changes: seq<Change>)
    ensures KeysUnique(current, NameOf) && KeysUnique(new_, NameOf) ==> IsDiff(changes, current, new_, NameOf, UnitsEqual)
  {
    changes := DiffItems(current, new_, NameOf, UnitsEqual);
  }

  // ------------------------------------------------------------- what a diff is good for

  /** A list as the map of its keys. */
  ghost function Index<T>(items: seq<T>, key: T -> string): map<string, T>
  {
    map x | x in items && LastItem(items, key, key(x)).Some? :: key(x) := LastItem(items, key, key(x)).value
  }

  /** `current` with the reported changes made: removed keys gone, added and modified ones as in `new_`. */
  ghost function Patch<T>(current: map<string, T>, changes: seq<Change>, new_: map<string, T>): map<string, T>
  {
    var removed := set c | c in changes && c.kind.Removed? :: c.key;
    (current - removed) + map k | k in new_ && (Change(k, Added) in changes || Change(k, Modified) in changes) :: new_[k]
  }

  lemma IndexFinds<T>(items: seq<T>, key: T -> string, k: string)
    ensures k in Index(items, key) <==> LastItem(items, key, k).Some?
    ensures k in Index(items, key) ==> LastItem(items, key, k) == Some(Index(items, key)[k])
  {
    LastItemIsListed(items, key, k);
    if LastItem(items, key, k).Some? {
      assert LastItem(items, key, k).value in items;
    }
  }

  /** Patching the current config by the diff gives the new one, and nothing less or more. */
  lemma PatchGivesNew<T>(changes: seq<Change>, current: seq<T>, new_: seq<T>, key: T -> string, equal: (T, T) -> bool)
    requires IsDiff(changes, current, new_, key, equal)
    requires forall x, y | x in current && y in new_ && key(x) == key(y) :: equal(x, y) ==> x == y
    ensures Patch(Index(current, key), changes, Index(new_, key)) == Index(new_, key)
  {
    var c, n := Index(current, key), Index(new_, key);
    var p := Patch(c, changes, n);
    forall k ensures (k in p <==> k in n) && (k in n ==> p[k] == n[k]) {
      IndexFinds(current, key, k);
      IndexFinds(new_, key, k);
      LastItemIsListed(current, key, k);
      LastItemIsListed(new_, key, k);
      assert Change(k, Removed) in changes <==> KindOf(current, new_, key, equal, k) == Some(Removed);
      assert Change(k, Added) in changes <==> KindOf(current, new_, key, equal, k) == Some(Added);
      assert Change(k, Modified) in changes <==> KindOf(current, new_, key, equal, k) == Some(Modified);
    }
  }

  /** What the agent compares decides files and units: equal means identical. */
  lemma EqualMeansIdentical()
    ensures forall x: FileSpec, y: FileSpec | PathOf(x) == PathOf(y) :: FilesEqual(x, y) <==> x == y
    ensures forall x: UnitSpec, y: UnitSpec | NameOf(x) == NameOf(y) :: UnitsEqual(x, y) <==> x == y
  {
  }

  // ------------------------------------------------------------- the reboot decision

  datatype Reason =
    | FileReason(path: string, kind: ChangeType)
    | UnitReason(name: string, kind: ChangeType)
    | FirstApply | CurrentUnavailable | NotPopulated

  datatype Basis = DiffBased | LegacyFirstApply | LegacyFallback | SameRevision

  datatype RebootDecision = RebootDecision(required: bool, reasons: seq<Reason>, basis: Basis)

  predicate FlagOf(kind: ChangeType, k: string, current: map<string, bool>, new_: map<string, bool>)
  {
    match kind
    case Removed => Flag(current, k)
    case _ => Flag(new_, k)
  }

  /** A key of one kind of item changed, and the side that owns the change is flagged. */
  ghost predicate FlaggedChange<T>(
    current: seq<T>, new_: seq<T>, key: T -> string, equal: (T, T) -> bool, curFlags: map<string, bool>, newFlags: map<string, bool>)
  {
    exists k :: var kind := KindOf(current, new_, key, equal, k); kind.Some? && FlagOf(kind.value, k, curFlags, newFlags)
  }

  ghost predicate DiffNeedsReboot(current: RMC, new_: RMC)
  {
    || FlaggedChange(current.files, new_.files, PathOf, FilesEqual, current.fileReboot, new_.fileReboot)
    || FlaggedChange(current.units, new_.units, NameOf, UnitsEqual, current.unitReboot, new_.unitReboot)
  }

  ghost predicate RmcKeysUnique(r: RMC)
  {
    KeysUnique(r.files, PathOf) && KeysUnique(r.units, NameOf)
  }

  /** The test whether a change falls on a flagged key of the side that owns it. */
  function OnFlag(current: map<string, bool>, new_: map<string, bool>): Change -> bool
  {
    (c: Change) => FlagOf(c.kind, c.key, current, new_)
  }

  method FlaggedChanges(changes: seq<Change>, current: map<string, bool>, new_: map<string, bool>) returns (flagged: seq<Change>)
    ensures flagged == Filter(changes, OnFlag(current, new_))
  {
    flagged := [];
    for i := 0 to |changes|
      invariant flagged == Filter(changes[..i], OnFlag(current, new_))
    {
      assert changes[..i + 1][..i] == changes[..i];
      var requiresReboot := false;
      match changes[i].kind {
        case Added => requiresReboot := Flag(new_, changes[i].key);
        case Modified => requiresReboot := Flag(new_, changes[i].key);
        case Removed => requiresReboot := Flag(current, changes[i].key);
      }
      if requiresReboot {
        flagged := flagged + [changes[i]];
      }
    }
    assert changes[..|changes|] == changes;
  }

  /** The flagged ones of a diff: exactly the changed keys whose owning side flags them, in key order. */
  ghost predicate IsFlaggedDiff<T>(
    flagged: seq<Change>, current: seq<T>, new_: seq<T>, key: T -> string, equal: (T, T) -> bool,
    curFlags: map<string, bool>, newFlags: map<string, bool>)
  {
    && StrictlySorted(flagged, ChangeKey)
    && forall c :: c in flagged <==>
         KindOf(current, new_, key, equal, c.key) == Some(c.kind) && Flag(if c.kind.Removed? then curFlags else newFlags, c.key)
  }

  lemma {:induction false} FilterKeepsOrder(changes: seq<Change>, p: Change -> bool)
    requires StrictlySorted(changes, ChangeKey)
    ensures StrictlySorted(Filter(changes, p), ChangeKey)
  {
    if changes != [] {
      var front, last := changes[..|changes| - 1], changes[|changes| - 1];
      FilterKeepsOrder(front, p);
      FilterMembers(front, p);
      forall c | c in front ensures StrLess(ChangeKey(c), ChangeKey(last)) {
        var i :| 0 <= i < |front| && front[i] == c;
        assert changes[i] == c;
      }
      assert forall i | 0 <= i < |Filter(front, p)| :: Filter(front, p)[i] in front;
    }
  }

  function FileReasons(files: seq<Change>): seq<Reason>
  {
    seq(|files|, i requires 0 <= i < |files| => FileReason(files[i].key, files[i].kind))
  }

  function UnitReasons(units: seq<Change>): seq<Reason>
  {
    seq(|units|, i requires 0 <= i < |units| => UnitReason(units[i].key, units[i].kind))
  }

  /** The reasons name every change that needs the reboot and nothing else: files, then units, each in key order. */
  ghost predicate AreReasons(reasons: seq<Reason>, current: RMC, new_: RMC)
  {
    exists files, units ::
      && reasons == FileReasons(files) + UnitReasons(units)
      && IsFlaggedDiff(files, current.files, new_.files, PathOf, FilesEqual, current.fileReboot, new_.fileReboot)
      && IsFlaggedDiff(units, current.units, new_.units, NameOf, UnitsEqual, current.unitReboot, new_.unitReboot)
  }

  lemma FlaggedIffNonempty<T>(
    changes: seq<Change>, current: seq<T>, new_: seq<T>, key: T -> string, equal: (T, T) -> bool,
    curFlags: map<string, bool>, newFlags: map<string, bool>)
    requires IsDiff(changes, current, new_, key, equal)
    ensures var flagged := Filter(changes, OnFlag(curFlags, newFlags));
      && IsFlaggedDiff(flagged, current, new_, key, equal, curFlags, newFlags)
      && (flagged != [] <==> FlaggedChange(current, new_, key, equal, curFlags, newFlags))
  {
    var flagged := Filter(changes, OnFlag(curFlags, newFlags));
    FilterMembers(changes, OnFlag(curFlags, newFlags));
    FilterKeepsOrder(changes, OnFlag(curFlags, newFlags));
    if flagged != [] {
      assert flagged[0] in flagged;
      assert KindOf(current, new_, key, equal, flagged[0].key) == Some(flagged[0].kind);
    }
    if FlaggedChange(current, new_, key, equal, curFlags, newFlags) {
      var k :| var kind := KindOf(current, new_, key, equal, k); kind.Some? && FlagOf(kind.value, k, curFlags, newFlags);
      assert Change(k, KindOf(current, new_, key, equal, k).value) in flagged;
    }
  }

  method DiffBasedReboot(current: RMC, new_: RMC) returns (d: RebootDecision)
    ensures d.basis == DiffBased && (d.required <==> d.reasons != [])
    ensures RmcKeysUnique(current) && RmcKeysUnique(new_) ==>
      (d.required <==> DiffNeedsReboot(current, new_)) && AreReasons(d.reasons, current, new_)
  {
    var fileChanges := DiffFiles(current.files, new_.files);
    var files := FlaggedChanges(fileChanges, current.fileReboot, new_.fileReboot);
    var unitChanges := DiffUnits(current.units, new_.units);
    var units := FlaggedChanges(unitChanges, current.unitReboot, new_.unitReboot);
    var reasons := FileReasons(files) + UnitReasons(units);
    d := RebootDecision(|reasons| > 0, reasons, DiffBased);
    if RmcKeysUnique(current) && RmcKeysUnique(new_) {
      FlaggedIffNonempty(fileChanges, current.files, new_.files, PathOf, FilesEqual, current.fileReboot, new_.fileReboot);
      FlaggedIffNonempty(unitChanges, current.units, new_.units, NameOf, UnitsEqual, current.unitReboot, new_.unitReboot);
    }
  }

  predicate HasRebootRequirements(r: RMC)
  {
    |r.fileReboot| > 0 || |r.unitReboot| > 0
  }

  /** When moving from a revision to an RMC needs a reboot. */
  ghost predicate NeedsReboot(currentRevision: string, current: Option<RMC>, new_: RMC)
  {
    if currentRevision == "" then new_.reboot.required
    else if currentRevision == new_.name then false
    else match current
      case None => new_.reboot.required
      case Some(c) =>
        if !HasRebootRequirements(new_) && !HasRebootRequirements(c) then new_.reboot.required
        else DiffNeedsReboot(c, new_)
  }

  /** An RMC that the renderer built from a merge. */
  ghost predicate IsRendered(r: RMC)
  {
    exists m, configs :: Merge.IsMergeOf(m, configs)
      && r.files == m.files && r.units == m.units && r.fileReboot == m.fileReboot && r.unitReboot == m.unitReboot
      && r.reboot.required == m.rebootRequired
  }

  lemma RenderedKeysUnique(r: RMC)
    requires IsRendered(r)
    ensures RmcKeysUnique(r)
  {
    StrictlySortedUniqueKeys(r.files, PathOf);
    StrictlySortedUniqueKeys(r.units, NameOf);
  }

  /** Where the decision comes from. */
  function BasisOf(currentRevision: string, current: Option<RMC>, new_: RMC): Basis
  {
    if currentRevision == "" then LegacyFirstApply
    else if currentRevision == new_.name then SameRevision
    else if current.None? || (!HasRebootRequirements(new_) && !HasRebootRequirements(current.value)) then LegacyFallback
    else DiffBased
  }

  /** DetermineReboot; `current` is what fetching the current revision's RMC gives. */
  method DetermineReboot(currentRevision: string, current: Option<RMC>, new_: RMC) returns (d: RebootDecision)
    ensures RmcKeysUnique(new_) && (current.Some? ==> RmcKeysUnique(current.value)) ==>
      (d.required <==> NeedsReboot(currentRevision, current, new_))
    ensures IsRendered(new_) && (current.Some? ==> IsRendered(current.value)) ==>
      (d.required <==> NeedsReboot(currentRevision, current, new_))
    ensures d.basis == BasisOf(currentRevision, current, new_)
    ensures d.basis == LegacyFirstApply ==> d.reasons == [FirstApply]
    ensures d.basis == SameRevision ==> d.reasons == []
    ensures d.basis == LegacyFallback ==> d.reasons == [if current.None? then CurrentUnavailable else NotPopulated]
    ensures d.basis == DiffBased ==> (d.required <==> d.reasons != [])
    ensures d.basis == DiffBased && RmcKeysUnique(new_) && RmcKeysUnique(current.value) ==> AreReasons(d.reasons, current.value, new_)
  {
    if currentRevision == "" {
      return RebootDecision(new_.reboot.required, [FirstApply], LegacyFirstApply);
    }
    if currentRevision == new_.name {
      return RebootDecision(false, [], SameRevision);
    }
    if current.None? {
      return RebootDecision(new_.reboot.required, [CurrentUnavailable], LegacyFallback);
    }
    if !HasRebootRequirements(new_) && !HasRebootRequirements(current.value) {
      return RebootDecision(new_.reboot.required, [NotPopulated], LegacyFallback);
    }
    d := DiffBasedReboot(current.value, new_);
    if IsRendered(new_) && IsRendered(current.value) {
      RenderedKeysUnique(new_);
      RenderedKeysUnique(current.value);
    }
  }

  /** An item that is flagged in its own config was added or changed, or a flagged one was dropped. */
  ghost predicate FlaggedItemDiffers<T>(
    current: seq<T>, new_: seq<T>, key: T -> string, curFlags: map<string, bool>, newFlags: map<string, bool>)
  {
    || (exists x :: x in new_ && x !in current && Flag(newFlags, key(x)))
    || (exists x :: x in current && !Lists(new_, key, key(x)) && Flag(curFlags, key(x)))
  }

  lemma FlaggedChangeMeans<T>(
    current: seq<T>, new_: seq<T>, key: T -> string, equal: (T, T) -> bool, curFlags: map<string, bool>, newFlags: map<string, bool>)
    requires KeysUnique(current, key) && KeysUnique(new_, key)
    requires forall x, y | key(x) == key(y) :: equal(x, y) <==> x == y
    ensures FlaggedChange(current, new_, key, equal, curFlags, newFlags) <==> FlaggedItemDiffers(current, new_, key, curFlags, newFlags)
  {
    if FlaggedChange(current, new_, key, equal, curFlags, newFlags) {
      var k :| var kind := KindOf(current, new_, key, equal, k); kind.Some? && FlagOf(kind.value, k, curFlags, newFlags);
      LastItemIsListed(current, key, k);
      LastItemIsListed(new_, key, k);
      if LastItem(new_, key, k).Some? {
        var x := LastItem(new_, key, k).value;
        if x in current {
          UniqueItem(current, key, x);
        }
        assert x in new_ && x !in current && Flag(newFlags, key(x));
      } else {
        var x := LastItem(current, key, k).value;
        assert x in current && !Lists(new_, key, key(x)) && Flag(curFlags, key(x));
      }
    }
    if x :| x in new_ && x !in current && Flag(newFlags, key(x)) {
      UniqueItem(new_, key, x);
      LastItemIsListed(current, key, key(x));
      assert KindOf(current, new_, key, equal, key(x)).Some?;
    }
    if x :| x in current && !Lists(new_, key, key(x)) && Flag(curFlags, key(x)) {
      UniqueItem(current, key, x);
      LastItemIsListed(new_, key, key(x));
      assert KindOf(current, new_, key, equal, key(x)) == Some(Removed);
    }
  }

  /** When a reboot is needed, in files and units.  A node at the revision needs none.  A node without a revision, or
      whose RMC is gone, or between RMCs without any flags, does as the new RMC asks.  Any other needs one exactly
      when something is added or changed that the new RMC flags, or dropped that the current one flags. */
  lemma NeedsRebootMeans(currentRevision: string, current: Option<RMC>, new_: RMC)
    requires RmcKeysUnique(new_) && (current.Some? ==> RmcKeysUnique(current.value))
    ensures currentRevision == "" || (current.None? && currentRevision != new_.name) ==>
      NeedsReboot(currentRevision, current, new_) == new_.reboot.required
    ensures currentRevision != "" && currentRevision == new_.name ==> !NeedsReboot(currentRevision, current, new_)
    ensures currentRevision != "" && currentRevision != new_.name && current.Some? ==>
      var c := current.value;
      if c.fileReboot == c.unitReboot == new_.fileReboot == new_.unitReboot == map[]
      then NeedsReboot(currentRevision, current, new_) == new_.reboot.required
      else NeedsReboot(currentRevision, current, new_) <==>
        || FlaggedItemDiffers(c.files, new_.files, PathOf, c.fileReboot, new_.fileReboot)
        || FlaggedItemDiffers(c.units, new_.units, NameOf, c.unitReboot, new_.unitReboot)
  {
    if current.Some? {
      var c := current.value;
      EqualMeansIdentical();
      FlaggedChangeMeans(c.files, new_.files, PathOf, FilesEqual, c.fileReboot, new_.fileReboot);
      FlaggedChangeMeans(c.units, new_.units, NameOf, UnitsEqual, c.unitReboot, new_.unitReboot);
    }
  }

  lemma BuiltIsRendered(poolName: string, m: MergedConfig, configs: seq<MachineConfig>, pool: Option<Rmc.PoolReboot>,
                        digest: Rmc.CanonicalConfig -> string)
    requires Merge.IsMergeOf(m, configs) && Rmc.IsDigest(digest(Rmc.Canonical(m)))
    ensures IsRendered(Rmc.BuildRMC(poolName, m, pool, digest))
  {
  }

  /** Between rendered configs neither of which asks for a reboot, none is ever needed. */
  lemma QuietConfigsNeverReboot(currentRevision: string, current: Option<RMC>, new_: RMC)
    requires IsRendered(new_) && !new_.reboot.required
    requires current.Some? ==> IsRendered(current.value) && !current.value.reboot.required
    ensures !NeedsReboot(currentRevision, current, new_)
  {
    QuietRendered(new_);
    if current.Some? {
      QuietRendered(current.value);
    }
  }

  /** A flagged file or unit of the current config is gone from the new one. */
  ghost predicate FlaggedRemoval(current: RMC, new_: RMC)
  {
    || (exists k :: KindOf(current.files, new_.files, PathOf, FilesEqual, k) == Some(Removed) && Flag(current.fileReboot, k))
    || (exists k :: KindOf(current.units, new_.units, NameOf, UnitsEqual, k) == Some(Removed) && Flag(current.unitReboot, k))
  }

  /** A rendered config that does not ask for a reboot can still need one: exactly when it drops
      something the current config flagged. */
  lemma RequiredAgainstTheFlag(currentRevision: string, current: RMC, new_: RMC)
    requires IsRendered(new_) && !new_.reboot.required
    requires currentRevision != "" && currentRevision != new_.name
    ensures NeedsReboot(currentRevision, Some(current), new_) <==> FlaggedRemoval(current, new_)
  {
    QuietRendered(new_);
    if !HasRebootRequirements(new_) && !HasRebootRequirements(current) {
      assert forall k :: !Flag(current.fileReboot, k) && !Flag(current.unitReboot, k);
    }
  }

  lemma QuietRendered(r: RMC)
    requires IsRendered(r) && !r.reboot.required
    ensures forall k :: !Flag(r.fileReboot, k) && !Flag(r.unitReboot, k)
  {
    var m, configs :| Merge.IsMergeOf(m, configs)
      && r.files == m.files && r.units == m.units && r.fileReboot == m.fileReboot && r.unitReboot == m.unitReboot
      && r.reboot.required == m.rebootRequired;
    Merge.QuietMerge(configs, m);
  }

  /** Two forms of one config that differ only in their reboot flags, as a stored object and the merge
      that found it by hash do. */
  ghost predicate SameContent(a: RMC, b: RMC)
  {
    && a.name == b.name && a.files == b.files && a.units == b.units && a.reboot.required == b.reboot.required
    && a.fileReboot.Keys == b.fileReboot.Keys == Keys(a.files, PathOf)
    && a.unitReboot.Keys == b.unitReboot.Keys == Keys(a.units, NameOf)
  }

  /** Every decision to reboot for one is the decision for the other. */
  ghost predicate SameDecisions(a: RMC, b: RMC)
  {
    forall rev: string, current: RMC | RmcKeysUnique(current) :: NeedsReboot(rev, Some(current), a) == NeedsReboot(rev, Some(current), b)
  }

  /** The current config that lacks just one file of `r`. */
  function WithoutFile(r: RMC, i: nat): RMC
    requires i < |r.files|
  {
    r.(files := r.files[..i] + r.files[i + 1..], fileReboot := map[], unitReboot := map[])
  }

  function WithoutUnit(r: RMC, i: nat): RMC
    requires i < |r.units|
  {
    r.(units := r.units[..i] + r.units[i + 1..], fileReboot := map[], unitReboot := map[])
  }

  /** Dropping an item from a list with unique keys makes exactly its key new. */
  lemma DroppedIsAdded<T>(items: seq<T>, key: T -> string, equal: (T, T) -> bool, i: nat, k: string)
    requires i < |items| && KeysUnique(items, key) && forall x :: equal(x, x)
    ensures var less := items[..i] + items[i + 1..];
      && KeysUnique(less, key)
      && KindOf(less, items, key, equal, k) == if k == key(items[i]) then Some(Added) else None
  {
    var less := items[..i] + items[i + 1..];
    LastItemIsListed(less, key, k);
    LastItemIsListed(items, key, k);
    assert forall x :: x in less ==> x in items;
    forall j | 0 <= j < |items| && j != i ensures Lists(less, key, key(items[j])) {
      assert less[if j < i then j else j - 1] == items[j];
    }
    if LastItem(less, key, k).Some? {
      UniqueItem(items, key, LastItem(less, key, k).value);
      var j :| 0 <= j < |less| && key(less[j]) == k;
      assert less[j] == if j < i then items[j] else items[j + 1];
    }
  }

  lemma SameItemsNoChange<T>(items: seq<T>, key: T -> string, equal: (T, T) -> bool, k: string)
    requires forall x :: equal(x, x)
    ensures KindOf(items, items, key, equal, k) == None
  {
  }

  /** Without just file `i`, the decision is that file's flag. */
  lemma WithoutFileDecides(r: RMC, a: RMC, i: nat)
    requires SameContent(r, a) && RmcKeysUnique(r) && i < |r.files|
    ensures RmcKeysUnique(WithoutFile(r, i))
    ensures NeedsReboot(r.name + "x", Some(WithoutFile(r, i)), a) <==> Flag(a.fileReboot, r.files[i].path)
  {
    var c := WithoutFile(r, i);
    forall k
      ensures KindOf(c.files, a.files, PathOf, FilesEqual, k) == if k == PathOf(r.files[i]) then Some(Added) else None
      ensures KindOf(c.units, a.units, NameOf, UnitsEqual, k) == None
      ensures KeysUnique(c.files, PathOf)
    {
      DroppedIsAdded(r.files, PathOf, FilesEqual, i, k);
      SameItemsNoChange(r.units, NameOf, UnitsEqual, k);
    }
    var k := PathOf(r.files[i]);
    assert k in Keys(a.files, PathOf) && k in a.fileReboot && |a.fileReboot| > 0;
    assert KindOf(c.files, a.files, PathOf, FilesEqual, k) == Some(Added);
    assert FlaggedChange(c.files, a.files, PathOf, FilesEqual, c.fileReboot, a.fileReboot) <==> Flag(a.fileReboot, k);
    assert |r.name + "x"| != |a.name|;
  }

  lemma WithoutUnitDecides(r: RMC, a: RMC, i: nat)
    requires SameContent(r, a) && RmcKeysUnique(r) && i < |r.units|
    ensures RmcKeysUnique(WithoutUnit(r, i))
    ensures NeedsReboot(r.name + "x", Some(WithoutUnit(r, i)), a) <==> Flag(a.unitReboot, r.units[i].name)
  {
    var c := WithoutUnit(r, i);
    forall k
      ensures KindOf(c.units, a.units, NameOf, UnitsEqual, k) == if k == NameOf(r.units[i]) then Some(Added) else None
      ensures KindOf(c.files, a.files, PathOf, FilesEqual, k) == None
      ensures KeysUnique(c.units, NameOf)
    {
      DroppedIsAdded(r.units, NameOf, UnitsEqual, i, k);
      SameItemsNoChange(r.files, PathOf, FilesEqual, k);
    }
    var k := NameOf(r.units[i]);
    assert k in Keys(a.units, NameOf) && k in a.unitReboot && |a.unitReboot| > 0;
    assert KindOf(c.units, a.units, NameOf, UnitsEqual, k) == Some(Added);
    assert FlaggedChange(c.units, a.units, NameOf, UnitsEqual, c.unitReboot, a.unitReboot) <==> Flag(a.unitReboot, k);
    assert |r.name + "x"| != |a.name|;
  }

  lemma SameDecisionsSameFileFlag(stored: RMC, built: RMC, k: string)
    requires SameContent(stored, built) && RmcKeysUnique(stored) && SameDecisions(stored, built) && k in stored.fileReboot
    ensures stored.fileReboot[k] == built.fileReboot[k]
  {
    assert k in Keys(stored.files, PathOf);
    var i :| 0 <= i < |stored.files| && PathOf(stored.files[i]) == k;
    WithoutFileDecides(stored, stored, i);
    WithoutFileDecides(stored, built, i);
  }

  lemma SameDecisionsSameUnitFlag(stored: RMC, built: RMC, k: string)
    requires SameContent(stored, built) && RmcKeysUnique(stored) && SameDecisions(stored, built) && k in stored.unitReboot
    ensures stored.unitReboot[k] == built.unitReboot[k]
  {
    assert k in Keys(stored.units, NameOf);
    var i :| 0 <= i < |stored.units| && NameOf(stored.units[i]) == k;
    WithoutUnitDecides(stored, stored, i);
    WithoutUnitDecides(stored, built, i);
  }

  lemma SameDecisionsSameFlags(stored: RMC, built: RMC)
    requires SameContent(stored, built) && RmcKeysUnique(stored) && SameDecisions(stored, built)
    ensures stored.fileReboot == built.fileReboot && stored.unitReboot == built.unitReboot
  {
    forall k | k in stored.fileReboot ensures stored.fileReboot[k] == built.fileReboot[k] {
      SameDecisionsSameFileFlag(stored, built, k);
    }
    forall k | k in stored.unitReboot ensures stored.unitReboot[k] == built.unitReboot[k] {
      SameDecisionsSameUnitFlag(stored, built, k);
    }
  }

  lemma SameFlagsSameDecisions(stored: RMC, built: RMC)
    requires SameContent(stored, built) && stored.fileReboot == built.fileReboot && stored.unitReboot == built.unitReboot
    ensures SameDecisions(stored, built)
  {
  }

  lemma RenderedFlagsCoverItems(r: RMC)
    requires IsRendered(r)
    ensures r.fileReboot.Keys == Keys(r.files, PathOf) && r.unitReboot.Keys == Keys(r.units, NameOf)
  {
    var m, configs :| Merge.IsMergeOf(m, configs)
      && r.files == m.files && r.units == m.units && r.fileReboot == m.fileReboot && r.unitReboot == m.unitReboot
      && r.reboot.required == m.rebootRequired;
    forall k ensures k in r.fileReboot <==> k in Keys(r.files, PathOf) {
      assert k in m.fileReboot <==> Lists(m.files, PathOf, k);
    }
    forall k ensures k in r.unitReboot <==> k in Keys(r.units, NameOf) {
      assert k in m.unitReboot <==> Lists(m.units, NameOf, k);
    }
  }

  /** Stale flags matter: with a stored object and with the merge that found it by its hash the agents
      decide alike, whatever they come from, exactly when the two agree on every flag. */
  lemma StaleFlagsDecide(stored: RMC, built: RMC)
    requires IsRendered(stored) && IsRendered(built) && stored.name == built.name
    requires stored.files == built.files && stored.units == built.units && stored.reboot.required == built.reboot.required
    ensures SameDecisions(stored, built) <==> stored.fileReboot == built.fileReboot && stored.unitReboot == built.unitReboot
  {
    RenderedFlagsCoverItems(stored);
    RenderedFlagsCoverItems(built);
    RenderedKeysUnique(stored);
    if SameDecisions(stored, built) {
      SameDecisionsSameFlags(stored, built);
    }
    if stored.fileReboot == built.fileReboot && stored.unitReboot == built.unitReboot {
      SameFlagsSameDecisions(stored, built);
    }
  }
}
