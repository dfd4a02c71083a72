/** From a merged config to a stored RenderedMachineConfig: canonical form, hash, name, storage
(internal/renderer/hash.go, internal/renderer/render.go, ensureRMC of the pool controller).

The digest of the canonical form is an unknown function `digest`; all that is used of it is that
it yields 64 lower-case hex digits (`IsDigest`). */
module Rmc {
  import opened Order
  import opened Config
  import Merge

  // ------------------------------------------------------------- canonical form

  datatype CanonicalFile = CanonicalFile(content: string, mode: int, owner: string, path: string, state: string)

  datatype CanonicalUnit = CanonicalUnit(enabled: Option<bool>, mask: bool, name: string, state: string)

  datatype CanonicalConfig = CanonicalConfig(files: seq<CanonicalFile>, rebootRequired: bool, units: seq<CanonicalUnit>)

  function CanonFile(f: FileSpec): CanonicalFile
  {
    CanonicalFile(f.content, f.mode, f.owner, f.path, f.state)
  }

  function CanonUnit(u: UnitSpec): CanonicalUnit
  {
    CanonicalUnit(u.enabled, u.mask, u.name, u.state)
  }

  function CanonPath(f: CanonicalFile): string { f.path }

  function CanonName(u: CanonicalUnit): string { u.name }

  predicate PathLess(a: CanonicalFile, b: CanonicalFile) { StrLess(CanonPath(a), CanonPath(b)) }

  predicate NameLess(a: CanonicalUnit, b: CanonicalUnit) { StrLess(CanonName(a), CanonName(b)) }

  function CanonFiles(fs: seq<FileSpec>): seq<CanonicalFile>
  {
    seq(|fs|, i requires 0 <= i < |fs| => CanonFile(fs[i]))
  }

  function CanonUnits(us: seq<UnitSpec>): seq<CanonicalUnit>
  {
    seq(|us|, i requires 0 <= i < |us| => CanonUnit(us[i]))
  }

  function Canonical(m: MergedConfig): CanonicalConfig
  {
    CanonicalConfig(Sort(CanonFiles(m.files), PathLess), m.rebootRequired, Sort(CanonUnits(m.units), NameLess))
  }

  method ToCanonical(m: MergedConfig) returns (c: CanonicalConfig)
    ensures c == Canonical(m)
  {
    var files := [];
    for i := 0 to |m.files|
      invariant files == CanonFiles(m.files[..i])
    {
      files := files + [CanonFile(m.files[i])];
    }
    assert m.files[..|m.files|] == m.files;
    var units := [];
    for i := 0 to |m.units|
      invariant units == CanonUnits(m.units[..i])
    {
      units := units + [CanonUnit(m.units[i])];
    }
    assert m.units[..|m.units|] == m.units;
    c := CanonicalConfig(Sort(files, PathLess), m.rebootRequired, Sort(units, NameLess));
  }

  /** A strictly sorted list is its own sort. */
  lemma SortedAlready<T(!new)>(s: seq<T>, key: T -> string, less: (T, T) -> bool)
    requires StrictlySorted(s, key)
    requires forall x, y :: less(x, y) == StrLess(key(x), key(y))
    ensures Sort(s, less) == s
  {
    StrictlySortedUniqueKeys(s, key);
    SortByKeyIsStrict(s, key, less);
    OneSortedListing(Sort(s, less), s, key);
  }

  /** Of merged configs, the canonical form keeps exactly the files, the units and the reboot flag. */
  lemma CanonicalKeeps(m: MergedConfig, n: MergedConfig)
    requires StrictlySorted(m.files, PathOf) && StrictlySorted(m.units, NameOf)
    requires StrictlySorted(n.files, PathOf) && StrictlySorted(n.units, NameOf)
    ensures Canonical(m) == Canonical(n) <==>
      m.files == n.files && m.units == n.units && m.rebootRequired == n.rebootRequired
  {
    CanonicalOfSorted(m);
    CanonicalOfSorted(n);
    if CanonFiles(m.files) == CanonFiles(n.files) {
      forall i | 0 <= i < |m.files| ensures |m.files| == |n.files| && m.files[i] == n.files[i] {
        assert |m.files| == |CanonFiles(m.files)| == |n.files|;
        assert CanonFiles(m.files)[i] == CanonFiles(n.files)[i];
      }
      assert |m.files| == |CanonFiles(m.files)| == |CanonFiles(n.files)| == |n.files|;
    }
    if CanonUnits(m.units) == CanonUnits(n.units) {
      forall i | 0 <= i < |m.units| ensures |m.units| == |n.units| && m.units[i] == n.units[i] {
        assert |m.units| == |CanonUnits(m.units)| == |n.units|;
        assert CanonUnits(m.units)[i] == CanonUnits(n.units)[i];
      }
      assert |m.units| == |CanonUnits(m.units)| == |CanonUnits(n.units)| == |n.units|;
    }
  }

  lemma CanonicalOfSorted(m: MergedConfig)
    requires StrictlySorted(m.files, PathOf) && StrictlySorted(m.units, NameOf)
    ensures Canonical(m) == CanonicalConfig(CanonFiles(m.files), m.rebootRequired, CanonUnits(m.units))
  {
    forall i, j | 0 <= i < j < |m.files| ensures StrLess(CanonPath(CanonFiles(m.files)[i]), CanonPath(CanonFiles(m.files)[j])) {
      assert StrLess(PathOf(m.files[i]), PathOf(m.files[j]));
    }
    forall i, j | 0 <= i < j < |m.units| ensures StrLess(CanonName(CanonUnits(m.units)[i]), CanonName(CanonUnits(m.units)[j])) {
      assert StrLess(NameOf(m.units[i]), NameOf(m.units[j]));
    }
    SortedAlready(CanonFiles(m.files), CanonPath, PathLess);
    SortedAlready(CanonUnits(m.units), CanonName, NameLess);
  }

  /** Listing the same configs in another order gives the same hash input. */
  lemma HashInputIgnoresOrder(a: seq<MachineConfig>, b: seq<MachineConfig>, m: MergedConfig, n: MergedConfig)
    requires multiset(a) == multiset(b) && Merge.ConfigNamesDistinct(a)
    requires Merge.IsMergeOf(m, a) && Merge.IsMergeOf(n, b)
    ensures Canonical(m) == Canonical(n)
  {
    Merge.MergeIgnoresOrder(a, b, m, n);
  }

  // What the hash leaves out: the reboot flag of each file.  Two configs, one of which asks for a
  // reboot; whichever it is, the merged content is the same.

  const MOTD := FileSpec("/etc/motd", "hello", 420, "root:root", "present")

  function TwoConfigs(first: bool): seq<MachineConfig>
  {
    [MachineConfig("a", 1, [MOTD], [], first), MachineConfig("b", 2, [], [], !first)]
  }

  function TwoMerged(first: bool): MergedConfig
  {
    MergedConfig([MOTD], [], true, [Source("a", 1), Source("b", 2)], map["/etc/motd" := first], map[])
  }

  lemma TwoMergedIsMerge(first: bool)
    ensures Merge.IsMergeOf(TwoMerged(first), TwoConfigs(first))
  {
    var cs, m := TwoConfigs(first), TwoMerged(first);
    assert cs[0] in cs && cs[1] in cs;
    assert FilesOf(cs[0])[0] == MOTD && PathOf(MOTD) == "/etc/motd";
    assert m.files[0] == MOTD;
    assert Merge.Decides(cs, FilesOf, PathOf, m.fileReboot, MOTD, cs[0]);
    forall k ensures Lists(m.files, PathOf, k) <==> exists c :: c in cs && Lists(FilesOf(c), PathOf, k) {
      assert Lists(m.files, PathOf, k) <==> k == "/etc/motd";
      assert Lists(FilesOf(cs[0]), PathOf, k) <==> k == "/etc/motd";
    }
    assert Merge.MergedItems(cs, FilesOf, PathOf, m.files, m.fileReboot);
    assert Merge.MergedItems(cs, UnitsOf, NameOf, m.units, m.unitReboot);
    assert Merge.SourcesOf(cs) == m.sources;
    assert Sorted(cs, Merge.MergesBefore);
  }

  /** Equal hash input, different reboot flags: a stored object found by hash may carry old ones. */
  lemma HashIgnoresRebootFlags()
    ensures Merge.IsMergeOf(TwoMerged(true), TwoConfigs(true)) && Merge.IsMergeOf(TwoMerged(false), TwoConfigs(false))
    ensures Canonical(TwoMerged(true)) == Canonical(TwoMerged(false))
    ensures TwoMerged(true).fileReboot != TwoMerged(false).fileReboot
  {
    TwoMergedIsMerge(true);
    TwoMergedIsMerge(false);
    assert TwoMerged(true).fileReboot["/etc/motd"] != TwoMerged(false).fileReboot["/etc/motd"];
  }

  // ------------------------------------------------------------- names

  predicate IsHexDigit(c: char)
  {
    '0' <= c <= '9' || 'a' <= c <= 'f'
  }

  predicate IsDigest(h: string)
  {
    |h| == 64 && forall i | 0 <= i < |h| :: IsHexDigit(h[i])
  }

  function Short(h: string): string
    requires |h| >= 10
  {
    h[..10]
  }

  function RMCName(poolName: string, short: string): string
  {
    poolName + "-" + short
  }

  const MAX_COLLISION_RETRIES := 10

  function Digits(k: nat): string
    requires k <= MAX_COLLISION_RETRIES
  {
    ["0", "1", "2", "3", "4", "5", "6", "7", "8", "9", "10"][k]
  }

  /** The name tried at a given suffix; suffix 0 is the name without one. */
  function Candidate(base: string, suffix: nat): string
    requires suffix <= MAX_COLLISION_RETRIES
  {
    if suffix == 0 then base else base + "-" + Digits(suffix)
  }

  lemma DigitsDiffer(j: nat, k: nat)
    requires j <= MAX_COLLISION_RETRIES && k <= MAX_COLLISION_RETRIES
    ensures 1 <= |Digits(j)| <= 2 && '-' !in Digits(j)
    ensures Digits(j) == Digits(k) ==> j == k
  {
    assert j < 10 ==> |Digits(j)| == 1 && Digits(j)[0] as int == '0' as int + j;
    assert k < 10 ==> |Digits(k)| == 1 && Digits(k)[0] as int == '0' as int + k;
    assert j == 10 ==> |Digits(j)| == 2;
    assert k == 10 ==> |Digits(k)| == 2;
  }

  /** Where the dashes of a name are tells the suffix: counted from the end, the first dash sits
      behind 1 or 2 characters when there is a suffix and behind 10 when there is none. */
  lemma LastDash(pool: string, short: string, suffix: nat) returns (d: nat)
    requires suffix <= MAX_COLLISION_RETRIES && |short| == 10 && '-' !in short
    ensures var s := Candidate(RMCName(pool, short), suffix);
      && d < |s| && s[d] == '-' && (forall i | d < i < |s| :: s[i] != '-')
      && s[d + 1..] == (if suffix == 0 then short else Digits(suffix))
      && s[..d] == (if suffix == 0 then pool else RMCName(pool, short))
  {
    DigitsDiffer(suffix, suffix);
    d := if suffix == 0 then |pool| else |RMCName(pool, short)|;
  }

  /** A name without a suffix ends in eleven characters that are not the pool's. */
  lemma PlainNameSplits(p: string, h: string)
    requires |h| == 10
    ensures var s := RMCName(p, h); |s| >= 11 && s[..|s| - 11] == p && s[|s| - 10..] == h
  {
  }

  /** Names tell pools, hashes and suffixes apart. */
  lemma NamesInjective(p: string, h: string, i: nat, q: string, g: string, j: nat)
    requires i <= MAX_COLLISION_RETRIES && j <= MAX_COLLISION_RETRIES
    requires |h| == 10 == |g| && '-' !in h && '-' !in g
    requires Candidate(RMCName(p, h), i) == Candidate(RMCName(q, g), j)
    ensures p == q && h == g && i == j
  {
    var s := Candidate(RMCName(p, h), i);
    var d := LastDash(p, h, i);
    var e := LastDash(q, g, j);
    assert d == e;
    DigitsDiffer(i, j);
    DigitsDiffer(j, i);
    if i != 0 {
      assert j != 0;
      assert RMCName(p, h) == s[..d] == RMCName(q, g);
      PlainNameSplits(p, h);
      PlainNameSplits(q, g);
    }
  }

  // ------------------------------------------------------------- build and store

  datatype PoolReboot = PoolReboot(strategy: string, minIntervalSeconds: int)

  function BuildRMC(poolName: string, m: MergedConfig, pool: Option<PoolReboot>, digest: CanonicalConfig -> string): RMC
    requires IsDigest(digest(Canonical(m)))
  {
    var h := digest(Canonical(m));
    RMC(RMCName(poolName, Short(h)), poolName, Short(h), h, m.files, m.units, m.sources, m.fileReboot, m.unitReboot,
        match pool
        case Some(p) => RebootSpec(m.rebootRequired, p.strategy, p.minIntervalSeconds)
        case None => RebootSpec(m.rebootRequired, "Never", 1800))
  }

  /** What an RMC carries: the merge it was built from, its hash, and the reboot policy of its pool; without a pool one
      that never reboots on its own. */
  lemma BuiltMeans(poolName: string, m: MergedConfig, pool: Option<PoolReboot>, digest: CanonicalConfig -> string)
    requires IsDigest(digest(Canonical(m)))
    ensures var r, h := BuildRMC(poolName, m, pool, digest), digest(Canonical(m));
      && r.configHash == h && r.poolName == poolName && r.revision == h[..10] && r.name == poolName + "-" + h[..10]
      && r.files == m.files && r.units == m.units && r.sources == m.sources
      && r.fileReboot == m.fileReboot && r.unitReboot == m.unitReboot && r.reboot.required == m.rebootRequired
      && (pool.Some? ==> r.reboot.strategy == pool.value.strategy && r.reboot.minIntervalSeconds == pool.value.minIntervalSeconds)
      && (pool.None? ==> r.reboot.strategy == "Never")
  {
  }

  /** Every stored object carries a name made from its own pool and hash. */
  ghost predicate WellNamed(rmcs: map<string, RMC>)
  {
    forall n | n in rmcs :: NamedAfterItself(n, rmcs[n])
  }

  ghost predicate NamedAfterItself(n: string, r: RMC)
  {
    && n == r.name && IsDigest(r.configHash)
    && exists k: nat :: k <= MAX_COLLISION_RETRIES && n == Candidate(RMCName(r.poolName, Short(r.configHash)), k)
  }

  /** A candidate name will do: free, or taken by the same config. */
  predicate Usable(rmcs: map<string, RMC>, built: RMC, k: nat)
    requires k <= MAX_COLLISION_RETRIES
  {
    var n := Candidate(built.name, k);
    n !in rmcs || rmcs[n].configHash == built.configHash
  }

  /** The first usable suffix from `k` on, if there is one. */
  function FirstUsable(rmcs: map<string, RMC>, built: RMC, k: nat): Option<nat>
    decreases MAX_COLLISION_RETRIES + 1 - k
  {
    if k > MAX_COLLISION_RETRIES then None
    else if Usable(rmcs, built, k) then Some(k)
    else FirstUsable(rmcs, built, k + 1)
  }

  predicate SameReboot(a: RMC, b: RMC)
  {
    a.reboot.strategy == b.reboot.strategy && a.reboot.minIntervalSeconds == b.reboot.minIntervalSeconds
  }

  /** The object `ensureRMC` settles on, and so what it stores under that object's name. */
  function Settled(rmcs: map<string, RMC>, built: RMC): Option<RMC>
  {
    match FirstUsable(rmcs, built, 0)
    case None => None
    case Some(k) =>
      var n := Candidate(built.name, k);
      if n !in rmcs then Some(built.(name := n))
      else if k == 0 && !SameReboot(rmcs[n], built) then Some(rmcs[n].(reboot := built.reboot))
      else Some(rmcs[n])
  }

  /** The name an EnsureRMC call works on. */
  function StoredUnder(rmcs: map<string, RMC>, built: RMC): string
  {
    match FirstUsable(rmcs, built, 0)
    case Some(k) => if k <= MAX_COLLISION_RETRIES then Candidate(built.name, k) else built.name
    case None => built.name
  }

  datatype Result = Ok(rmc: RMC) | Failed

  /** Which API calls succeed, and what another writer created under the chosen name just before this
      one did, if anything. */
  datatype StoreIo = StoreIo(getOk: string -> bool, updateOk: bool, createOk: bool, intruder: Option<RMC>, getAgainOk: bool)

  /** The call finds a name, each look on the way there succeeding. */
  predicate FindsName(rmcs: map<string, RMC>, built: RMC, io: StoreIo)
  {
    match FirstUsable(rmcs, built, 0)
    case None => false
    case Some(k) => forall i: nat | i <= k && i <= MAX_COLLISION_RETRIES :: io.getOk(Candidate(built.name, i))
  }

  /** The call comes to create an object and finds that somebody else just did. */
  predicate Raced(rmcs: map<string, RMC>, built: RMC, io: StoreIo)
  {
    io.intruder.Some? && FindsName(rmcs, built, io) && StoredUnder(rmcs, built) !in rmcs
  }

  /** Every request that the call has to make succeeds. */
  predicate Succeeds(rmcs: map<string, RMC>, built: RMC, io: StoreIo)
  {
    var n := StoredUnder(rmcs, built);
    && FindsName(rmcs, built, io)
    && if n !in rmcs then (if io.intruder.Some? then io.getAgainOk else io.createOk)
       else n != built.name || io.updateOk
            || (rmcs[n].reboot.strategy == built.reboot.strategy && rmcs[n].reboot.minIntervalSeconds == built.reboot.minIntervalSeconds)
  }

  lemma {:induction false} FirstUsableSkips(rmcs: map<string, RMC>, built: RMC, k: nat)
    ensures match FirstUsable(rmcs, built, k)
      case Some(j) => k <= j <= MAX_COLLISION_RETRIES && Usable(rmcs, built, j) && forall i: nat | k <= i < j :: !Usable(rmcs, built, i)
      case None => forall i: nat | k <= i <= MAX_COLLISION_RETRIES :: !Usable(rmcs, built, i)
    decreases MAX_COLLISION_RETRIES + 1 - k
  {
    if k <= MAX_COLLISION_RETRIES && !Usable(rmcs, built, k) {
      FirstUsableSkips(rmcs, built, k + 1);
    }
  }

  class RmcStore {
    var rmcs: map<string, RMC>

    constructor (rmcs: map<string, RMC>)
      ensures this.rmcs == rmcs
    {
      this.rmcs := rmcs;
    }

    /** The search for a name: the plain one if it is free or holds the same config, else the first suffix of
        which that is so. */
    method FindName(built: RMC, io: StoreIo) returns (found: Option<nat>)
      ensures found.Some? <==> FindsName(rmcs, built, io)
      ensures found.Some? ==> found == FirstUsable(rmcs, built, 0)
    {
      FirstUsableSkips(rmcs, built, 0);
      var base := built.name;
      assert Candidate(base, 0) == base;
      if !io.getOk(base) {
        return None;
      }
      if base !in rmcs || rmcs[base].configHash == built.configHash {
        assert FirstUsable(rmcs, built, 0) == Some(0);
        return Some(0);
      }
      var suffix := 1;
      while true
        invariant 1 <= suffix <= MAX_COLLISION_RETRIES
        invariant forall i: nat | i < suffix :: !Usable(rmcs, built, i) && io.getOk(Candidate(base, i))
        decreases MAX_COLLISION_RETRIES - suffix
      {
        var candidate := Candidate(base, suffix);
        if !io.getOk(candidate) {
          return None;
        }
        if candidate !in rmcs {
          break;
        }
        if rmcs[candidate].configHash == built.configHash {
          break;
        }
        if suffix == MAX_COLLISION_RETRIES {
          return None;
        }
        suffix := suffix + 1;
      }
      assert FirstUsable(rmcs, built, 0) == Some(suffix);
      return Some(suffix);
    }

    /** ensureRMC.  It succeeds exactly when every request it has to make does; then it stores what `Settled` says and
        changes nothing else, and otherwise it leaves the store alone.  If another writer gets there first, its
        object is taken as it is. */
    method EnsureRMC(built: RMC, io: StoreIo) returns (r: Result)
      modifies this
      ensures r.Ok? <==> Succeeds(old(rmcs), built, io)
      ensures !Raced(old(rmcs), built, io) && r.Failed? ==> rmcs == old(rmcs)
      ensures !Raced(old(rmcs), built, io) && r.Ok? ==>
        && Settled(old(rmcs), built) == Some(r.rmc)
        && rmcs == old(rmcs)[StoredUnder(old(rmcs), built) := r.rmc]
      ensures Raced(old(rmcs), built, io) ==>
        var n := StoredUnder(old(rmcs), built);
        && rmcs == old(rmcs)[n := io.intruder.value.(name := n)]
        && (r.Ok? ==> r.rmc == rmcs[n])
      ensures r.Ok? ==>
        (r.rmc.configHash == built.configHash <==> !Raced(old(rmcs), built, io) || io.intruder.value.configHash == built.configHash)
    {
      var found := FindName(built, io);
      if found.None? {
        return Failed;
      }
      FirstUsableSkips(rmcs, built, 0);
      var name := Candidate(built.name, found.value);
      if name in rmcs {
        assert |name| == |built.name| <==> found.value == 0;
        assert rmcs[name := rmcs[name]] == rmcs;
        if found.value == 0 && !SameReboot(rmcs[name], built) {
          if !io.updateOk {
            return Failed;
          }
          rmcs := rmcs[name := rmcs[name].(reboot := built.reboot)];
        }
        return Ok(rmcs[name]);
      }
      if io.intruder.Some? {
        rmcs := rmcs[name := io.intruder.value.(name := name)];  // by the other writer
        return if io.getAgainOk then Ok(rmcs[name]) else Failed;
      }
      if !io.createOk {
        return Failed;
      }
      r := Ok(built.(name := name));
      rmcs := rmcs[name := r.rmc];
    }
  }

  /** The name is taken by another config. */
  predicate Taken(rmcs: map<string, RMC>, built: RMC, name: string)
  {
    name in rmcs && rmcs[name].configHash != built.configHash
  }

  /** The call finds no name exactly when the plain name and all ten suffixed ones are taken by other configs. */
  lemma GivesUpIff(rmcs: map<string, RMC>, built: RMC)
    ensures Settled(rmcs, built) == None <==>
      Taken(rmcs, built, built.name) && forall k: nat | 1 <= k <= 10 :: Taken(rmcs, built, built.name + "-" + Digits(k))
  {
    FirstUsableSkips(rmcs, built, 0);
    match FirstUsable(rmcs, built, 0)
    case None =>
      assert !Usable(rmcs, built, 0);
      forall k: nat | 1 <= k <= 10 ensures Taken(rmcs, built, built.name + "-" + Digits(k)) {
        assert !Usable(rmcs, built, k);
      }
    case Some(j) =>
      assert !Taken(rmcs, built, Candidate(built.name, j));
  }

  /** The store after a successful call. */
  function After(rmcs: map<string, RMC>, built: RMC): map<string, RMC>
  {
    match Settled(rmcs, built)
    case None => rmcs
    case Some(r) => rmcs[StoredUnder(rmcs, built) := r]
  }

  /** The result has the built hash, and no stored object changes its config, its hash or anything
      but its reboot policy; only the object under the plain name can change at all. */
  lemma EnsureIsSafe(rmcs: map<string, RMC>, built: RMC)
    ensures Settled(rmcs, built).Some? ==> Settled(rmcs, built).value.configHash == built.configHash
    ensures forall n | n in rmcs ::
      n in After(rmcs, built)
      && After(rmcs, built)[n] == rmcs[n].(reboot := After(rmcs, built)[n].reboot)
      && (n != built.name ==> After(rmcs, built)[n] == rmcs[n])
    ensures After(rmcs, built).Keys <= rmcs.Keys + {StoredUnder(rmcs, built)}
  {
    FirstUsableSkips(rmcs, built, 0);
  }

  /** Settling again settles on the same object and leaves the store as it is. */
  lemma EnsureIsIdempotent(rmcs: map<string, RMC>, built: RMC)
    requires Settled(rmcs, built).Some?
    ensures Settled(After(rmcs, built), built) == Settled(rmcs, built)
    ensures After(After(rmcs, built), built) == After(rmcs, built)
  {
    var rmcs' := After(rmcs, built);
    FirstUsableSkips(rmcs, built, 0);
    FirstUsableSkips(rmcs', built, 0);
    var k := FirstUsable(rmcs, built, 0).value;
    var k' := FirstUsable(rmcs', built, 0);
    EnsureIsSafe(rmcs, built);
    assert Usable(rmcs', built, k);
    forall i: nat | i < k ensures !Usable(rmcs', built, i) {
      assert !Usable(rmcs, built, i);
      assert Candidate(built.name, i) in rmcs;
    }
    assert k' == Some(k);
  }

  /** Pools never share an object: what a pool settles on was built for that pool. */
  lemma PoolsNeverShare(rmcs: map<string, RMC>, built: RMC)
    requires WellNamed(rmcs) && IsDigest(built.configHash)
    requires built.name == RMCName(built.poolName, Short(built.configHash))
    ensures Settled(rmcs, built).Some? ==> Settled(rmcs, built).value.poolName == built.poolName
    ensures WellNamed(After(rmcs, built))
  {
    FirstUsableSkips(rmcs, built, 0);
    if Settled(rmcs, built).Some? {
      var k := FirstUsable(rmcs, built, 0).value;
      var n := Candidate(built.name, k);
      if n in rmcs {
        var r := rmcs[n];
        var j: nat :| j <= MAX_COLLISION_RETRIES && n == Candidate(RMCName(r.poolName, Short(r.configHash)), j);
        HexHasNoDash(r.configHash);
        HexHasNoDash(built.configHash);
        NamesInjective(built.poolName, Short(built.configHash), k, r.poolName, Short(r.configHash), j);
      }
      var r' := Settled(rmcs, built).value;
      assert NamedAfterItself(n, r');
      forall m | m in After(rmcs, built) ensures NamedAfterItself(m, After(rmcs, built)[m]) {
        if m != n {
          assert After(rmcs, built)[m] == rmcs[m];
        }
      }
    }
  }

  lemma HexHasNoDash(h: string)
    requires IsDigest(h)
    ensures |Short(h)| == 10 && '-' !in Short(h)
  {
  }

  /** The settled object carries the pool's reboot policy exactly when it is new, was found under the
      plain name, or already agreed: an object reused under a suffix is not refreshed. */
  lemma RebootPolicyIsFresh(rmcs: map<string, RMC>, built: RMC)
    requires Settled(rmcs, built).Some?
    ensures var now, pool, n := Settled(rmcs, built).value.reboot, built.reboot, StoredUnder(rmcs, built);
      now.strategy == pool.strategy && now.minIntervalSeconds == pool.minIntervalSeconds <==>
        || n !in rmcs || n == built.name
        || (rmcs[n].reboot.strategy == pool.strategy && rmcs[n].reboot.minIntervalSeconds == pool.minIntervalSeconds)
  {
    FirstUsableSkips(rmcs, built, 0);
    var k := FirstUsable(rmcs, built, 0).value;
    if k > 0 {
      assert |Candidate(built.name, k)| > |built.name|;
    }
  }

  predicate SameFlags(a: RMC, b: RMC)
  {
    a.fileReboot == b.fileReboot && a.unitReboot == b.unitReboot
  }

  /** The settled object carries the per-file and per-unit reboot flags of the merge exactly when it is
      new or already had them: no stored object's flags are ever refreshed, under any name. */
  lemma RebootFlagsAreFresh(rmcs: map<string, RMC>, built: RMC)
    requires Settled(rmcs, built).Some?
    ensures SameFlags(Settled(rmcs, built).value, built) <==>
      var n := StoredUnder(rmcs, built);
      n !in rmcs || SameFlags(rmcs[n], built)
  {
    FirstUsableSkips(rmcs, built, 0);
  }
}
