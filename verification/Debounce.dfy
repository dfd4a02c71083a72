/** Holding a pool back until its configuration stops changing (internal/controller/debounce.go). */
module Debounce {
  import opened Order

  const SECOND := 1_000_000_000

  /** What is kept for one pool; a missing hash reads "", a missing time is the zero time. */
  datatype Entry = Entry(configHash: string, specHash: string, lastChange: Option<int>)

  const NOTHING := Entry("", "", None)

  datatype Reply = Reply(proceed: bool, requeueAfter: int)

  datatype Call =
    | Check(pool: string, configHash: string, specHash: string, debounceSeconds: int, now: int)
    | Reset(pool: string)

  function Recorded(e: Entry, c: Call): Entry
  {
    match c
    case Reset(_) => NOTHING
    case Check(_, configHash, specHash, _, now) =>
      if e.configHash != configHash || e.specHash != specHash then Entry(configHash, specHash, Some(now))
      else if e.lastChange.None? then e.(lastChange := Some(now))
      else e
  }

  function Answer(e: Entry, c: Call): Reply
    requires c.Check?
  {
    var debounce := c.debounceSeconds * SECOND;
    if e.configHash != c.configHash || e.specHash != c.specHash || e.lastChange.None? then Reply(false, debounce)
    else
      var elapsed := c.now - e.lastChange.value;
      if elapsed < debounce then Reply(false, debounce - elapsed) else Reply(true, 0)
  }

  /** What is kept for a pool after a history of calls. */
  function Kept(history: seq<Call>, pool: string): Entry
  {
    if history == [] then NOTHING
    else
      var last := history[|history| - 1];
      var before := Kept(history[..|history| - 1], pool);
      if last.pool == pool then Recorded(before, last) else before
  }

  lemma KeptOneMore(history: seq<Call>, c: Call)
    ensures forall p :: Kept(history + [c], p) == if p == c.pool then Recorded(Kept(history, p), c) else Kept(history, p)
  {
    assert (history + [c])[..|history|] == history;
  }

  class DebounceState {
    var lastChangeTime: map<string, int>
    var lastHash: map<string, string>
    var poolSpecHash: map<string, string>
    ghost var history: seq<Call>

    function Of(pool: string): Entry
      reads this
    {
      Entry(if pool in lastHash then lastHash[pool] else "",
            if pool in poolSpecHash then poolSpecHash[pool] else "",
            if pool in lastChangeTime then Some(lastChangeTime[pool]) else None)
    }

    /** The three maps hold what the calls so far left, pool by pool. */
    ghost predicate Valid()
      reads this
    {
      forall p :: Of(p) == Kept(history, p)
    }

    constructor ()
      ensures Valid() && history == []
    {
      lastChangeTime, lastHash, poolSpecHash, history := map[], map[], map[], [];
    }

    method CheckAndUpdate(pool: string, configHash: string, specHash: string, debounceSeconds: int, now: int)
      returns (proceed: bool, requeueAfter: int)
      requires Valid()
      modifies this
      ensures Valid()
      ensures history == old(history) + [Check(pool, configHash, specHash, debounceSeconds, now)]
      ensures Reply(proceed, requeueAfter) == Answer(Kept(old(history), pool), history[|old(history)|])
      ensures forall p | p != pool :: Of(p) == old(Of(p))
    {
      ghost var call := Check(pool, configHash, specHash, debounceSeconds, now);
      history := history + [call];
      KeptOneMore(old(history), call);
      var debounce := debounceSeconds * SECOND;
      var configChanged := Of(pool).configHash != configHash;
      var specChanged := Of(pool).specHash != specHash;
      if configChanged || specChanged {
        lastChangeTime := lastChangeTime[pool := now];
        lastHash := lastHash[pool := configHash];
        poolSpecHash := poolSpecHash[pool := specHash];
        return false, debounce;
      }
      if pool !in lastChangeTime {
        lastChangeTime := lastChangeTime[pool := now];
        return false, debounce;
      }
      var elapsed := now - lastChangeTime[pool];
      if elapsed < debounce {
        return false, debounce - elapsed;
      }
      return true, 0;
    }

    method Reset(pool: string)
      requires Valid()
      modifies this
      ensures Valid() && history == old(history) + [Call.Reset(pool)]
      ensures forall p | p != pool :: Of(p) == old(Of(p))
    {
      history := history + [Call.Reset(pool)];
      KeptOneMore(old(history), Call.Reset(pool));
      lastChangeTime := lastChangeTime - {pool};
      lastHash := lastHash - {pool};
      poolSpecHash := poolSpecHash - {pool};
    }
  }

  // ------------------------------------------------------------- over a history

  ghost predicate ClockRuns(history: seq<Call>)
  {
    forall i, j | 0 <= i < j < |history| && history[i].Check? && history[j].Check? :: history[i].now <= history[j].now
  }

  predicate Carries(c: Call, configHash: string, specHash: string)
  {
    c.Check? && c.configHash == configHash && c.specHash == specHash
  }

  /** Call `j` is one of the pool, and from it on every call of the pool carries these two hashes. */
  ghost predicate SteadySince(history: seq<Call>, j: int, pool: string, configHash: string, specHash: string)
  {
    && 0 <= j < |history| && history[j].pool == pool
    && forall i | j <= i < |history| && history[i].pool == pool :: Carries(history[i], configHash, specHash)
  }

  /** A kept time is that of a call since which nothing changed. */
  lemma {:induction false} KeptTimeIsSteady(history: seq<Call>, pool: string) returns (j: int)
    requires Kept(history, pool).lastChange.Some?
    ensures var e := Kept(history, pool);
      SteadySince(history, j, pool, e.configHash, e.specHash) && history[j].now == e.lastChange.value
  {
    var front, last := history[..|history| - 1], history[|history| - 1];
    var before, after := Kept(front, pool), Kept(history, pool);
    if last.pool == pool && (before.lastChange.None? || after != before) {
      j := |front|;
    } else {
      j := KeptTimeIsSteady(front, pool);
    }
  }

  /** Every steady stretch is accounted for: the hashes are kept, with a time no later than its start. */
  lemma {:induction false} SteadyIsKept(history: seq<Call>, j: int, pool: string, configHash: string, specHash: string)
    requires ClockRuns(history) && SteadySince(history, j, pool, configHash, specHash)
    ensures var e := Kept(history, pool);
      e.configHash == configHash && e.specHash == specHash && e.lastChange.Some? && e.lastChange.value <= history[j].now
  {
    var front, last := history[..|history| - 1], history[|history| - 1];
    if j < |front| {
      SteadyIsKept(front, j, pool, configHash, specHash);
      assert last.pool == pool ==> Carries(last, configHash, specHash);
    } else {
      assert Carries(last, configHash, specHash);
      if Kept(front, pool).lastChange.Some? {
        var i := KeptTimeIsSteady(front, pool);
        assert history[i].Check? by {
          assert Carries(front[i], Kept(front, pool).configHash, Kept(front, pool).specHash);
        }
      }
    }
  }

  /** A call proceeds exactly when some earlier call of its pool is at least the debounce old and every
      call of the pool since then carried the same two hashes, with no reset. */
  lemma ProceedsIffSteady(history: seq<Call>, c: Call)
    requires c.Check? && ClockRuns(history + [c])
    ensures Answer(Kept(history, c.pool), c).proceed
       <==> exists j :: SteadySince(history, j, c.pool, c.configHash, c.specHash)
                        && history[j].now + c.debounceSeconds * SECOND <= c.now
  {
    var e := Kept(history, c.pool);
    assert ClockRuns(history) by {
      forall i, j | 0 <= i < j < |history| && history[i].Check? && history[j].Check? ensures history[i].now <= history[j].now {
        assert (history + [c])[i] == history[i] && (history + [c])[j] == history[j];
      }
    }
    if Answer(e, c).proceed {
      var j := KeptTimeIsSteady(history, c.pool);
      assert SteadySince(history, j, c.pool, c.configHash, c.specHash);
    }
    if j :| SteadySince(history, j, c.pool, c.configHash, c.specHash) && history[j].now + c.debounceSeconds * SECOND <= c.now {
      SteadyIsKept(history, j, c.pool, c.configHash, c.specHash);
    }
  }

  lemma {:induction false} QuietKeeps(history: seq<Call>, more: seq<Call>, pool: string)
    requires forall i | 0 <= i < |more| :: more[i].pool != pool
    ensures Kept(history + more, pool) == Kept(history, pool)
  {
    if more == [] {
      assert history + more == history;
    } else {
      var all := history + more;
      assert all[..|all| - 1] == history + more[..|more| - 1];
      QuietKeeps(history, more[..|more| - 1], pool);
    }
  }

  /** The requeue a held-back call is given is enough: the same call repeated no sooner proceeds,
      whatever other pools did in between. */
  lemma RequeueIsEnough(history: seq<Call>, held: Call, others: seq<Call>, now: int)
    requires held.Check? && (forall i | 0 <= i < |others| :: others[i].pool != held.pool)
    requires var r := Answer(Kept(history, held.pool), held); !r.proceed && now >= held.now + r.requeueAfter
    ensures Answer(Kept(history + [held] + others, held.pool), held.(now := now)).proceed
  {
    assert (history + [held])[..|history|] == history;
    QuietKeeps(history + [held], others, held.pool);
  }

  /** And it is needed: repeated any sooner, the same call is held back again. */
  lemma RequeueIsNeeded(history: seq<Call>, held: Call, others: seq<Call>, now: int)
    requires held.Check? && (forall i | 0 <= i < |others| :: others[i].pool != held.pool)
    requires var r := Answer(Kept(history, held.pool), held); !r.proceed && now < held.now + r.requeueAfter
    ensures !Answer(Kept(history + [held] + others, held.pool), held.(now := now)).proceed
  {
    assert (history + [held])[..|history|] == history;
    QuietKeeps(history + [held], others, held.pool);
  }
}
