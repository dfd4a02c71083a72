/** Two writers, one node object (internal/controller/cordon.go, internal/agent/nodewriter.go).

The controller reads the node, edits its copy and sends the whole object back; the API server takes
it only if nobody wrote in between, and the controller retries otherwise.  The agent sends JSON merge
patches, which the server applies in one go to whatever is stored. */
module NodeStore {
  import opened Order

  datatype Key =
    | DesiredRevision | Pool | CurrentRevision | AgentState | LastError | RebootPending
    | Cordoned | DrainStartedAt | DrainRetryCount | Paused | ForceReboot | DesiredRevisionSetAt

  datatype Content = Content(ann: map<Key, string>, unschedulable: bool)

  /** A stored object and its resource version. */
  datatype Stored = Stored(version: nat, content: Content)

  function Get(ann: map<Key, string>, key: Key): string
  {
    if key in ann then ann[key] else ""
  }

  // ------------------------------------------------------------- merge patches

  /** Some(v) sets a key, None (JSON null) removes it; keys not mentioned stay (section 2 of RFC 7396). */
  datatype Patch = Patch(ann: map<Key, Option<string>>, unschedulable: Option<bool>)

  function MergePatch(ann: map<Key, string>, patch: map<Key, Option<string>>): map<Key, string>
  {
    map k | k in ann.Keys + patch.Keys && (k in patch ==> patch[k].Some?)
      :: if k in patch then patch[k].value else ann[k]
  }

  function Apply(c: Content, p: Patch): Content
  {
    Content(MergePatch(c.ann, p.ann), if p.unschedulable.Some? then p.unschedulable.value else c.unschedulable)
  }

  // ------------------------------------------------------------- the writers

  datatype AgentWrite =
    | SetState(state: string)
    | SetCurrentRevision(rev: string)
    | SetLastError(msg: string)
    | ClearLastError
    | SetRebootPending(pending: bool)
    | ClearForceReboot
    | SetStateWithError(state: string, msg: string)
    | SetDone(rev: string)

  function AgentPatch(w: AgentWrite): Patch
  {
    Patch(match w
          case SetState(s) => map[AgentState := Some(s)]
          case SetCurrentRevision(r) => map[CurrentRevision := Some(r)]
          case SetLastError(e) => map[LastError := Some(e)]
          case ClearLastError => map[LastError := None]
          case SetRebootPending(p) => map[RebootPending := if p then Some("true") else None]
          case ClearForceReboot => map[ForceReboot := None]
          case SetStateWithError(s, e) => map[AgentState := Some(s), LastError := Some(e)]
          case SetDone(r) => map[AgentState := Some("done"), CurrentRevision := Some(r)],
          None)
  }

  datatype Edit =
    | CordonNode
    | UncordonNode
    | SetAnnotation(key: Key, value: string)
    | RemoveAnnotation(key: Key)

  /** The controller's edit of the object it read; None when it sees nothing to write. */
  function Edited(c: Content, e: Edit): Option<Content>
  {
    match e
    case CordonNode =>
      if c.unschedulable && Get(c.ann, Cordoned) == "true" then None
      else Some(Content(c.ann[Cordoned := "true"], true))
    case UncordonNode =>
      if !c.unschedulable && Get(c.ann, Cordoned) != "true" then None
      else Some(Content(c.ann - {Cordoned, DrainStartedAt, DrainRetryCount}, false))
    case SetAnnotation(k, v) =>
      if Get(c.ann, k) == v then None else Some(c.(ann := c.ann[k := v]))
    case RemoveAnnotation(k) =>
      if Get(c.ann, k) == "" then None else Some(c.(ann := c.ann - {k}))
  }

  /** The keys an edit is about, as a patch. */
  function EditPatch(e: Edit): Patch
  {
    match e
    case CordonNode => Patch(map[Cordoned := Some("true")], Some(true))
    case UncordonNode => Patch(map[Cordoned := None, DrainStartedAt := None, DrainRetryCount := None], Some(false))
    case SetAnnotation(k, v) => Patch(map[k := Some(v)], None)
    case RemoveAnnotation(k) => Patch(map[k := None], None)
  }

  /** A whole-object edit is, on the object it was made from, a patch of its own keys. */
  lemma EditIsAPatch(c: Content, e: Edit)
    ensures Edited(c, e).Some? ==> Edited(c, e).value == Apply(c, EditPatch(e))
  {
    if Edited(c, e).Some? {
      assert Edited(c, e).value.ann == MergePatch(c.ann, EditPatch(e).ann);
    }
  }

  /** What reads back after each write of the agent, and that every other key reads as before. */
  lemma AgentWriteReads(c: Content, w: AgentWrite)
    ensures var r := Apply(c, AgentPatch(w));
      && r.unschedulable == c.unschedulable
      && (forall k | k !in AgentPatch(w).ann :: Get(r.ann, k) == Get(c.ann, k))
      && match w
         case SetState(s) => Get(r.ann, AgentState) == s && AgentPatch(w).ann.Keys == {AgentState}
         case SetCurrentRevision(rev) => Get(r.ann, CurrentRevision) == rev && AgentPatch(w).ann.Keys == {CurrentRevision}
         case SetLastError(e) => Get(r.ann, LastError) == e && AgentPatch(w).ann.Keys == {LastError}
         case ClearLastError => LastError !in r.ann && AgentPatch(w).ann.Keys == {LastError}
         case SetRebootPending(p) =>
           Get(r.ann, RebootPending) == (if p then "true" else "") && AgentPatch(w).ann.Keys == {RebootPending}
         case ClearForceReboot => ForceReboot !in r.ann && AgentPatch(w).ann.Keys == {ForceReboot}
         case SetStateWithError(s, e) =>
           Get(r.ann, AgentState) == s && Get(r.ann, LastError) == e && AgentPatch(w).ann.Keys == {AgentState, LastError}
         case SetDone(rev) =>
           Get(r.ann, AgentState) == "done" && Get(r.ann, CurrentRevision) == rev && AgentPatch(w).ann.Keys == {AgentState, CurrentRevision}
  {
  }

  /** What reads back after an edit of the controller, whether it had anything to write or not. */
  lemma EditReads(c: Content, e: Edit)
    ensures var r := if Edited(c, e).Some? then Edited(c, e).value else c;
      && (forall k | k !in EditPatch(e).ann :: Get(r.ann, k) == Get(c.ann, k))
      && match e
         case CordonNode => r.unschedulable && Get(r.ann, Cordoned) == "true"
         case UncordonNode =>
           && !r.unschedulable && Get(r.ann, Cordoned) != "true"
           && (r != c ==> {Cordoned, DrainStartedAt, DrainRetryCount} !! r.ann.Keys)
         case SetAnnotation(k, v) => Get(r.ann, k) == v && r.unschedulable == c.unschedulable && EditPatch(e).ann.Keys == {k}
         case RemoveAnnotation(k) => Get(r.ann, k) == "" && r.unschedulable == c.unschedulable && EditPatch(e).ann.Keys == {k}
  {
  }

  // ------------------------------------------------------------- interleavings

  datatype Writer = Controller | Agent

  datatype Entry = Entry(writer: Writer, patch: Patch)

  /** An edit under way: what it wants and the object it read. */
  datatype Attempt = Attempt(edit: Edit, seen: Stored)

  /** `log` lists the writes that took effect; nothing reads it. */
  datatype System = System(stored: Stored, attempts: map<nat, Attempt>, log: seq<Entry>)

  datatype Event =
    | Read(id: nat, edit: Edit)   // also the re-read of a retry
    | Update(id: nat)
    | GiveUp(id: nat)
    | Send(write: AgentWrite)

  predicate Possible(s: System, e: Event)
  {
    match e
    case Update(id) => id in s.attempts
    case _ => true
  }

  function Next(s: System, e: Event): System
    requires Possible(s, e)
  {
    match e
    case Read(id, edit) => s.(attempts := s.attempts[id := Attempt(edit, s.stored)])
    case GiveUp(id) => s.(attempts := s.attempts - {id})
    case Send(w) =>
      s.(stored := Stored(s.stored.version + 1, Apply(s.stored.content, AgentPatch(w))),
         log := s.log + [Entry(Agent, AgentPatch(w))])
    case Update(id) =>
      var a := s.attempts[id];
      var s' := s.(attempts := s.attempts - {id});
      match Edited(a.seen.content, a.edit)
      case None => s'
      case Some(c) =>
        if a.seen.version != s.stored.version then s'  // conflict
        else s'.(stored := Stored(s.stored.version + 1, c), log := s.log + [Entry(Controller, EditPatch(a.edit))])
  }

  ghost predicate IsRun(run: seq<System>, events: seq<Event>)
  {
    && |run| == |events| + 1
    && forall i | 0 <= i < |events| :: Possible(run[i], events[i]) && run[i + 1] == Next(run[i], events[i])
  }

  /** Patches applied one at a time. */
  function Replay(c: Content, log: seq<Entry>): Content
  {
    if log == [] then c else Apply(Replay(c, log[..|log| - 1]), log[|log| - 1].patch)
  }

  /** A read that is still current is a read of what is stored. */
  ghost predicate Consistent(s: System, first: Content)
  {
    && s.stored.content == Replay(first, s.log)
    && forall id | id in s.attempts ::
         s.attempts[id].seen.version < s.stored.version || s.attempts[id].seen == s.stored
  }

  lemma StepStaysConsistent(s: System, e: Event, first: Content)
    requires Consistent(s, first) && Possible(s, e)
    ensures Consistent(Next(s, e), first)
  {
    var s' := Next(s, e);
    if s'.log != s.log {
      var entry := if e.Send? then Entry(Agent, AgentPatch(e.write)) else Entry(Controller, EditPatch(s.attempts[e.id].edit));
      assert s'.log == s.log + [entry] && s'.log[..|s'.log| - 1] == s.log;
      if e.Update? {
        EditIsAPatch(s.attempts[e.id].seen.content, s.attempts[e.id].edit);
      }
    }
  }

  /** Every interleaving of any number of controller edits and agent patches ends where applying each
      write that took effect, one at a time and on its own keys only, ends: no update is lost. */
  lemma {:induction false} NoLostUpdate(run: seq<System>, events: seq<Event>)
    requires IsRun(run, events) && run[0].log == [] && run[0].attempts == map[]
    ensures forall i | 0 <= i < |run| :: run[i].stored.content == Replay(run[0].stored.content, run[i].log)
  {
    var first := run[0].stored.content;
    var i := 0;
    while i < |events|
      invariant 0 <= i <= |events|
      invariant forall j | 0 <= j <= i :: Consistent(run[j], first)
    {
      StepStaysConsistent(run[i], events[i], first);
      i := i + 1;
    }
  }

  // ------------------------------------------------------------- who owns what

  const AGENT_KEYS: set<Key> := {CurrentRevision, AgentState, LastError, RebootPending, ForceReboot}

  const CONTROLLER_KEYS: set<Key> := {DesiredRevision, Pool, DesiredRevisionSetAt, Cordoned, DrainStartedAt, DrainRetryCount}

  /** Each writer keeps to its keys; only the controller opens and closes the node to the scheduler. */
  predicate InOwnKeys(e: Entry)
  {
    match e.writer
    case Agent => e.patch.ann.Keys <= AGENT_KEYS && e.patch.unschedulable.None?
    case Controller => e.patch.ann.Keys <= CONTROLLER_KEYS
  }

  /** The writes of one party, in order. */
  function Own(log: seq<Entry>, w: Writer): seq<Entry>
  {
    if log == [] then []
    else
      var last := log[|log| - 1];
      Own(log[..|log| - 1], w) + if last.writer == w then [last] else []
  }

  /** Two contents that read the same for one writer. */
  ghost predicate AgreeOn(a: Content, b: Content, keys: set<Key>)
  {
    forall k | k in keys :: Get(a.ann, k) == Get(b.ann, k) && (k in a.ann <==> k in b.ann)
  }

  /** One more write on two contents that agree keeps them agreeing. */
  lemma SameWriteAgrees(a: Content, b: Content, p: Patch, keys: set<Key>)
    requires AgreeOn(a, b, keys)
    ensures AgreeOn(Apply(a, p), Apply(b, p), keys)
  {
  }

  /** A write on other keys does not show. */
  lemma ForeignWriteHides(a: Content, b: Content, p: Patch, keys: set<Key>)
    requires AgreeOn(a, b, keys) && p.ann.Keys !! keys
    ensures AgreeOn(Apply(a, p), b, keys)
  {
  }

  lemma ReplayOneMore(c: Content, log: seq<Entry>, e: Entry)
    ensures Replay(c, log + [e]) == Apply(Replay(c, log), e.patch)
  {
    assert (log + [e])[..|log|] == log;
  }

  /** No write of the other party touches the keys. */
  ghost predicate OnlyFrom(log: seq<Entry>, w: Writer, keys: set<Key>)
  {
    forall i | 0 <= i < |log| :: log[i].writer != w ==> log[i].patch.ann.Keys !! keys
  }

  lemma {:induction false} OwnKeysFromOwnWrites(c: Content, log: seq<Entry>, w: Writer, keys: set<Key>)
    requires OnlyFrom(log, w, keys)
    ensures AgreeOn(Replay(c, log), Replay(c, Own(log, w)), keys)
  {
    if log != [] {
      var front, last := log[..|log| - 1], log[|log| - 1];
      OwnKeysFromOwnWrites(c, front, w, keys);
      if last.writer == w {
        ReplayOneMore(c, Own(front, w), last);
        SameWriteAgrees(Replay(c, front), Replay(c, Own(front, w)), last.patch, keys);
      } else {
        assert Own(log, w) == Own(front, w);
        ForeignWriteHides(Replay(c, front), Replay(c, Own(front, w)), last.patch, keys);
      }
    }
  }

  lemma {:induction false} SchedulabilityFromController(c: Content, log: seq<Entry>)
    requires forall i | 0 <= i < |log| :: InOwnKeys(log[i])
    ensures Replay(c, log).unschedulable == Replay(c, Own(log, Controller)).unschedulable
  {
    if log != [] {
      var front, last := log[..|log| - 1], log[|log| - 1];
      SchedulabilityFromController(c, front);
      if last.writer.Controller? {
        ReplayOneMore(c, Own(front, Controller), last);
      } else {
        assert Own(log, Controller) == Own(front, Controller) && InOwnKeys(last);
      }
    }
  }

  /** Edits of the controller stay in its keys. */
  predicate ControllerEdit(e: Edit)
  {
    match e
    case SetAnnotation(k, _) => k in CONTROLLER_KEYS
    case RemoveAnnotation(k) => k in CONTROLLER_KEYS
    case _ => true
  }

  lemma WritersKeepToTheirKeys(w: AgentWrite, e: Edit)
    ensures InOwnKeys(Entry(Agent, AgentPatch(w)))
    ensures ControllerEdit(e) ==> InOwnKeys(Entry(Controller, EditPatch(e)))
  {
  }

  lemma StepKeepsOwnKeys(s: System, e: Event)
    requires Possible(s, e) && (e.Read? ==> ControllerEdit(e.edit))
    requires forall x | x in s.log :: InOwnKeys(x)
    requires forall id | id in s.attempts :: ControllerEdit(s.attempts[id].edit)
    ensures forall x | x in Next(s, e).log :: InOwnKeys(x)
    ensures forall id | id in Next(s, e).attempts :: ControllerEdit(Next(s, e).attempts[id].edit)
  {
    if e.Send? {
      WritersKeepToTheirKeys(e.write, CordonNode);
    } else if e.Update? {
      WritersKeepToTheirKeys(ClearLastError, s.attempts[e.id].edit);
    }
  }

  /** Each party's keys read as if it had written alone. */
  ghost predicate NothingOverwritten(s: System, first: Content)
  {
    && AgreeOn(s.stored.content, Replay(first, Own(s.log, Agent)), AGENT_KEYS)
    && AgreeOn(s.stored.content, Replay(first, Own(s.log, Controller)), CONTROLLER_KEYS)
    && s.stored.content.unschedulable == Replay(first, Own(s.log, Controller)).unschedulable
  }

  lemma OwnLogDecides(s: System, first: Content)
    requires s.stored.content == Replay(first, s.log)
    requires forall x | x in s.log :: InOwnKeys(x)
    ensures NothingOverwritten(s, first)
  {
    assert forall k | 0 <= k < |s.log| :: s.log[k] in s.log;
    assert OnlyFrom(s.log, Agent, AGENT_KEYS) && OnlyFrom(s.log, Controller, CONTROLLER_KEYS);
    OwnKeysFromOwnWrites(first, s.log, Agent, AGENT_KEYS);
    OwnKeysFromOwnWrites(first, s.log, Controller, CONTROLLER_KEYS);
    SchedulabilityFromController(first, s.log);
  }

  /** Neither party overwrites the other: after any interleaving the agent's keys read as if only the
      agent had written, and the controller's keys and the schedulability as if only the controller had. */
  lemma {:induction false} NeitherOverwrites(run: seq<System>, events: seq<Event>)
    requires IsRun(run, events) && run[0].log == [] && run[0].attempts == map[]
    requires forall i | 0 <= i < |events| :: events[i].Read? ==> ControllerEdit(events[i].edit)
    ensures forall i | 0 <= i < |run| :: NothingOverwritten(run[i], run[0].stored.content)
  {
    NoLostUpdate(run, events);
    var i := 0;
    while i < |events|
      invariant 0 <= i <= |events|
      invariant forall id | id in run[i].attempts :: ControllerEdit(run[i].attempts[id].edit)
      invariant forall j | 0 <= j <= i :: forall x | x in run[j].log :: InOwnKeys(x)
    {
      StepKeepsOwnKeys(run[i], events[i]);
      i := i + 1;
    }
    forall j | 0 <= j < |run| ensures NothingOverwritten(run[j], run[0].stored.content) {
      OwnLogDecides(run[j], run[0].stored.content);
    }
  }

  /** The keys an edit is about. */
  function KeysOf(e: Edit): set<Key>
  {
    EditPatch(e).ann.Keys
  }

  /** The version check is what does it.  Sending the whole object without it, on top of whatever was written
      since the read, has the effect of the edit exactly when nothing outside the edit's own keys was
      written: everything else written since is taken back. */
  lemma UncheckedUpdateIffUntouched(seen: Content, stored: Content, e: Edit)
    requires Edited(seen, e).Some?
    ensures Edited(seen, e).value == Apply(stored, EditPatch(e))
       <==> (seen.ann - KeysOf(e) == stored.ann - KeysOf(e)
             && (EditPatch(e).unschedulable.Some? || seen.unschedulable == stored.unschedulable))
  {
    EditIsAPatch(seen, e);
    var mine, theirs := MergePatch(seen.ann, EditPatch(e).ann), MergePatch(stored.ann, EditPatch(e).ann);
    assert seen.ann - KeysOf(e) == mine - KeysOf(e) && stored.ann - KeysOf(e) == theirs - KeysOf(e);
    if seen.ann - KeysOf(e) == stored.ann - KeysOf(e) {
      forall k ensures (k in mine <==> k in theirs) && (k in mine ==> mine[k] == theirs[k]) {
        if k !in KeysOf(e) {
          assert k in mine <==> k in seen.ann - KeysOf(e);
          assert k in theirs <==> k in stored.ann - KeysOf(e);
        }
      }
      assert mine == theirs;
    }
  }
}
