/** Ingest and retention sharing one store.

Any number of message handlers (internal/ingest/service.go:74-142) and one prune
(internal/storage/retention.go:25-79) take turns, a statement at a time, in any order; each
statement may give up, the process may crash at any point. A schedule is a sequence of labels;
a label whose turn it is not does nothing, so every sequence is a run. */
module Protocol {
  import opened Wrappers
  import opened Store
  import opened Ingest
  import opened Retention
  import opened Migration

  /** The next insert of a handler; `inserted` is what the raw insert returned. */
  datatype Pc = AtRaw | AtObs(inserted: bool) | AtLink | AtCheckin

  datatype Handler = Handler(msg: Msg, pc: Pc)

  /** The handler inserted the raw row itself and still has a link or a check-in to insert. */
  predicate Owner(env: Env, h: Handler) {
    (h.pc == AtObs(true) || h.pc == AtLink || h.pc == AtCheckin) && MsgLink(env, h.msg).Some?
  }

  /** A prune between two statements: what it read at its start, and how far it is. */
  datatype Pruner =
    | Idle
    | Scanning(cutoff: int, protected: set<Hash>, lastID: int)
    | Deleting(cutoff: int, protected: set<Hash>, lastID: int, pending: seq<int>)

  /** faulted: a link or check-in insert has failed, or a crash has hit a running handler. */
  datatype State = State(db: DB, handlers: map<nat, Handler>, pruner: Pruner, faulted: bool)

  const START := State(EMPTY, map[], Idle, false)

  datatype Label =
    | Begin(pid: nat, msg: Msg)
    | Advance(pid: nat, fails: bool, clock: int)
    | PruneStart(now: int, retainMondayWeeks: nat)
    | PruneScan
    | PruneDelete
    | PruneStop
    | Crash
    | MigrateSchema
    | RestoreLinks(skipped: set<Hash>)

  // ----- One step -----

  datatype Stepped = Stepped(db: DB, next: Option<Handler>, fault: bool)

  function StepHandler(env: Env, db: DB, h: Handler, fails: bool, clock: int): Stepped {
    var m := h.msg;
    match h.pc
    case AtRaw =>
      if fails then Stepped(db, None, false)
      else Stepped(Apply(db, RawStatement(m)).0, Some(h.(pc := AtObs(!HasRaw(db, m.hash)))), false)
    case AtObs(inserted) =>
      Stepped(Attempt(db, ObsStatement(m), fails),
              if inserted && MsgLink(env, m).Some? then Some(h.(pc := AtLink)) else None, false)
    case AtLink =>
      if MsgLink(env, m).None? then Stepped(db, None, false)
      else Stepped(Attempt(db, LinkStatement(env, m), fails), Some(h.(pc := AtCheckin)),
                   fails || Apply(db, LinkStatement(env, m)).1.Failed?)
    case AtCheckin =>
      if MsgLink(env, m).None? then Stepped(db, None, false)
      else Stepped(Attempt(db, CheckinStatement(env, m, clock), fails), None,
                   fails || Apply(db, CheckinStatement(env, m, clock)).1.Failed?)
  }

  function AdvanceHandler(env: Env, s: State, pid: nat, fails: bool, clock: int): State
    requires pid in s.handlers
  {
    var step := StepHandler(env, s.db, s.handlers[pid], fails, clock);
    State(step.db, if step.next.Some? then s.handlers[pid := step.next.value] else s.handlers - {pid},
          s.pruner, s.faulted || step.fault)
  }

  function ScanStep(env: Env, s: State): State
    requires s.pruner.Scanning?
  {
    var p := s.pruner;
    var batch := ScanBatch(s.db.raw, p.lastID, SCAN_BATCH);
    if batch == [] then s.(pruner := Idle)
    else
      var ids := ToDelete(env.zone, batch, p.cutoff, p.protected);
      if ids == [] then s.(pruner := Scanning(p.cutoff, p.protected, batch[|batch| - 1].id))
      else s.(pruner := Deleting(p.cutoff, p.protected, p.lastID, ids))
  }

  function ChunkOf(pending: seq<int>): seq<int> {
    if |pending| <= DELETE_CHUNK then pending else pending[..DELETE_CHUNK]
  }

  function DeleteStep(s: State): State
    requires s.pruner.Deleting?
  {
    var p := s.pruner;
    var chunk := ChunkOf(p.pending);
    var rest := p.pending[|chunk|..];
    s.(db := DeleteRaw(s.db, IdSet(chunk)),
       pruner := if rest == [] then Scanning(p.cutoff, p.protected, p.lastID) else p.(pending := rest))
  }

  /** No handler and no prune is running: start-up, or the restore command. */
  predicate Quiet(s: State) {
    s.handlers == map[] && s.pruner.Idle?
  }

  function Next(env: Env, s: State, l: Label): State {
    match l
    case Begin(pid, msg) => if pid in s.handlers then s else s.(handlers := s.handlers[pid := Handler(msg, AtRaw)])
    case Advance(pid, fails, clock) => if pid in s.handlers then AdvanceHandler(env, s, pid, fails, clock) else s
    case PruneStart(now, weeks) =>
      if s.pruner.Idle? then s.(pruner := Scanning(CutoffOf(env.zone, now, weeks), ProtectedHashes(s.db), 0)) else s
    case PruneScan => if s.pruner.Scanning? then ScanStep(env, s) else s
    case PruneDelete => if s.pruner.Deleting? then DeleteStep(s) else s
    case PruneStop => s.(pruner := Idle)
    case Crash => State(s.db, map[], Idle, s.faulted || s.handlers != map[])
    case MigrateSchema => if Quiet(s) then s.(db := Migrated(s.db)) else s
    case RestoreLinks(skipped) =>
      if !Quiet(s) then s
      else s.(db := s.db.(links := s.db.links + set l | l in DerivedLinks(env, s.db) && l.hash !in skipped))
  }

  function Run(env: Env, s: State, labels: seq<Label>): State
    decreases |labels|
  {
    if labels == [] then s else Run(env, Next(env, s, labels[0]), labels[1..])
  }

  lemma RunStep(env: Env, s: State, l: Label, rest: seq<Label>)
    ensures Run(env, s, [l] + rest) == Run(env, Next(env, s, l), rest)
  {
  }

  lemma RunThree(env: Env, s: State, a: Label, b: Label, c: Label) returns (t: State)
    ensures t == Run(env, s, [a, b, c]) == Next(env, Next(env, Next(env, s, a), b), c)
  {
    var s1 := Next(env, s, a);
    var s2 := Next(env, s1, b);
    t := Next(env, s2, c);
    assert [a, b, c] == [a] + [b, c] && [b, c] == [b] + [c] && [c] == [c] + [];
    RunStep(env, s, a, [b, c]);
    RunStep(env, s1, b, [c]);
    RunStep(env, s2, c, []);
  }

  lemma {:induction false} RunConcat(env: Env, s: State, a: seq<Label>, b: seq<Label>)
    ensures Run(env, s, a + b) == Run(env, Run(env, s, a), b)
    decreases |a|
  {
    if a == [] {
      assert a + b == b;
    } else {
      assert (a + b)[1..] == a[1..] + b;
      RunConcat(env, Next(env, s, a[0]), a[1..], b);
    }
  }
}
