/** What holds over whole runs in which no check-in comes too late for a running prune; module
Safety has what needs no such condition, module Stale what happens without it. */
module Runs {
  import opened Store
  import opened Ingest
  import opened Protocol
  import opened Safety
  import opened Grounding
  import opened Invariant
  import MeshCore
  import Text

  /** A state some schedule leads to from the empty store, no check-in in flight ever being late for
      a running prune. */
  ghost predicate Reachable(env: Env, s: State) {
    exists labels :: RecentThroughout(env, START, labels) && Run(env, START, labels) == s
  }

  lemma ReachableInv(env: Env, s: State)
    requires Reachable(env, s)
    ensures Inv(env, s)
  {
    var labels :| RecentThroughout(env, START, labels) && Run(env, START, labels) == s;
    StartInv(env);
    RunKeeps(env, START, labels);
  }

  /** Whatever the schedule does next, no check-in, no link and no observation of a linked packet
      is ever lost. */
  lemma NothingIsLost(env: Env, s: State, labels: seq<Label>)
    requires Reachable(env, s) && RecentThroughout(env, s, labels)
    ensures Keeps(s.db, Run(env, s, labels).db)
  {
    ReachableInv(env, s);
    RunKeeps(env, s, labels);
  }

  /** No row is then ever pulled from under its handler. */
  lemma {:induction false} RecentStands(env: Env, s: State, labels: seq<Label>)
    requires Inv(env, s) && RecentThroughout(env, s, labels)
    ensures RowsStandThroughout(env, s, labels) && StandThroughout(env, s, labels)
    decreases |labels|
  {
    RowsGiveLinks(env, s);
    if labels != [] {
      NextKeeps(env, s, labels[0]);
      RecentStands(env, Next(env, s, labels[0]), labels[1..]);
    }
  }

  lemma RowsGiveLinks(env: Env, s: State)
    requires RowsStand(env, s.db, s.handlers)
    ensures AllStanding(env, s)
  {
    forall p | p in s.handlers && Owner(env, s.handlers[p]) ensures Standing(env, s.db, s.handlers[p]) {
      var r := OwnerStands(env, s, p);
    }
  }

  /** So what module Grounding shows of such runs holds. */
  lemma ReachableIsRooted(env: Env, s: State)
    requires Reachable(env, s)
    ensures Rooted(env, s) && Stood(env, s)
  {
    var labels :| RecentThroughout(env, START, labels) && Run(env, START, labels) == s;
    StartInv(env);
    RecentStands(env, START, labels);
  }

  /** The link table holds exactly the derived links, each with a check-in of its user and week,
      whenever no handler is running and no link or check-in insert has failed. */
  lemma FaultFreeRunsAreComplete(env: Env, s: State)
    requires Reachable(env, s) && !s.faulted && s.handlers == map[]
    ensures s.db.links == DerivedLinks(env, s.db)
    ensures forall l | l in s.db.links :: HasCheckin(s.db, l.week, l.username)
  {
    ReachableInv(env, s);
    forall l ensures !LinkOnItsWay(env, s.handlers, l) && !CheckinOnItsWay(env, s.handlers, l) {}
  }

  // ----- Duplicates -----

  /** The message carries a decodable payload under its hash, as the service builds them. */
  predicate Genuine(cfg: Config, m: Msg) {
    && MeshCore.DecodeText(m.payload).Ok?
    && m.hash == MeshCore.HashPacket(cfg.sha, cfg.lib.fold, m.payload)
  }

  ghost predicate GenuineRun(cfg: Config, labels: seq<Label>) {
    forall l | l in labels && l.Begin? :: Genuine(cfg, l.msg)
  }

  ghost predicate AllGenuine(cfg: Config, s: State) {
    RowsHashed(cfg, s.db) && forall p | p in s.handlers :: Genuine(cfg, s.handlers[p].msg)
  }

  lemma NextGenuine(cfg: Config, s: State, l: Label)
    requires AllGenuine(cfg, s) && (l.Begin? ==> Genuine(cfg, l.msg))
    ensures AllGenuine(cfg, Next(EnvOf(cfg), s, l))
  {
    NextRows(EnvOf(cfg), s, l);
    NextHandlers(EnvOf(cfg), s, l);
  }

  lemma {:induction false} RunGenuine(cfg: Config, s: State, labels: seq<Label>)
    requires AllGenuine(cfg, s) && GenuineRun(cfg, labels)
    ensures AllGenuine(cfg, Run(EnvOf(cfg), s, labels))
    decreases |labels|
  {
    if labels != [] {
      NextGenuine(cfg, s, labels[0]);
      RunGenuine(cfg, Next(EnvOf(cfg), s, labels[0]), labels[1..]);
    }
  }

  /** In every schedule, prunes and crashes included: a packet dropped as a duplicate decodes to the
      same packet, and holds the same check-in, as the row that stands for it. */
  lemma DropsOnlyTheSamePacket(cfg: Config, labels: seq<Label>, packetHex: string) returns (r: RawRow)
    requires MeshCore.Injective(cfg.sha) && Text.LowerMap(cfg.lib.fold) && GenuineRun(cfg, labels)
    requires MeshCore.DecodeText(packetHex).Ok?
    requires HasRaw(Run(EnvOf(cfg), START, labels).db, MeshCore.HashPacket(cfg.sha, cfg.lib.fold, packetHex))
    ensures r in Run(EnvOf(cfg), START, labels).db.raw
    ensures r.hash == MeshCore.HashPacket(cfg.sha, cfg.lib.fold, packetHex)
    ensures MeshCore.DecodeText(r.payload) == MeshCore.DecodeText(packetHex)
    ensures CandidateOf(cfg, r.payload) == CandidateOf(cfg, packetHex)
  {
    RunGenuine(cfg, START, labels);
    r := DuplicateIsSamePacket(cfg, Run(EnvOf(cfg), START, labels).db, packetHex);
  }

  // ----- A handler on its own -----

  /** One step of a handler, the others being those of base. */
  lemma OneStep(env: Env, db: DB, base: map<nat, Handler>, pid: nat, h: Handler, pruner: Pruner, faulted: bool,
                fails: bool, clock: int)
    requires pid !in base
    ensures var step := StepHandler(env, db, h, fails, clock);
            Next(env, State(db, base[pid := h], pruner, faulted), Advance(pid, fails, clock)) ==
            State(step.db, if step.next.Some? then base[pid := step.next.value] else base,
                  pruner, faulted || step.fault)
  {
    assert base[pid := h] - {pid} == base;
  }

  /** The state after a handler's first two inserts. */
  function ObservedState(env: Env, s: State, pid: nat, m: Msg, f: Faults): State {
    var observed := Attempt(Attempt(s.db, RawStatement(m), false), ObsStatement(m), f.obs);
    if f.raw then s
    else if !HasRaw(s.db, m.hash) && MsgLink(env, m).Some? then
      State(observed, s.handlers[pid := Handler(m, AtLink)], s.pruner, s.faulted)
    else s.(db := observed)
  }

  lemma FirstTwoSteps(env: Env, s: State, pid: nat, m: Msg, f: Faults, clock: int)
    requires pid !in s.handlers
    ensures Next(env, Next(env, Next(env, s, Begin(pid, m)), Advance(pid, f.raw, clock)), Advance(pid, f.obs, clock))
            == ObservedState(env, s, pid, m, f)
  {
    OneStep(env, s.db, s.handlers, pid, Handler(m, AtRaw), s.pruner, s.faulted, f.raw, clock);
    var h := Handler(m, AtObs(!HasRaw(s.db, m.hash)));
    OneStep(env, Attempt(s.db, RawStatement(m), false), s.handlers, pid, h, s.pruner, s.faulted, f.obs, clock);
  }

  lemma LastTwoSteps(env: Env, s: State, pid: nat, m: Msg, f: Faults, clock: int) returns (t: State)
    requires pid !in s.handlers && MsgLink(env, m).Some? && HasRaw(s.db, m.hash)
    ensures t == Next(env, Next(env, State(s.db, s.handlers[pid := Handler(m, AtLink)], s.pruner, s.faulted),
                                Advance(pid, f.link, clock)), Advance(pid, f.checkin, clock))
    ensures var linked := Attempt(s.db, LinkStatement(env, m), f.link);
            t == State(Attempt(linked, CheckinStatement(env, m, clock), f.checkin), s.handlers, s.pruner,
                       s.faulted || f.link || f.checkin)
  {
    var linked := Attempt(s.db, LinkStatement(env, m), f.link);
    OneStep(env, s.db, s.handlers, pid, Handler(m, AtLink), s.pruner, s.faulted, f.link, clock);
    OneStep(env, linked, s.handlers, pid, Handler(m, AtCheckin), s.pruner, s.faulted || f.link, f.checkin, clock);
    assert HasRaw(linked, m.hash);
    t := Next(env, Next(env, State(s.db, s.handlers[pid := Handler(m, AtLink)], s.pruner, s.faulted),
                        Advance(pid, f.link, clock)), Advance(pid, f.checkin, clock));
  }

  lemma HandledFromObserved(env: Env, s: State, pid: nat, m: Msg, f: Faults, clock: int)
    requires pid !in s.handlers
    ensures var u := ObservedState(env, s, pid, m, f);
            var t := Next(env, Next(env, u, Advance(pid, f.link, clock)), Advance(pid, f.checkin, clock));
            && t.db == Handled(env, s.db, m, f, clock) && t.handlers == s.handlers && t.pruner == s.pruner
            && (t.faulted ==> s.faulted || f.link || f.checkin) && (s.faulted ==> t.faulted)
  {
    if !f.raw && !HasRaw(s.db, m.hash) && MsgLink(env, m).Some? {
      var stored := Attempt(s.db, RawStatement(m), false);
      var observed := Attempt(stored, ObsStatement(m), f.obs);
      assert stored.raw[|s.db.raw|] in stored.raw && observed.raw == stored.raw;
      var t := LastTwoSteps(env, s.(db := observed), pid, m, f, clock);
    }
  }

  function HandlerRun(pid: nat, m: Msg, f: Faults, clock: int): seq<Label> {
    [Begin(pid, m), Advance(pid, f.raw, clock), Advance(pid, f.obs, clock),
     Advance(pid, f.link, clock), Advance(pid, f.checkin, clock)]
  }

  /** The protocol's steps, taken one after the other, are what HandleMessage does; a fault is noted
      only when a link or check-in insert fails. */
  lemma HandledIsRun(env: Env, s: State, pid: nat, m: Msg, f: Faults, clock: int)
    requires pid !in s.handlers
    ensures var t := Run(env, s, HandlerRun(pid, m, f, clock));
            && t.db == Handled(env, s.db, m, f, clock) && t.handlers == s.handlers && t.pruner == s.pruner
            && (t.faulted ==> s.faulted || f.link || f.checkin) && (s.faulted ==> t.faulted)
  {
    RunFive(env, s, Begin(pid, m), Advance(pid, f.raw, clock), Advance(pid, f.obs, clock),
            Advance(pid, f.link, clock), Advance(pid, f.checkin, clock));
    FirstTwoSteps(env, s, pid, m, f, clock);
    HandledFromObserved(env, s, pid, m, f, clock);
  }

  lemma RunFive(env: Env, s: State, a: Label, b: Label, c: Label, d: Label, e: Label)
    ensures Run(env, s, [a, b, c, d, e]) == Next(env, Next(env, Next(env, Next(env, Next(env, s, a), b), c), d), e)
  {
    var s1 := Next(env, s, a);
    var s2 := Next(env, s1, b);
    var s3 := Next(env, s2, c);
    var s4 := Next(env, s3, d);
    assert [a, b, c, d, e] == [a] + [b, c, d, e] && [b, c, d, e] == [b] + [c, d, e];
    assert [c, d, e] == [c] + [d, e] && [d, e] == [d] + [e] && [e] == [e] + [];
    RunStep(env, s, a, [b, c, d, e]);
    RunStep(env, s1, b, [c, d, e]);
    RunStep(env, s2, c, [d, e]);
    RunStep(env, s3, d, [e]);
    RunStep(env, s4, e, []);
  }
}
