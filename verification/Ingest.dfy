/** Message handling and link restoring, internal/ingest/service.go. */
module Ingest {
  import opened Wrappers
  import opened Calendar
  import opened Extraction
  import opened Store
  import MeshCore
  import Text

  // ----- What a message or a stored row means -----

  /** All that the link tables depend on besides the rows: the zone, and which check-in, if any,
      a payload holds. */
  datatype Env = Env(zone: Zone, candidate: string -> Option<Candidate>)

  /** A decoded message on its way into the store; it was observed at an instant in nanoseconds. */
  datatype Msg = Msg(hash: Hash, payload: string, iata: string, observer: string, observedAt: int)

  /** The link restored for a stored row. */
  function RowLink(env: Env, r: RawRow): Option<Link> {
    match env.candidate(r.payload)
    case None => None
    case Some(c) =>
      if IsMonday(env.zone, r.observedAt)
      then Some(Link(WeekDate(env.zone, r.observedAt), c.username, r.hash))
      else None
  }

  /** The link a handler inserts, computed from the instant before it was stored. */
  function MsgLink(env: Env, m: Msg): Option<Link> {
    match env.candidate(m.payload)
    case None => None
    case Some(c) =>
      if IsMondayDay(NanoDay(env.zone, m.observedAt)) then
        Some(Link(LocalDay(env.zone, NanoWeekStart(env.zone, m.observedAt)), c.username, m.hash))
      else None
  }

  function MsgCheckin(env: Env, m: Msg, createdAt: int): CheckinRow
    requires MsgLink(env, m).Some?
  {
    var c := env.candidate(m.payload).value;
    CheckinRow(0, m.hash, c.username, c.displayName, c.message, m.iata,
               NanoDay(env.zone, m.observedAt), MsgLink(env, m).value.week, createdAt)
  }

  /** The row is the one the message was stored as. */
  predicate IsRowOf(r: RawRow, m: Msg) {
    r.hash == m.hash && r.payload == m.payload && r.observedAt == SecondOf(m.observedAt)
  }

  /** Reading the instant back at whole seconds, a restore derives the very link the handler did. */
  lemma RowLinkIsMsgLink(env: Env, r: RawRow, m: Msg)
    requires IsRowOf(r, m)
    ensures RowLink(env, r) == MsgLink(env, m)
    ensures NanoDay(env.zone, m.observedAt) == LocalDay(env.zone, r.observedAt)
    ensures NanoWeekStart(env.zone, m.observedAt) == WeekStart(env.zone, r.observedAt)
  {
  }

  function DerivedLinks(env: Env, db: DB): set<Link> {
    set r | r in db.raw && RowLink(env, r).Some? :: RowLink(env, r).value
  }

  // ----- The four inserts of a handler -----

  function RawStatement(m: Msg): Statement {
    InsRaw(m.hash, m.payload, m.iata, SecondOf(m.observedAt))
  }

  function ObsStatement(m: Msg): Statement {
    InsObs(Obs(m.hash, m.observer))
  }

  function LinkStatement(env: Env, m: Msg): Statement
    requires MsgLink(env, m).Some?
  {
    InsLink(MsgLink(env, m).value)
  }

  function CheckinStatement(env: Env, m: Msg, createdAt: int): Statement
    requires MsgLink(env, m).Some?
  {
    InsCheckin(MsgCheckin(env, m, createdAt))
  }

  /** Which of the inserts gave up after its retries. */
  datatype Faults = Faults(raw: bool, obs: bool, link: bool, checkin: bool)

  const NO_FAULTS := Faults(false, false, false, false)

  function Attempt(db: DB, st: Statement, fails: bool): DB {
    if fails then db else Apply(db, st).0
  }

  /** One handled message from start to end, undisturbed. */
  function Handled(env: Env, db: DB, m: Msg, f: Faults, createdAt: int): DB {
    if f.raw then db
    else
      var inserted := !HasRaw(db, m.hash);
      var observed := Attempt(Attempt(db, RawStatement(m), false), ObsStatement(m), f.obs);
      if !inserted || MsgLink(env, m).None? then observed
      else Attempt(Attempt(observed, LinkStatement(env, m), f.link), CheckinStatement(env, m, createdAt), f.checkin)
  }

  predicate HasCheckin(db: DB, week: int, username: string) {
    exists c | c in db.checkins :: c.week == week && c.username == username
  }

  /** A message whose packet is already stored adds at most its observer. */
  lemma DuplicateOnlyObserves(env: Env, db: DB, m: Msg, f: Faults, createdAt: int)
    requires HasRaw(db, m.hash)
    ensures var after := Handled(env, db, m, f, createdAt);
            after == db || after == db.(obs := db.obs + {Obs(m.hash, m.observer)})
    ensures Obs(m.hash, m.observer) in db.obs ==> Handled(env, db, m, f, createdAt) == db
  {
  }

  /** Handling a message a second time after a run without faults changes nothing. */
  lemma ReplayChangesNothing(env: Env, db: DB, m: Msg, f: Faults, first: int, second: int)
    ensures var once := Handled(env, db, m, NO_FAULTS, first); Handled(env, once, m, f, second) == once
  {
    var stored := Attempt(db, RawStatement(m), false);
    assert HasRaw(stored, m.hash) by {
      if !HasRaw(db, m.hash) {
        assert stored.raw[|stored.raw| - 1] in stored.raw;
      }
    }
    var once := Handled(env, db, m, NO_FAULTS, first);
    assert once.raw == stored.raw;
    DuplicateOnlyObserves(env, once, m, f, second);
  }

  /** Without faults a message is linked, and its user checked in for the week, exactly when its
      packet is new and holds a Monday check-in; otherwise no link and no check-in is added. */
  lemma HandledChecksIn(env: Env, db: DB, m: Msg, createdAt: int)
    requires Consistent(db)
    ensures var after := Handled(env, db, m, NO_FAULTS, createdAt);
            var isNew := !HasRaw(db, m.hash) && MsgLink(env, m).Some?;
            && HasRaw(after, m.hash) && Obs(m.hash, m.observer) in after.obs
            && (!isNew ==> after.links == db.links && after.checkins == db.checkins)
            && (isNew ==>
                  var l, c := MsgLink(env, m).value, MsgCheckin(env, m, createdAt).(id := db.nextCheckin);
                  && after.links == db.links + {l}
                  && after.checkins == db.checkins + (if HasCheckin(db, l.week, l.username) then [] else [c])
                  && HasCheckin(after, l.week, l.username))
  {
    if !HasRaw(db, m.hash) && MsgLink(env, m).Some? {
      var observed := Attempt(Attempt(db, RawStatement(m), false), ObsStatement(m), false);
      var linked := Attempt(observed, LinkStatement(env, m), false);
      CheckinLands(linked, MsgCheckin(env, m, createdAt));
    }
  }

  /** With the raw row there and no other check-in of that packet, inserting a check-in always
      leaves its user checked in for the week. */
  lemma CheckinLands(db: DB, c: CheckinRow)
    requires HasRaw(db, c.hash)
    requires forall d | d in db.checkins :: d.hash != c.hash
    ensures !Apply(db, InsCheckin(c)).1.Failed?
    ensures HasCheckin(Apply(db, InsCheckin(c)).0, c.week, c.username)
  {
  }

  datatype Delivery = Delivery(msg: Msg, faults: Faults, createdAt: int)

  function Delivered(env: Env, db: DB, ds: seq<Delivery>): DB
    decreases |ds|
  {
    if ds == [] then db
    else Delivered(env, Handled(env, db, ds[0].msg, ds[0].faults, ds[0].createdAt), ds[1..])
  }

  /** Once the raw row is stored, no number of retransmissions makes up for a link or check-in
      insert that failed: the duplicate test returns before them. */
  lemma {:induction false} RetransmissionsNeverCheckIn(env: Env, db: DB, hash: Hash, ds: seq<Delivery>)
    requires HasRaw(db, hash) && forall d | d in ds :: d.msg.hash == hash
    ensures var after := Delivered(env, db, ds);
            after.raw == db.raw && after.links == db.links && after.checkins == db.checkins
    decreases |ds|
  {
    if ds != [] {
      DuplicateOnlyObserves(env, db, ds[0].msg, ds[0].faults, ds[0].createdAt);
      RetransmissionsNeverCheckIn(env, Handled(env, db, ds[0].msg, ds[0].faults, ds[0].createdAt), hash, ds[1..]);
    }
  }

  // ----- Restoring links -----

  function Restored(env: Env, db: DB): DB {
    db.(links := db.links + DerivedLinks(env, db))
  }

  lemma RestoreIdempotent(env: Env, db: DB)
    ensures Restored(env, Restored(env, db)) == Restored(env, db)
  {
  }

  /** A restore makes the table equal to its source if and only if it held only derived links: it
      never removes one. */
  lemma RestoreMendsIff(env: Env, db: DB)
    ensures Restored(env, db).links == DerivedLinks(env, Restored(env, db)) <==> db.links <= DerivedLinks(env, db)
  {
    assert DerivedLinks(env, Restored(env, db)) == DerivedLinks(env, db);
  }

  // ----- The service -----

  /** The settings; `sha` is SHA-256 in hex. */
  datatype Config = Config(zone: Zone, lib: Library, sha: string -> string, keys: seq<string>)

  function CandidateOf(cfg: Config, payload: string): Option<Candidate> {
    match MeshCore.DecodeText(payload)
    case Err(_) => None
    case Ok(p) => ExtractFromPacket(cfg.lib, p.payloadType, p.payloadHex, cfg.keys)
  }

  function EnvOf(cfg: Config): Env {
    Env(cfg.zone, payload => CandidateOf(cfg, payload))
  }

  function MsgOf(cfg: Config, packetHex: string, iata: string, observer: string, observedAt: int): Msg {
    Msg(MeshCore.HashPacket(cfg.sha, cfg.lib.fold, packetHex), packetHex, iata, observer, observedAt)
  }

  /** Every stored row is a decodable payload under its own hash. */
  ghost predicate RowsHashed(cfg: Config, db: DB) {
    forall r | r in db.raw ::
      MeshCore.DecodeText(r.payload).Ok? && r.hash == MeshCore.HashPacket(cfg.sha, cfg.lib.fold, r.payload)
  }

  lemma HandledKeepsRowsHashed(cfg: Config, db: DB, packetHex: string, iata: string, observer: string,
                               observedAt: int, f: Faults, clock: int)
    requires RowsHashed(cfg, db) && MeshCore.DecodeText(packetHex).Ok?
    ensures RowsHashed(cfg, Handled(EnvOf(cfg), db, MsgOf(cfg, packetHex, iata, observer, observedAt), f, clock))
  {
    var m := MsgOf(cfg, packetHex, iata, observer, observedAt);
    HandledRows(EnvOf(cfg), db, m, f, clock);
  }

  lemma HandledRows(env: Env, db: DB, m: Msg, f: Faults, clock: int)
    ensures forall r | r in Handled(env, db, m, f, clock).raw :: r in db.raw || IsRowOf(r, m)
  {
  }

  /** A message dropped as a duplicate carries the packet, and the check-in, of the stored row. */
  lemma DuplicateIsSamePacket(cfg: Config, db: DB, packetHex: string) returns (r: RawRow)
    requires MeshCore.Injective(cfg.sha) && Text.LowerMap(cfg.lib.fold) && RowsHashed(cfg, db)
    requires MeshCore.DecodeText(packetHex).Ok?
    requires HasRaw(db, MeshCore.HashPacket(cfg.sha, cfg.lib.fold, packetHex))
    ensures r in db.raw && r.hash == MeshCore.HashPacket(cfg.sha, cfg.lib.fold, packetHex)
    ensures MeshCore.DecodeText(r.payload) == MeshCore.DecodeText(packetHex)
    ensures CandidateOf(cfg, r.payload) == CandidateOf(cfg, packetHex)
  {
    r :| r in db.raw && r.hash == MeshCore.HashPacket(cfg.sha, cfg.lib.fold, packetHex);
    MeshCore.SameHashSamePacket(cfg.sha, cfg.lib.fold, r.payload, packetHex);
  }

  // ----- What handling and restoring do, in plain terms -----

  /** What a packet text holds: the check-in found in its payload. */
  function Found(cfg: Config, payload: string): Option<Candidate>
    requires MeshCore.DecodeText(payload).Ok?
  {
    var p := MeshCore.DecodeText(payload).value;
    ExtractFromPacket(cfg.lib, p.payloadType, p.payloadHex, cfg.keys)
  }

  /** Where each of the message's parameters goes. A packet not stored yet is stored, with its region
      and the second it was observed in; its observer is noted; and if it holds a check-in and the
      local day is a Monday, the user is linked, and checked in unless the packet or the user's week
      has a check-in. */
  ghost predicate HandledPlainly(cfg: Config, db: DB, packetHex: string, iata: string, observer: string,
                                 observedAt: int, f: Faults, clock: int, after: DB)
    requires MeshCore.DecodeText(packetHex).Ok?
  {
    var hash, at := MeshCore.HashPacket(cfg.sha, cfg.lib.fold, packetHex), SecondOf(observedAt);
    var isNew := !f.raw && forall r | r in db.raw :: r.hash != hash;
    var found, day, week := Found(cfg, packetHex), LocalDay(cfg.zone, at), WeekDate(cfg.zone, at);
    var checksIn := isNew && found.Some? && IsMonday(cfg.zone, at);
    && after.raw == db.raw + (if isNew then [RawRow(db.nextRaw, hash, packetHex, iata, at)] else [])
    && after.nextRaw == db.nextRaw + (if isNew then 1 else 0)
    && after.obs == db.obs + (if f.raw || f.obs then {} else {Obs(hash, observer)})
    && after.links == db.links + (if checksIn && !f.link then {Link(week, found.value.username, hash)} else {})
    && (!checksIn || f.checkin ==> after.checkins == db.checkins)
    && (checksIn && !f.checkin ==>
          var c := found.value;
          var taken := exists d :: d in db.checkins && (d.hash == hash || (d.week == week && d.username == c.username));
          after.checkins == db.checkins + if taken then [] else
            [CheckinRow(db.nextCheckin, hash, c.username, c.displayName, c.message, iata, day, week, clock)])
  }

  lemma MsgLinkMeaning(cfg: Config, packetHex: string, iata: string, observer: string, observedAt: int)
    requires MeshCore.DecodeText(packetHex).Ok?
    ensures var m, at := MsgOf(cfg, packetHex, iata, observer, observedAt), SecondOf(observedAt);
            var found := Found(cfg, packetHex);
            && NanoDay(cfg.zone, observedAt) == LocalDay(cfg.zone, at)
            && MsgLink(EnvOf(cfg), m) ==
               if found.Some? && IsMonday(cfg.zone, at) then
                 Some(Link(WeekDate(cfg.zone, at), found.value.username, m.hash))
               else None
  {
    FractionKeepsBucket(cfg.zone, observedAt);
  }

  /** What one handling does to each table, the link and the check-in being given. */
  ghost predicate Effect(db: DB, m: Msg, link: Option<Link>, checkin: CheckinRow, f: Faults, after: DB) {
    var isNew := !f.raw && !HasRaw(db, m.hash);
    var row := RawRow(db.nextRaw, m.hash, m.payload, m.iata, SecondOf(m.observedAt));
    && after.raw == db.raw + (if isNew then [row] else []) && after.nextRaw == db.nextRaw + (if isNew then 1 else 0)
    && after.obs == db.obs + (if f.raw || f.obs then {} else {Obs(m.hash, m.observer)})
    && after.links == db.links + (if isNew && link.Some? && !f.link then {link.value} else {})
    && after.checkins == db.checkins + if isNew && link.Some? && !f.checkin && !CheckinConflict(db, checkin)
                                       then [checkin.(id := db.nextCheckin)] else []
  }

  lemma ObservedEffect(db: DB, m: Msg, f: Faults)
    requires !f.raw
    ensures var after := Attempt(Attempt(db, RawStatement(m), false), ObsStatement(m), f.obs);
            Effect(db, m, None, CheckinRow(0, "", "", "", "", "", 0, 0, 0), f, after) && HasRaw(after, m.hash)
            && after.checkins == db.checkins && after.nextCheckin == db.nextCheckin
  {
    var stored := Attempt(db, RawStatement(m), false);
    assert !HasRaw(db, m.hash) ==> stored.raw[|db.raw|] in stored.raw;
  }

  lemma HandledEffect(env: Env, db: DB, m: Msg, f: Faults, clock: int)
    ensures var after, link := Handled(env, db, m, f, clock), MsgLink(env, m);
            (link.Some? ==> Effect(db, m, link, MsgCheckin(env, m, clock), f, after))
            && (link.None? ==> Effect(db, m, link, CheckinRow(0, "", "", "", "", "", 0, 0, 0), f, after))
  {
    if !f.raw {
      ObservedEffect(db, m, f);
      if !HasRaw(db, m.hash) && MsgLink(env, m).Some? {
        var observed := Attempt(Attempt(db, RawStatement(m), false), ObsStatement(m), f.obs);
        var linked := Attempt(observed, LinkStatement(env, m), f.link);
        assert f.link || linked.links == observed.links + {MsgLink(env, m).value};
      }
    }
  }

  lemma HandledMeaning(cfg: Config, db: DB, packetHex: string, iata: string, observer: string,
                       observedAt: int, f: Faults, clock: int)
    requires MeshCore.DecodeText(packetHex).Ok?
    ensures var m := MsgOf(cfg, packetHex, iata, observer, observedAt);
            var after := Handled(EnvOf(cfg), db, m, f, clock);
            HandledPlainly(cfg, db, packetHex, iata, observer, observedAt, f, clock, after)
  {
    var env, m := EnvOf(cfg), MsgOf(cfg, packetHex, iata, observer, observedAt);
    MsgLinkMeaning(cfg, packetHex, iata, observer, observedAt);
    HandledEffect(env, db, m, f, clock);
    EffectIsPlain(cfg, db, packetHex, iata, observer, observedAt, f, clock, Handled(env, db, m, f, clock));
  }

  lemma EffectIsPlain(cfg: Config, db: DB, packetHex: string, iata: string, observer: string,
                      observedAt: int, f: Faults, clock: int, after: DB)
    requires MeshCore.DecodeText(packetHex).Ok?
    requires var m, at := MsgOf(cfg, packetHex, iata, observer, observedAt), SecondOf(observedAt);
             var found := Found(cfg, packetHex);
             var day, week := LocalDay(cfg.zone, at), WeekDate(cfg.zone, at);
             if found.Some? && IsMonday(cfg.zone, at) then
               var c := found.value;
               Effect(db, m, Some(Link(week, c.username, m.hash)),
                      CheckinRow(0, m.hash, c.username, c.displayName, c.message, iata, day, week, clock), f, after)
             else Effect(db, m, None, CheckinRow(0, "", "", "", "", "", 0, 0, 0), f, after)
    ensures HandledPlainly(cfg, db, packetHex, iata, observer, observedAt, f, clock, after)
  {
  }

  /** The stored row yields the link: its payload decodes and holds a check-in of that user, and it was
      observed on a local Monday, of that week. */
  ghost predicate Yields(cfg: Config, r: RawRow, l: Link) {
    && MeshCore.DecodeText(r.payload).Ok? && Found(cfg, r.payload).Some?
    && IsMonday(cfg.zone, r.observedAt)
    && l == Link(WeekDate(cfg.zone, r.observedAt), Found(cfg, r.payload).value.username, r.hash)
  }

  lemma RowLinkMeaning(cfg: Config, r: RawRow, l: Link)
    ensures RowLink(EnvOf(cfg), r) == Some(l) <==> Yields(cfg, r, l)
  {
  }

  /** The derived links are those that stored rows yield. */
  lemma DerivedMeaning(cfg: Config, db: DB, l: Link)
    ensures l in DerivedLinks(EnvOf(cfg), db) <==> exists r :: r in db.raw && Yields(cfg, r, l)
  {
    forall r ensures RowLink(EnvOf(cfg), r) == Some(l) <==> Yields(cfg, r, l) {
      RowLinkMeaning(cfg, r, l);
    }
  }

  // ----- Restoring, row by row -----

  datatype RestoreResult = RestoreResult(
    rawScanned: nat, decoded: nat, checkinsFound: nat, mondayCheckins: nat,
    linksInserted: nat, decodeErrors: nat, insertLinkErrors: nat)

  const NONE_YET := RestoreResult(0, 0, 0, 0, 0, 0, 0)

  lemma TakeNext<T>(s: seq<T>, i: nat)
    requires i < |s|
    ensures s[..i + 1] == s[..i] + [s[i]]
  {
  }

  /** Where the callback for one row left off. */
  datatype RowOutcome = BadPacket | NoCandidate | NotMonday | LinkTried(insert: Outcome)

  function Tally(t: RestoreResult, o: RowOutcome): RestoreResult {
    RestoreResult(
      t.rawScanned + 1,
      t.decoded + if o.BadPacket? then 0 else 1,
      t.checkinsFound + if o.NotMonday? || o.LinkTried? then 1 else 0,
      t.mondayCheckins + if o.LinkTried? then 1 else 0,
      t.linksInserted + if o == LinkTried(Inserted) then 1 else 0,
      t.decodeErrors + if o.BadPacket? then 1 else 0,
      t.insertLinkErrors + if o.LinkTried? && o.insert.Failed? then 1 else 0)
  }

  /** The counters fit together. */
  predicate Coherent(t: RestoreResult) {
    && t.rawScanned == t.decoded + t.decodeErrors
    && t.linksInserted + t.insertLinkErrors <= t.mondayCheckins <= t.checkinsFound <= t.decoded
  }

  /** Only links of these rows have been added. */
  ghost predicate OnlyDerived(env: Env, db: DB, rows: seq<RawRow>, links: set<Link>) {
    db.links <= links && forall l | l in links :: l in db.links || exists r :: r in rows && RowLink(env, r) == Some(l)
  }

  /** All links of these rows are there. */
  ghost predicate AllDerived(env: Env, rows: seq<RawRow>, links: set<Link>) {
    forall r | r in rows && RowLink(env, r).Some? :: RowLink(env, r).value in links
  }

  ghost predicate RestoredSome(env: Env, db: DB, rows: seq<RawRow>, links: set<Link>, t: RestoreResult) {
    && OnlyDerived(env, db, rows, links)
    && (t.insertLinkErrors == 0 ==> AllDerived(env, rows, links))
    && t.linksInserted == |links| - |db.links|
    && t.rawScanned == |rows|
  }

  lemma NothingRestored(env: Env, db: DB, rows: seq<RawRow>)
    ensures RestoredSome(env, db, rows[..0], db.links, NONE_YET)
  {
  }

  lemma LinksStep(env: Env, db: DB, rows: seq<RawRow>, row: RawRow, links: set<Link>)
    requires OnlyDerived(env, db, rows, links)
    ensures var l := RowLink(env, row);
            && OnlyDerived(env, db, rows + [row], links)
            && (l.Some? ==> OnlyDerived(env, db, rows + [row], links + {l.value}))
            && (AllDerived(env, rows, links) ==>
                  AllDerived(env, rows + [row], links + if l.Some? then {l.value} else {}))
  {
    AppendedRow(rows, row);
  }

  /** The outcome of inserting a link whose packet is stored. */
  predicate LinkAdded(before: set<Link>, l: Link, after: set<Link>, o: Outcome) {
    && after == (if o.Failed? then before else before + {l})
    && (o.Inserted? ==> l !in before)
    && (o.Ignored? ==> l in before)
  }

  lemma LinkInserted(before: DB, after: DB, l: Link, o: Outcome)
    requires Executed(before, InsLink(l), after, o)
    ensures LinkAdded(before.links, l, after.links, o)
  {
    if l in before.links {
      assert before.links + {l} == before.links;
    }
  }

  lemma LinkCount(before: set<Link>, l: Link, after: set<Link>, o: Outcome)
    requires LinkAdded(before, l, after, o)
    ensures |after| == |before| + if o.Inserted? then 1 else 0
    ensures after == before || after == before + {l}
    ensures !o.Failed? ==> after == before + {l}
  {
    if o.Ignored? {
      assert before + {l} == before;
    }
  }

  lemma RestoreStep(env: Env, db: DB, rows: seq<RawRow>, row: RawRow, before: set<Link>, after: set<Link>,
                    t: RestoreResult, o: RowOutcome)
    requires RestoredSome(env, db, rows, before, t)
    requires RowLink(env, row).None? ==> !o.LinkTried? && after == before
    requires RowLink(env, row).Some? ==> o.LinkTried? && LinkAdded(before, RowLink(env, row).value, after, o.insert)
    ensures RestoredSome(env, db, rows + [row], after, Tally(t, o))
  {
    LinksStep(env, db, rows, row, before);
    if RowLink(env, row).Some? {
      LinkCount(before, RowLink(env, row).value, after, o.insert);
    } else {
      assert before + {} == before;
    }
  }

  // ----- The counters, by what each row holds -----

  predicate Decodes(cfg: Config, r: RawRow) {
    MeshCore.DecodeText(r.payload).Ok?
  }

  predicate HoldsCheckin(cfg: Config, r: RawRow) {
    Decodes(cfg, r) && Found(cfg, r.payload).Some?
  }

  predicate HoldsMondayCheckin(cfg: Config, r: RawRow) {
    HoldsCheckin(cfg, r) && IsMonday(cfg.zone, r.observedAt)
  }

  /** The places of the rows of a kind. */
  function Places(rows: seq<RawRow>, kind: RawRow -> bool): set<int> {
    set i | 0 <= i < |rows| && kind(rows[i])
  }

  lemma PlacesNext(rows: seq<RawRow>, row: RawRow, kind: RawRow -> bool)
    ensures |Places(rows + [row], kind)| == |Places(rows, kind)| + if kind(row) then 1 else 0
  {
    var more := if kind(row) then {|rows|} else {};
    assert Places(rows + [row], kind) == Places(rows, kind) + more;
  }

  function Decoding(cfg: Config): RawRow -> bool {
    r => Decodes(cfg, r)
  }

  function Holding(cfg: Config): RawRow -> bool {
    r => HoldsCheckin(cfg, r)
  }

  function HoldingOnMonday(cfg: Config): RawRow -> bool {
    r => HoldsMondayCheckin(cfg, r)
  }

  /** So many rows decode or not, hold a check-in, and hold one made on a Monday. */
  ghost predicate Counted(cfg: Config, rows: seq<RawRow>, t: RestoreResult) {
    && t.decoded == |Places(rows, Decoding(cfg))| == |rows| - t.decodeErrors
    && t.checkinsFound == |Places(rows, Holding(cfg))|
    && t.mondayCheckins == |Places(rows, HoldingOnMonday(cfg))|
  }

  lemma RowLinkCases(cfg: Config, r: RawRow)
    ensures RowLink(EnvOf(cfg), r) ==
            if HoldsMondayCheckin(cfg, r)
            then Some(Link(WeekDate(cfg.zone, r.observedAt), Found(cfg, r.payload).value.username, r.hash))
            else None
  {
  }

  /** What the outcome of a row says of it. */
  ghost predicate Tells(cfg: Config, row: RawRow, o: RowOutcome) {
    && (o.BadPacket? <==> !Decodes(cfg, row))
    && (o.NotMonday? || o.LinkTried? <==> HoldsCheckin(cfg, row))
    && (o.LinkTried? <==> HoldsMondayCheckin(cfg, row))
  }

  lemma CountNext(cfg: Config, rows: seq<RawRow>, row: RawRow, t: RestoreResult, o: RowOutcome)
    requires Counted(cfg, rows, t) && Tells(cfg, row, o)
    ensures Counted(cfg, rows + [row], Tally(t, o))
  {
    PlacesNext(rows, row, Decoding(cfg));
    PlacesNext(rows, row, Holding(cfg));
    PlacesNext(rows, row, HoldingOnMonday(cfg));
  }

  lemma CountNone(cfg: Config, rows: seq<RawRow>)
    ensures Counted(cfg, rows[..0], NONE_YET)
  {
    assert forall kind :: Places(rows[..0], kind) == {};
  }

  predicate LinksTried(t: RestoreResult) {
    t.linksInserted + t.insertLinkErrors <= t.mondayCheckins
  }

  lemma CountedCoherent(cfg: Config, rows: seq<RawRow>, t: RestoreResult)
    requires Counted(cfg, rows, t) && LinksTried(t) && t.rawScanned == |rows|
    ensures Coherent(t)
  {
    SubsetSize(Places(rows, HoldingOnMonday(cfg)), Places(rows, Holding(cfg)));
    SubsetSize(Places(rows, Holding(cfg)), Places(rows, Decoding(cfg)));
  }

  /** What the loop knows after some rows. */
  ghost predicate Account(cfg: Config, db: DB, rows: seq<RawRow>, links: set<Link>, t: RestoreResult) {
    RestoredSome(EnvOf(cfg), db, rows, links, t) && Counted(cfg, rows, t) && LinksTried(t)
  }

  lemma AccountNone(cfg: Config, db: DB, rows: seq<RawRow>)
    ensures Account(cfg, db, rows[..0], db.links, NONE_YET)
  {
    NothingRestored(EnvOf(cfg), db, rows);
    CountNone(cfg, rows);
  }

  lemma AccountNext(cfg: Config, db: DB, rows: seq<RawRow>, i: nat, before: set<Link>, after: set<Link>,
                    t: RestoreResult, o: RowOutcome)
    requires i < |rows| && Account(cfg, db, rows[..i], before, t) && Tells(cfg, rows[i], o)
    requires RowLink(EnvOf(cfg), rows[i]).None? ==> !o.LinkTried? && after == before
    requires RowLink(EnvOf(cfg), rows[i]).Some? ==>
               o.LinkTried? && LinkAdded(before, RowLink(EnvOf(cfg), rows[i]).value, after, o.insert)
    ensures Account(cfg, db, rows[..i + 1], after, Tally(t, o))
  {
    RestoreStep(EnvOf(cfg), db, rows[..i], rows[i], before, after, t, o);
    CountNext(cfg, rows[..i], rows[i], t, o);
    TakeNext(rows, i);
  }

  /** Nothing is in the link table now but what was, and what stored rows yield; and that is there. */
  ghost predicate RestoredPlainly(cfg: Config, db: DB, links: set<Link>) {
    forall l :: l in links <==> l in db.links || exists r :: r in db.raw && Yields(cfg, r, l)
  }

  lemma RestoredMeaning(cfg: Config, db: DB)
    ensures RestoredPlainly(cfg, db, Restored(EnvOf(cfg), db).links)
  {
    forall l ensures l in DerivedLinks(EnvOf(cfg), db) <==> exists r :: r in db.raw && Yields(cfg, r, l) {
      DerivedMeaning(cfg, db, l);
    }
  }

  const BUSY_RETRY_ATTEMPTS := 15

  class Service {
    const cfg: Config
    const store: SQLiteStore

    constructor (cfg: Config, store: SQLiteStore)
      ensures this.cfg == cfg && this.store == store
    {
      this.cfg := cfg;
      this.store := store;
    }

    /** withBusyRetry around one statement: however often it is tried, it takes effect once or
        not at all. It is tried again while the database is busy, sixteen times in all. */
    method WithBusyRetry(ctx: Context, st: Statement) returns (o: Outcome)
      modifies store, ctx
      ensures Executed(old(store.View()), st, store.View(), o)
      ensures Grown(old(store.trouble), store.trouble) && store.trouble.busy <= old(store.trouble.busy) + 16
      ensures old(ctx.expired) ==> ctx.expired
      ensures o.Failed? ==> Excused(old(store.trouble), store.trouble, ctx.expired, 16)
    {
      o := Failed(true);
      for attempt := 0 to BUSY_RETRY_ATTEMPTS + 1
        invariant o.Failed? && store.View() == old(store.View())
        invariant old(ctx.expired) ==> ctx.expired
        invariant store.trouble == Trouble(old(store.trouble.busy) + attempt, old(store.trouble.other))
      {
        o := store.Exec(st);
        if !o.Failed? || !o.busy || attempt == BUSY_RETRY_ATTEMPTS {
          return;
        }
        var done := ctx.Done();
        if done {
          return;
        }
      }
    }

    /** HandleMessage from the decoded envelope on. `f` says which inserts gave up: none does unless a
        statement fails. */
    method HandleMessage(ctx: Context, packetHex: string, iata: string, observer: string, observedAt: int, clock: int)
      returns (ghost f: Faults)
      modifies store, ctx
      ensures f != NO_FAULTS ==> Excused(old(store.trouble), store.trouble, ctx.expired, 16)
      ensures MeshCore.DecodeText(packetHex).Err? ==> store.View() == old(store.View())
      ensures MeshCore.DecodeText(packetHex).Ok? ==>
                && HandledPlainly(cfg, old(store.View()), packetHex, iata, observer, observedAt, f, clock, store.View())
                && var m := MsgOf(cfg, packetHex, iata, observer, observedAt);
                   store.View() == Handled(EnvOf(cfg), old(store.View()), m, f, clock)
    {
      f := NO_FAULTS;
      var decoded := MeshCore.DecodePacket(packetHex);
      if decoded.Ok? {
        ghost var db := store.View();
        f := HandlePacket(ctx, decoded.value, packetHex, iata, observer, observedAt, clock);
        HandledMeaning(cfg, db, packetHex, iata, observer, observedAt, f, clock);
      }
    }

    /** The four inserts. */
    method HandlePacket(ctx: Context, packet: MeshCore.Packet, packetHex: string, iata: string, observer: string,
                        observedAt: int, clock: int)
      returns (ghost f: Faults)
      requires MeshCore.DecodeText(packetHex) == Ok(packet)
      modifies store, ctx
      ensures f != NO_FAULTS ==> Excused(old(store.trouble), store.trouble, ctx.expired, 16)
      ensures var m := MsgOf(cfg, packetHex, iata, observer, observedAt);
              store.View() == Handled(EnvOf(cfg), old(store.View()), m, f, clock)
    {
      f := NO_FAULTS;
      var m := MsgOf(cfg, packetHex, iata, observer, observedAt);
      ghost var env := EnvOf(cfg);

      var raw;
      ghost var noObs;
      raw, noObs := Observe(ctx, m);
      f := f.(raw := raw.Failed?, obs := noObs);
      if raw != Inserted {
        return;
      }
      var candidate := ExtractFromPacket(cfg.lib, packet.payloadType, packet.payloadHex, cfg.keys);
      if candidate.None? || !IsMondayDay(NanoDay(cfg.zone, observedAt)) {
        assert MsgLink(env, m).None?;
        return;
      }
      ghost var noLink, noCheckin;
      noLink, noCheckin := CheckIn(ctx, m, candidate.value, clock);
      f := f.(link := noLink, checkin := noCheckin);
    }

    /** The raw packet and its observer. */
    method Observe(ctx: Context, m: Msg) returns (raw: Outcome, ghost noObs: bool)
      modifies store, ctx
      ensures Grown(old(store.trouble), store.trouble) && (old(ctx.expired) ==> ctx.expired)
      ensures raw.Failed? || noObs ==> Excused(old(store.trouble), store.trouble, ctx.expired, 16)
      ensures raw.Failed? ==> !noObs && store.View() == old(store.View())
      ensures !raw.Failed? ==> (raw == Inserted <==> !HasRaw(old(store.View()), m.hash))
      ensures !raw.Failed? ==>
                store.View() == Attempt(Attempt(old(store.View()), RawStatement(m), false), ObsStatement(m), noObs)
    {
      noObs := false;
      raw := WithBusyRetry(ctx, InsRaw(m.hash, m.payload, m.iata, SecondOf(m.observedAt)));
      if !raw.Failed? {
        assert store.View() == Attempt(old(store.View()), RawStatement(m), false);
        var obs := WithBusyRetry(ctx, InsObs(Obs(m.hash, m.observer)));
        noObs := obs.Failed?;
      }
    }

    /** The link and the check-in. */
    method CheckIn(ctx: Context, m: Msg, c: Candidate, clock: int) returns (ghost noLink: bool, ghost noCheckin: bool)
      requires EnvOf(cfg).candidate(m.payload) == Some(c) && IsMondayDay(NanoDay(cfg.zone, m.observedAt))
      modifies store, ctx
      ensures Grown(old(store.trouble), store.trouble) && (old(ctx.expired) ==> ctx.expired)
      ensures noLink || noCheckin ==> Excused(old(store.trouble), store.trouble, ctx.expired, 16)
      ensures store.View() == Attempt(Attempt(old(store.View()), LinkStatement(EnvOf(cfg), m), noLink),
                                      CheckinStatement(EnvOf(cfg), m, clock), noCheckin)
    {
      var week := LocalDay(cfg.zone, NanoWeekStart(cfg.zone, m.observedAt));
      var date := NanoDay(cfg.zone, m.observedAt);
      assert MsgLink(EnvOf(cfg), m) == Some(Link(week, c.username, m.hash));
      var link := WithBusyRetry(ctx, InsLink(Link(week, c.username, m.hash)));
      ghost var linked := store.View();
      assert linked == Attempt(old(store.View()), LinkStatement(EnvOf(cfg), m), link.Failed?);
      var row := CheckinRow(0, m.hash, c.username, c.displayName, c.message, m.iata, date, week, clock);
      assert row == MsgCheckin(EnvOf(cfg), m, clock);
      var checkin := WithBusyRetry(ctx, InsCheckin(row));
      noLink, noCheckin := link.Failed?, checkin.Failed?;
    }

    /** RestoreCheckinPacketsFromRaw; `rows` is what its query returns, in whatever order. When
        nothing fails the link table gains exactly the derived links; a failed insert loses its
        link and no more. No other table changes. */
    method RestoreCheckinPacketsFromRaw(rows: seq<RawRow>) returns (result: RestoreResult, err: bool)
      requires multiset(rows) == multiset(store.raw)
      modifies store
      ensures store.View() == old(store.View()).(links := store.links)
      ensures old(store.links) <= store.links <= Restored(EnvOf(cfg), old(store.View())).links
      ensures !err && result.insertLinkErrors == 0 ==> store.View() == Restored(EnvOf(cfg), old(store.View()))
      ensures !err && result.insertLinkErrors == 0 ==> RestoredPlainly(cfg, old(store.View()), store.links)
      ensures !err ==> Counted(cfg, rows, result)
      ensures store.trouble == old(store.trouble) ==> !err && result.insertLinkErrors == 0
      ensures result.linksInserted == |store.links| - |old(store.links)|
      ensures Coherent(result)
    {
      ghost var env, db := EnvOf(cfg), store.View();
      ghost var done;
      result, err, done := ForEachRow(rows);
      CountedCoherent(cfg, rows[..done], result);
      RestoredMeaning(cfg, db);
      assert rows[..|rows|] == rows;
      RestoredAtMost(env, db, rows, rows[..done], store.links, result);
    }

    /** The loop of ForEachRawPacketForRestore, which an error may end after any number of rows. */
    method ForEachRow(rows: seq<RawRow>) returns (result: RestoreResult, err: bool, ghost done: nat)
      modifies store
      ensures store.View() == old(store.View()).(links := store.links)
      ensures done <= |rows| && (!err ==> done == |rows|)
      ensures Account(cfg, old(store.View()), rows[..done], store.links, result)
      ensures Grown(old(store.trouble), store.trouble)
      ensures err || result.insertLinkErrors > 0 ==> store.trouble != old(store.trouble)
    {
      ghost var db := store.View();
      result, err, done := NONE_YET, false, 0;
      AccountNone(cfg, db, rows);
      for i := 0 to |rows|
        invariant done == i
        invariant store.View() == db.(links := store.links)
        invariant Account(cfg, db, rows[..i], store.links, result)
        invariant Grown(old(store.trouble), store.trouble)
        invariant result.insertLinkErrors > 0 ==> store.trouble != old(store.trouble)
      {
        err := store.Query();
        if err {
          return;
        }
        ghost var before := store.links;
        var o := RestoreRow(rows[i]);
        AccountNext(cfg, db, rows, i, before, store.links, result, o);
        result := Tally(result, o);
        done := i + 1;
      }
    }

    /** The callback run for each row. */
    method RestoreRow(row: RawRow) returns (o: RowOutcome)
      modifies store
      ensures store.View() == old(store.View()).(links := store.links)
      ensures Tells(cfg, row, o)
      ensures Grown(old(store.trouble), store.trouble)
      ensures o.LinkTried? && o.insert.Failed? ==> store.trouble != old(store.trouble)
      ensures RowLink(EnvOf(cfg), row).None? ==> !o.LinkTried? && store.links == old(store.links)
      ensures RowLink(EnvOf(cfg), row).Some? ==>
                o.LinkTried? && LinkAdded(old(store.links), RowLink(EnvOf(cfg), row).value, store.links, o.insert)
    {
      RowLinkCases(cfg, row);
      var decoded := MeshCore.DecodePacket(row.payload);
      if decoded.Err? {
        return BadPacket;
      }
      var packet := decoded.value;
      var candidate := ExtractFromPacket(cfg.lib, packet.payloadType, packet.payloadHex, cfg.keys);
      if candidate.None? {
        return NoCandidate;
      }
      if !IsMonday(cfg.zone, row.observedAt) {
        return NotMonday;
      }
      var week := WeekDate(cfg.zone, row.observedAt);
      var insert := InsertLink(Link(week, candidate.value.username, row.hash));
      return LinkTried(insert);
    }

    /** The statement it ends with, tried once. */
    method InsertLink(l: Link) returns (o: Outcome)
      modifies store
      ensures store.View() == old(store.View()).(links := store.links)
      ensures store.trouble == Noted(old(store.trouble), o)
      ensures LinkAdded(old(store.links), l, store.links, o)
    {
      o := store.InsertCheckinPacket(l.week, l.username, l.hash);
      LinkInserted(old(store.View()), store.View(), l, o);
    }
  }

  lemma RestoredAtMost(env: Env, db: DB, rows: seq<RawRow>, some: seq<RawRow>, links: set<Link>, t: RestoreResult)
    requires RestoredSome(env, db, some, links, t) && some <= rows
    requires multiset(rows) == multiset(db.raw)
    ensures links <= Restored(env, db).links
    ensures some == rows && t.insertLinkErrors == 0 ==> links == Restored(env, db).links
  {
    forall l | l in links ensures l in Restored(env, db).links {
      if l !in db.links {
        var r :| r in some && RowLink(env, r) == Some(l);
        assert r in rows;
        assert r in multiset(db.raw);
      }
    }
    if some == rows && t.insertLinkErrors == 0 {
      forall l | l in DerivedLinks(env, db) ensures l in links {
        var r :| r in db.raw && RowLink(env, r) == Some(l);
        assert r in multiset(rows);
      }
    }
  }
}
