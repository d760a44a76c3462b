/** The tables of internal/storage/sqlite.go and the statements that change them.

Only the columns that some query reads are kept. Days are day numbers: module IsoDates shows
that the date texts compare as day numbers do. A statement is atomic, foreign keys are on. */
module Store {
  type Hash = string

  datatype RawRow = RawRow(id: int, hash: Hash, payload: string, iata: string, observedAt: int)

  datatype Obs = Obs(hash: Hash, observer: string)

  datatype Link = Link(week: int, username: string, hash: Hash)

  datatype CheckinRow = CheckinRow(
    id: int,
    hash: Hash,
    username: string,
    displayName: string,
    message: string,
    iata: string,
    date: int,
    week: int,
    createdAt: int)

  /** raw and checkins are in id order; the counters are what AUTOINCREMENT hands out next. */
  datatype DB = DB(
    raw: seq<RawRow>,
    nextRaw: int,
    obs: set<Obs>,
    links: set<Link>,
    checkins: seq<CheckinRow>,
    nextCheckin: int)

  const EMPTY := DB([], 1, {}, {}, [], 1)

  function Filter<T(!new)>(keep: T -> bool, s: seq<T>): (r: seq<T>)
    ensures |r| <= |s|
    ensures forall x :: x in r <==> x in s && keep(x)
  {
    if s == [] then []
    else
      assert s == [s[0]] + s[1..];
      (if keep(s[0]) then [s[0]] else []) + Filter(keep, s[1..])
  }

  lemma {:induction false} FilterAgree<T(!new)>(p: T -> bool, q: T -> bool, s: seq<T>)
    requires forall x | x in s :: p(x) == q(x)
    ensures Filter(p, s) == Filter(q, s)
  {
    if s != [] {
      FilterAgree(p, q, s[1..]);
    }
  }

  lemma {:induction false} FilterFilter<T(!new)>(p: T -> bool, q: T -> bool, r: T -> bool, s: seq<T>)
    requires forall x | x in s :: r(x) == (p(x) && q(x))
    ensures Filter(q, Filter(p, s)) == Filter(r, s)
  {
    if s != [] {
      FilterFilter(p, q, r, s[1..]);
      var t := Filter(p, s[1..]);
      if p(s[0]) {
        assert Filter(p, s) == [s[0]] + t;
        assert ([s[0]] + t)[1..] == t;
      } else {
        assert Filter(p, s) == t;
      }
    }
  }

  lemma {:induction false} FilterAll<T(!new)>(p: T -> bool, s: seq<T>)
    requires forall x | x in s :: p(x)
    ensures Filter(p, s) == s
  {
    if s != [] {
      FilterAll(p, s[1..]);
    }
  }

  lemma {:induction false} FilterShorter<T(!new)>(p: T -> bool, q: T -> bool, s: seq<T>, x: T)
    requires forall y | y in s :: q(y) ==> p(y)
    requires x in s && p(x) && !q(x)
    ensures |Filter(q, s)| < |Filter(p, s)|
  {
    FilterNotLonger(p, q, s[1..]);
    if s[0] != x {
      FilterShorter(p, q, s[1..], x);
    }
  }

  lemma {:induction false} FilterNotLonger<T(!new)>(p: T -> bool, q: T -> bool, s: seq<T>)
    requires forall y | y in s :: q(y) ==> p(y)
    ensures |Filter(q, s)| <= |Filter(p, s)|
  {
    if s != [] {
      FilterNotLonger(p, q, s[1..]);
    }
  }

  ghost predicate RawInOrder(rows: seq<RawRow>) {
    forall i, j :: 0 <= i < j < |rows| ==> rows[i].id < rows[j].id
  }

  lemma {:induction false} FilterRawInOrder(keep: RawRow -> bool, rows: seq<RawRow>)
    requires RawInOrder(rows)
    ensures RawInOrder(Filter(keep, rows))
  {
    if rows != [] {
      FilterRawInOrder(keep, rows[1..]);
      forall r | r in Filter(keep, rows[1..]) ensures rows[0].id < r.id {
        assert r in rows[1..];
      }
    }
  }

  ghost predicate CheckinsInOrder(rows: seq<CheckinRow>) {
    forall i, j :: 0 <= i < j < |rows| ==> rows[i].id < rows[j].id
  }

  lemma {:induction false} FilterCheckinsInOrder(keep: CheckinRow -> bool, rows: seq<CheckinRow>)
    requires CheckinsInOrder(rows)
    ensures CheckinsInOrder(Filter(keep, rows))
  {
    if rows != [] {
      FilterCheckinsInOrder(keep, rows[1..]);
      forall r | r in Filter(keep, rows[1..]) ensures rows[0].id < r.id {
        assert r in rows[1..];
      }
    }
  }

  lemma {:induction false} SubsetSize<T>(a: set<T>, b: set<T>)
    requires a <= b
    ensures |a| <= |b|
  {
    if a != {} {
      var x :| x in a;
      SubsetSize(a - {x}, b - {x});
    }
  }

  // ----- What the schema declares -----

  predicate HasRaw(db: DB, hash: Hash) {
    exists r | r in db.raw :: r.hash == hash
  }

  /** AUTOINCREMENT ids below the counter, and UNIQUE(packet_hash). */
  ghost predicate RawKeys(db: DB) {
    && RawInOrder(db.raw)
    && 0 < db.nextRaw
    && (forall r | r in db.raw :: 0 < r.id < db.nextRaw)
    && (forall r, q | r in db.raw && q in db.raw :: r.hash == q.hash ==> r == q)
  }

  ghost predicate CheckinKeys(db: DB) {
    && CheckinsInOrder(db.checkins)
    && (forall c | c in db.checkins :: c.id < db.nextCheckin)
    && (forall c, d | c in db.checkins && d in db.checkins :: c.hash == d.hash ==> c == d)
  }

  /** idx_checkins_week_username_unique. */
  ghost predicate OnePerWeek(checkins: seq<CheckinRow>) {
    forall c, d | c in checkins && d in checkins :: c.week == d.week && c.username == d.username ==> c == d
  }

  ghost predicate ForeignKeys(db: DB) {
    && (forall o | o in db.obs :: HasRaw(db, o.hash))
    && (forall l | l in db.links :: HasRaw(db, l.hash))
    && (forall c | c in db.checkins :: HasRaw(db, c.hash))
  }

  /** A database of the schema before the check-in uniqueness index existed. */
  ghost predicate LegacyConsistent(db: DB) {
    RawKeys(db) && CheckinKeys(db) && ForeignKeys(db)
  }

  ghost predicate Consistent(db: DB) {
    LegacyConsistent(db) && OnePerWeek(db.checkins)
  }

  // ----- Statements -----

  datatype Statement =
    | InsRaw(hash: Hash, payload: string, iata: string, observedAt: int)
    | InsObs(obs: Obs)
    | InsLink(link: Link)
    | InsCheckin(checkin: CheckinRow)  // its id is ignored: the table assigns one

  /** Ignored is the (false, nil) of a uniqueness conflict. */
  datatype Outcome = Inserted | Ignored | Failed(busy: bool)

  predicate CheckinConflict(db: DB, c: CheckinRow) {
    exists d | d in db.checkins :: d.hash == c.hash || (d.week == c.week && d.username == c.username)
  }

  /** What a statement does when nothing but the schema stands in its way. A conflicting row is
      never inserted, so its foreign key is never looked at. */
  function Apply(db: DB, st: Statement): (DB, Outcome) {
    match st
    case InsRaw(hash, payload, iata, observedAt) =>
      if HasRaw(db, hash) then (db, Ignored)
      else
        var row := RawRow(db.nextRaw, hash, payload, iata, observedAt);
        (db.(raw := db.raw + [row], nextRaw := db.nextRaw + 1), Inserted)
    case InsObs(o) =>
      if o in db.obs then (db, Ignored)
      else if !HasRaw(db, o.hash) then (db, Failed(false))
      else (db.(obs := db.obs + {o}), Inserted)
    case InsLink(l) =>
      if l in db.links then (db, Ignored)
      else if !HasRaw(db, l.hash) then (db, Failed(false))
      else (db.(links := db.links + {l}), Inserted)
    case InsCheckin(c) =>
      if CheckinConflict(db, c) then (db, Ignored)
      else if !HasRaw(db, c.hash) then (db, Failed(false))
      else (db.(checkins := db.checkins + [c.(id := db.nextCheckin)], nextCheckin := db.nextCheckin + 1), Inserted)
  }

  /** DELETE FROM raw_packets WHERE id IN ids, with its ON DELETE CASCADE. */
  function DeleteRaw(db: DB, ids: set<int>): DB {
    var gone := GoneHashes(db, ids);
    db.(raw := Filter((r: RawRow) => r.id !in ids, db.raw),
        obs := (set o | o in db.obs && o.hash !in gone),
        links := (set l | l in db.links && l.hash !in gone),
        checkins := Filter((c: CheckinRow) => c.hash !in gone, db.checkins))
  }

  function GoneHashes(db: DB, ids: set<int>): set<Hash> {
    set r | r in db.raw && r.id in ids :: r.hash
  }

  // ----- What every statement keeps -----

  lemma AppendedRow<T>(s: seq<T>, x: T)
    ensures forall y :: y in s + [x] <==> y in s || y == x
  {
  }

  lemma AddRawConsistent(db: DB, row: RawRow)
    requires Consistent(db) && row.id == db.nextRaw && !HasRaw(db, row.hash)
    ensures Consistent(db.(raw := db.raw + [row], nextRaw := db.nextRaw + 1))
  {
  }

  lemma AddCheckinConsistent(db: DB, c: CheckinRow)
    requires Consistent(db) && c.id == db.nextCheckin && !CheckinConflict(db, c) && HasRaw(db, c.hash)
    ensures Consistent(db.(checkins := db.checkins + [c], nextCheckin := db.nextCheckin + 1))
  {
  }

  lemma InsRawConsistent(db: DB, hash: Hash, payload: string, iata: string, observedAt: int)
    requires Consistent(db)
    ensures Consistent(Apply(db, InsRaw(hash, payload, iata, observedAt)).0)
  {
    if !HasRaw(db, hash) {
      AddRawConsistent(db, RawRow(db.nextRaw, hash, payload, iata, observedAt));
    }
  }

  lemma InsObsConsistent(db: DB, o: Obs)
    requires Consistent(db)
    ensures Consistent(Apply(db, InsObs(o)).0)
  {
    assert forall obs, h :: HasRaw(db.(obs := obs), h) == HasRaw(db, h);
  }

  lemma InsLinkConsistent(db: DB, l: Link)
    requires Consistent(db)
    ensures Consistent(Apply(db, InsLink(l)).0)
  {
    assert forall links, h :: HasRaw(db.(links := links), h) == HasRaw(db, h);
  }

  lemma InsCheckinConsistent(db: DB, c: CheckinRow)
    requires Consistent(db)
    ensures Consistent(Apply(db, InsCheckin(c)).0)
  {
    if !CheckinConflict(db, c) && HasRaw(db, c.hash) {
      AddCheckinConsistent(db, c.(id := db.nextCheckin));
    }
  }

  /** No statement breaks a key, a uniqueness rule or a reference. */
  lemma ApplyConsistent(db: DB, st: Statement)
    requires Consistent(db)
    ensures Consistent(Apply(db, st).0)
  {
    match st
    case InsRaw(hash, payload, iata, observedAt) => InsRawConsistent(db, hash, payload, iata, observedAt);
    case InsObs(o) => InsObsConsistent(db, o);
    case InsLink(l) => InsLinkConsistent(db, l);
    case InsCheckin(c) => InsCheckinConsistent(db, c);
  }

  /** Statements only add: every row there was is still there. */
  lemma ApplyAdds(db: DB, st: Statement)
    ensures var after := Apply(db, st).0;
            && (forall r | r in db.raw :: r in after.raw)
            && db.obs <= after.obs && db.links <= after.links
            && (forall c | c in db.checkins :: c in after.checkins)
            && db.nextRaw <= after.nextRaw
  {
  }

  lemma DeleteConsistent(db: DB, ids: set<int>)
    requires Consistent(db)
    ensures Consistent(DeleteRaw(db, ids))
  {
    var after := DeleteRaw(db, ids);
    FilterRawInOrder((r: RawRow) => r.id !in ids, db.raw);
    FilterCheckinsInOrder((c: CheckinRow) => c.hash !in GoneHashes(db, ids), db.checkins);
    forall h | HasRaw(db, h) && h !in GoneHashes(db, ids) ensures HasRaw(after, h) {
      var r :| r in db.raw && r.hash == h;
      assert r in after.raw;
    }
  }

  lemma GoneTwice(db: DB, a: set<int>, b: set<int>)
    ensures GoneHashes(db, a + b) == GoneHashes(db, a) + GoneHashes(DeleteRaw(db, a), b)
  {
  }

  /** Deleting in two statements is deleting in one: chunking does not show. */
  lemma DeleteTwice(db: DB, a: set<int>, b: set<int>)
    ensures DeleteRaw(DeleteRaw(db, a), b) == DeleteRaw(db, a + b)
  {
    var mid, after := DeleteRaw(db, a), DeleteRaw(db, a + b);
    var first, second, both := GoneHashes(db, a), GoneHashes(mid, b), GoneHashes(db, a + b);
    GoneTwice(db, a, b);
    FilterFilter((r: RawRow) => r.id !in a, (r: RawRow) => r.id !in b, (r: RawRow) => r.id !in a + b, db.raw);
    FilterFilter((c: CheckinRow) => c.hash !in first, (c: CheckinRow) => c.hash !in second,
                 (c: CheckinRow) => c.hash !in both, db.checkins);
    assert DeleteRaw(mid, b).obs == after.obs;
    assert DeleteRaw(mid, b).links == after.links;
  }

  /** What a delete leaves in each table: the rows of other ids, and what refers to no deleted row. */
  lemma DeleteMeaning(db: DB, ids: set<int>)
    ensures var after := DeleteRaw(db, ids);
            && (forall r :: r in after.raw <==> r in db.raw && r.id !in ids)
            && (forall o :: o in after.obs <==>
                            o in db.obs && forall r | r in db.raw && r.id in ids :: r.hash != o.hash)
            && (forall l :: l in after.links <==>
                            l in db.links && forall r | r in db.raw && r.id in ids :: r.hash != l.hash)
            && (forall c :: c in after.checkins <==>
                            c in db.checkins && forall r | r in db.raw && r.id in ids :: r.hash != c.hash)
            && after.nextRaw == db.nextRaw && after.nextCheckin == db.nextCheckin
  {
  }

  lemma DeleteNothing(db: DB)
    ensures DeleteRaw(db, {}) == db
  {
    var none: set<int> := {};
    FilterAll((r: RawRow) => r.id !in none, db.raw);
    assert GoneHashes(db, none) == {};
    FilterAll((c: CheckinRow) => c.hash !in GoneHashes(db, none), db.checkins);
    var after := DeleteRaw(db, none);
    assert after.obs == db.obs && after.links == db.links;
  }

  /** Deleting rows whose hashes no link and no check-in mentions cascades to neither table. */
  lemma UnlinkedDeleteKeepsCheckins(db: DB, ids: set<int>)
    requires forall l | l in db.links :: l.hash !in GoneHashes(db, ids)
    requires forall c | c in db.checkins :: c.hash !in GoneHashes(db, ids)
    ensures DeleteRaw(db, ids).links == db.links
    ensures DeleteRaw(db, ids).checkins == db.checkins
  {
    FilterAll((c: CheckinRow) => c.hash !in GoneHashes(db, ids), db.checkins);
  }

  // ----- Failures -----

  /** How many statements have failed: those that found the database busy, and the others. */
  datatype Trouble = Trouble(busy: nat, other: nat)

  function Noted(t: Trouble, o: Outcome): Trouble {
    if !o.Failed? then t
    else if o.busy then t.(busy := t.busy + 1)
    else t.(other := t.other + 1)
  }

  predicate Grown(before: Trouble, after: Trouble) {
    before.busy <= after.busy && before.other <= after.other
  }

  /** What excuses giving up: an expired context, a statement that failed and not because the database
      was busy, or one tried so many times on a busy database. */
  predicate Excused(before: Trouble, after: Trouble, expired: bool, tries: nat) {
    expired || after.other > before.other || after.busy >= before.busy + tries
  }

  // ----- The store object -----

  class SQLiteStore {
    var raw: seq<RawRow>
    var nextRaw: int
    var obs: set<Obs>
    var links: set<Link>
    var checkins: seq<CheckinRow>
    var nextCheckin: int
    ghost var trouble: Trouble

    constructor ()
      ensures View() == EMPTY && trouble == Trouble(0, 0)
    {
      trouble := Trouble(0, 0);
      raw, nextRaw, obs, links, checkins, nextCheckin := [], 1, {}, {}, [], 1;
    }

    function View(): DB
      reads this
    {
      DB(raw, nextRaw, obs, links, checkins, nextCheckin)
    }

    method InsertRawPacket(hash: Hash, payload: string, iata: string, observedAt: int) returns (o: Outcome)
      modifies this`raw, this`nextRaw, this`trouble
      ensures Executed(old(View()), InsRaw(hash, payload, iata, observedAt), View(), o)
      ensures trouble == Noted(old(trouble), o)
    {
      o := Fault();
      if !o.Failed? {
        if exists r | r in raw :: r.hash == hash {
          o := Ignored;
        } else {
          raw := raw + [RawRow(nextRaw, hash, payload, iata, observedAt)];
          nextRaw := nextRaw + 1;
          o := Inserted;
        }
      }
      trouble := Noted(trouble, o);
    }

    method InsertPacketObservation(hash: Hash, observer: string) returns (o: Outcome)
      modifies this`obs, this`trouble
      ensures Executed(old(View()), InsObs(Obs(hash, observer)), View(), o)
      ensures trouble == Noted(old(trouble), o)
    {
      o := Fault();
      if !o.Failed? {
        if Obs(hash, observer) in obs {
          o := Ignored;
        } else if !HasRaw(View(), hash) {
          o := Failed(false);
        } else {
          obs := obs + {Obs(hash, observer)};
          o := Inserted;
        }
      }
      trouble := Noted(trouble, o);
    }

    method InsertCheckinPacket(week: int, username: string, hash: Hash) returns (o: Outcome)
      modifies this`links, this`trouble
      ensures Executed(old(View()), InsLink(Link(week, username, hash)), View(), o)
      ensures trouble == Noted(old(trouble), o)
    {
      o := Fault();
      if !o.Failed? {
        if Link(week, username, hash) in links {
          o := Ignored;
        } else if !HasRaw(View(), hash) {
          o := Failed(false);
        } else {
          links := links + {Link(week, username, hash)};
          o := Inserted;
        }
      }
      trouble := Noted(trouble, o);
    }

    method InsertCheckin(c: CheckinRow) returns (o: Outcome)
      modifies this`checkins, this`nextCheckin, this`trouble
      ensures Executed(old(View()), InsCheckin(c), View(), o)
      ensures trouble == Noted(old(trouble), o)
    {
      o := Fault();
      if !o.Failed? {
        if CheckinConflict(View(), c) {
          o := Ignored;
        } else if !HasRaw(View(), c.hash) {
          o := Failed(false);
        } else {
          checkins := checkins + [c.(id := nextCheckin)];
          nextCheckin := nextCheckin + 1;
          o := Inserted;
        }
      }
      trouble := Noted(trouble, o);
    }

    /** One DELETE statement, with the number of raw rows it removed. */
    method DeleteRawPackets(ids: set<int>) returns (n: nat, o: Outcome)
      modifies this
      ensures o.Failed? ==> View() == old(View()) && n == 0
      ensures !o.Failed? ==> View() == DeleteRaw(old(View()), ids) && n == |old(raw)| - |raw|
      ensures trouble == Noted(old(trouble), o)
    {
      o := Fault();
      n := 0;
      if !o.Failed? {
        var after := DeleteRaw(View(), ids);
        n := |raw| - |after.raw|;
        raw, obs, links, checkins := after.raw, after.obs, after.links, after.checkins;
      }
      trouble := Noted(trouble, o);
    }

    /** A query, or a statement whose effect its caller writes out: all there is to know is whether it
        fails. It is not tried again. */
    method Query() returns (failed: bool)
      modifies this`trouble
      ensures trouble == if failed then Noted(old(trouble), Failed(false)) else old(trouble)
    {
      var o := Fault();
      failed := o.Failed?;
      trouble := if failed then Noted(trouble, Failed(false)) else trouble;
    }

    /** The closure handed to withBusyRetry. */
    method Exec(st: Statement) returns (o: Outcome)
      modifies this
      ensures Executed(old(View()), st, View(), o)
      ensures trouble == Noted(old(trouble), o)
    {
      match st
      case InsRaw(hash, payload, iata, observedAt) => o := InsertRawPacket(hash, payload, iata, observedAt);
      case InsObs(obs) => o := InsertPacketObservation(obs.hash, obs.observer);
      case InsLink(l) => o := InsertCheckinPacket(l.week, l.username, l.hash);
      case InsCheckin(c) => o := InsertCheckin(c);
    }
  }

  /** A context.Context: it may expire between any two times it is asked, and then stays so. */
  class Context {
    var expired: bool

    constructor ()
      ensures !expired
    {
      expired := false;
    }

    method Done() returns (done: bool)
      modifies this
      ensures done == expired && (old(expired) ==> expired)
    {
      if !expired {
        expired := *;
      }
      done := expired;
    }
  }

  /** A statement either failed and changed nothing, or did what Apply says. */
  ghost predicate Executed(before: DB, st: Statement, after: DB, o: Outcome) {
    if o.Failed? then after == before else (after, o) == Apply(before, st)
  }

  /** Anything the engine may report instead of running the statement: busy, or worse. */
  method Fault() returns (o: Outcome) {
    var fails, busy := *, *;
    o := if fails then Failed(busy) else Inserted;
  }
}
