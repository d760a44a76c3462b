/** Migrate of internal/storage/sqlite.go: the clean-up before the one-per-week index, and the
    backfill of the link table. */
module Migration {
  import opened Store

  predicate SameWeekUser(c: CheckinRow, d: CheckinRow) {
    c.week == d.week && c.username == d.username
  }

  /** id IN (SELECT MIN(id) ... GROUP BY week_start, username). */
  predicate FirstOfGroup(checkins: seq<CheckinRow>, c: CheckinRow) {
    forall d | d in checkins && SameWeekUser(c, d) :: c.id <= d.id
  }

  function LinkOf(c: CheckinRow): Link {
    Link(c.week, c.username, c.hash)
  }

  function FirstCheckins(checkins: seq<CheckinRow>): seq<CheckinRow> {
    Filter((c: CheckinRow) => FirstOfGroup(checkins, c), checkins)
  }

  /** After the DELETE of duplicates. */
  function Cleaned(db: DB): DB {
    db.(checkins := FirstCheckins(db.checkins))
  }

  /** After the backfill as well. */
  function Migrated(db: DB): DB {
    var kept := FirstCheckins(db.checkins);
    db.(checkins := kept, links := db.links + set c | c in kept :: LinkOf(c))
  }

  /** Each (week, username) has kept exactly its check-in of least id, so the index can be created;
      every survivor has a link, and no other link came or went; keys and references hold; raw
      packets and observations are as they were. */
  ghost predicate IndexEstablished(db: DB, after: DB) {
    && Consistent(after)
    && after.raw == db.raw && after.obs == db.obs
    && (forall c :: c in after.checkins <==>
                    c in db.checkins
                    && forall d | d in db.checkins && d.week == c.week && d.username == c.username :: c.id <= d.id)
    && (forall c | c in db.checkins ::
          exists d :: d in after.checkins && d.week == c.week && d.username == c.username)
    && (forall l :: l in after.links <==>
                    l in db.links || exists c :: c in after.checkins && l == Link(c.week, c.username, c.hash))
  }

  /** The script's two data statements, either of which may fail; creating tables and indexes
      changes no row. A start that stopped in between is made good by the next: see MigrateResumes. */
  method Migrate(store: SQLiteStore) returns (err: bool)
    modifies store`checkins, store`links, store`trouble
    ensures err ==> store.trouble.other > old(store.trouble.other)
    ensures err ==> store.View() == old(store.View()) || store.View() == Cleaned(old(store.View()))
    ensures !err ==> store.View() == Migrated(old(store.View()))
    ensures !err && LegacyConsistent(old(store.View())) ==> IndexEstablished(old(store.View()), store.View())
  {
    ghost var db := store.View();
    err := store.Query();
    if err {
      return;
    }
    store.checkins := FirstCheckins(store.checkins);
    err := store.Query();
    if err {
      return;
    }
    store.links := store.links + set c | c in store.checkins :: LinkOf(c);
    MigrateOutcome(db);
  }

  lemma {:induction false} GroupHasFirst(checkins: seq<CheckinRow>, c: CheckinRow) returns (first: CheckinRow)
    requires c in checkins
    ensures first in checkins && SameWeekUser(c, first) && FirstOfGroup(checkins, first)
  {
    var rest := checkins[1..];
    assert checkins == [checkins[0]] + rest;
    if exists d :: d in rest && SameWeekUser(c, d) {
      var d :| d in rest && SameWeekUser(c, d);
      var least := GroupHasFirst(rest, d);
      first := if SameWeekUser(c, checkins[0]) && checkins[0].id < least.id then checkins[0] else least;
    } else {
      first := c;
    }
  }

  lemma MigrateOnePerWeek(db: DB)
    requires LegacyConsistent(db)
    ensures OnePerWeek(Migrated(db).checkins)
  {
    var after := Migrated(db);
    forall c, d | c in after.checkins && d in after.checkins && c.week == d.week && c.username == d.username
      ensures c == d
    {
      assert SameWeekUser(c, d) && SameWeekUser(d, c);
      SameIdSameCheckin(db.checkins, c, d);
    }
  }

  lemma MigrateLegacyConsistent(db: DB)
    requires LegacyConsistent(db)
    ensures LegacyConsistent(Migrated(db))
  {
    var after := Migrated(db);
    FilterCheckinsInOrder((c: CheckinRow) => FirstOfGroup(db.checkins, c), db.checkins);
    assert forall h :: HasRaw(after, h) == HasRaw(db, h);
    assert CheckinKeys(after);
    forall l | l in after.links ensures HasRaw(db, l.hash) {
      if l !in db.links {
        var c :| c in after.checkins && LinkOf(c) == l;
        assert c in db.checkins;
      }
    }
  }

  /** From any database of the older schema, the index can be created and every check-in is linked. */
  lemma MigrateEstablishesIndex(db: DB)
    requires LegacyConsistent(db)
    ensures IndexEstablished(db, Migrated(db))
  {
    var after := Migrated(db);
    MigrateOnePerWeek(db);
    MigrateLegacyConsistent(db);
    forall c | c in db.checkins
      ensures exists d :: d in after.checkins && d.week == c.week && d.username == c.username
    {
      var first := GroupHasFirst(db.checkins, c);
      assert first in after.checkins;
    }
    forall c | c in db.checkins
      ensures FirstOfGroup(db.checkins, c) <==>
              forall d | d in db.checkins && d.week == c.week && d.username == c.username :: c.id <= d.id
    {
      assert forall d | d in db.checkins && d.week == c.week && d.username == c.username :: SameWeekUser(c, d);
    }
  }

  lemma MigrateOutcome(db: DB)
    ensures LegacyConsistent(db) ==> IndexEstablished(db, Migrated(db))
  {
    if LegacyConsistent(db) {
      MigrateEstablishesIndex(db);
    }
  }

  /** Starting again after only the DELETE went through leads to the same tables. */
  lemma MigrateResumes(db: DB)
    ensures Migrated(Cleaned(db)) == Migrated(db)
    ensures LegacyConsistent(db) ==> LegacyConsistent(Cleaned(db))
  {
    var kept := FirstCheckins(db.checkins);
    FilterAll((c: CheckinRow) => FirstOfGroup(kept, c), kept);
    if LegacyConsistent(db) {
      FilterCheckinsInOrder((c: CheckinRow) => FirstOfGroup(db.checkins, c), db.checkins);
      assert forall h :: HasRaw(Cleaned(db), h) == HasRaw(db, h);
    }
  }

  lemma SameIdSameCheckin(checkins: seq<CheckinRow>, c: CheckinRow, d: CheckinRow)
    requires CheckinsInOrder(checkins) && c in checkins && d in checkins && c.id == d.id
    ensures c == d
  {
  }

  lemma MigrateKeepsUnique(db: DB)
    requires OnePerWeek(db.checkins)
    ensures Migrated(db).checkins == db.checkins
  {
    FilterAll((c: CheckinRow) => FirstOfGroup(db.checkins, c), db.checkins);
  }

  lemma MigrateIdempotent(db: DB)
    requires LegacyConsistent(db)
    ensures Migrated(Migrated(db)) == Migrated(db)
  {
    var after := Migrated(db);
    MigrateEstablishesIndex(db);
    MigrateKeepsUnique(after);
    assert Migrated(after).links == after.links;
  }
}
