/** The observer badges: the joins of ListCheckinsByWeek and parseObserverNames, internal/storage/sqlite.go. */
module Badges {
  import opened Wrappers
  import opened Text
  import opened Sorting
  import opened Store
  import opened Ingest
  import opened Protocol
  import opened Invariant
  import opened Runs

  // ----- The query, row by row -----

  /** One row of the left operand with each of its matches, or with NULL when it has none. */
  function Matches<A(!new), B(!new)>(a: A, bs: seq<B>, on: (A, B) -> bool): seq<(A, Option<B>)> {
    var found := Filter((b: B) => on(a, b), bs);
    if found == [] then [(a, None)] else seq(|found|, i requires 0 <= i < |found| => (a, Some(found[i])))
  }

  /** LEFT JOIN. */
  function LeftJoin<A(!new), B(!new)>(rows: seq<A>, bs: seq<B>, on: (A, B) -> bool): seq<(A, Option<B>)> {
    if rows == [] then [] else Matches(rows[0], bs, on) + LeftJoin(rows[1..], bs, on)
  }

  lemma MatchesMembers<A(!new), B(!new)>(a: A, bs: seq<B>, on: (A, B) -> bool)
    ensures forall x, y :: (x, Some(y)) in Matches(a, bs, on) <==> x == a && y in bs && on(a, y)
    ensures forall x :: (x, None) in Matches(a, bs, on) <==> x == a && forall y | y in bs :: !on(a, y)
  {
    var found := Filter((b: B) => on(a, b), bs);
    var result := Matches(a, bs, on);
    forall y | y in bs && on(a, y) ensures (a, Some(y)) in result {
      assert y in found;
      var i :| 0 <= i < |found| && found[i] == y;
      assert result[i] == (a, Some(y));
    }
    assert found != [] ==> found[0] in found;
  }

  lemma {:induction false} LeftJoinMembers<A(!new), B(!new)>(rows: seq<A>, bs: seq<B>, on: (A, B) -> bool)
    ensures forall x, y :: (x, Some(y)) in LeftJoin(rows, bs, on) <==> x in rows && y in bs && on(x, y)
    ensures forall x :: (x, None) in LeftJoin(rows, bs, on) <==> x in rows && forall y | y in bs :: !on(x, y)
  {
    if rows != [] {
      LeftJoinMembers(rows[1..], bs, on);
      MatchesMembers(rows[0], bs, on);
      assert rows == [rows[0]] + rows[1..];
    }
  }

  type Joined = ((CheckinRow, Option<Link>), Option<Obs>)

  predicate OnWeekAndUser(c: CheckinRow, l: Link) {
    l.week == c.week && l.username == c.username
  }

  predicate OnHash(cl: (CheckinRow, Option<Link>), o: Obs) {
    cl.1.Some? && o.hash == cl.1.value.hash
  }

  function JoinRows(checkins: seq<CheckinRow>, links: seq<Link>, obs: seq<Obs>): seq<Joined> {
    LeftJoin(LeftJoin(checkins, links, OnWeekAndUser), obs, OnHash)
  }

  /** COUNT(DISTINCT po.observer_key) in the group of a check-in; NULLs do not count. */
  function DistinctObservers(rows: seq<Joined>, c: CheckinRow): set<string> {
    set row | row in rows && row.0.0 == c && row.1.Some? :: row.1.value.observer
  }

  /** The observers of any packet linked to the check-in's user and week. */
  function ObserversOf(db: DB, c: CheckinRow): set<string> {
    set o | o in db.obs && Link(c.week, c.username, o.hash) in db.links :: o.observer
  }

  ghost predicate Enumerates<T(!new)>(rows: seq<T>, table: set<T>) {
    forall x :: x in rows <==> x in table
  }

  lemma JoinedIff<A(!new), B(!new)>(rows: seq<A>, bs: seq<B>, on: (A, B) -> bool, x: A, y: B)
    ensures (x, Some(y)) in LeftJoin(rows, bs, on) <==> x in rows && y in bs && on(x, y)
  {
    LeftJoinMembers(rows, bs, on);
  }

  lemma JoinRowsMembers(checkins: seq<CheckinRow>, links: seq<Link>, obs: seq<Obs>,
                        c: CheckinRow, l: Option<Link>, o: Obs)
    ensures ((c, l), Some(o)) in JoinRows(checkins, links, obs) <==>
            c in checkins && o in obs && l == Some(Link(c.week, c.username, o.hash)) && l.value in links
  {
    JoinedIff(LeftJoin(checkins, links, OnWeekAndUser), obs, OnHash, (c, l), o);
    if l.Some? {
      JoinedIff(checkins, links, OnWeekAndUser, c, l.value);
    }
  }

  lemma CountedIsObserver(db: DB, links: seq<Link>, obs: seq<Obs>, c: CheckinRow, row: Joined)
    requires Enumerates(links, db.links) && Enumerates(obs, db.obs)
    requires row in JoinRows(db.checkins, links, obs) && row.0.0 == c && row.1.Some?
    ensures row.1.value.observer in ObserversOf(db, c)
  {
    assert row == ((c, row.0.1), Some(row.1.value));
    JoinRowsMembers(db.checkins, links, obs, c, row.0.1, row.1.value);
  }

  lemma ObserverIsCounted(db: DB, links: seq<Link>, obs: seq<Obs>, c: CheckinRow, o: Obs)
    requires Enumerates(links, db.links) && Enumerates(obs, db.obs) && c in db.checkins
    requires o in db.obs && Link(c.week, c.username, o.hash) in db.links
    ensures o.observer in DistinctObservers(JoinRows(db.checkins, links, obs), c)
  {
    var l := Some(Link(c.week, c.username, o.hash));
    JoinRowsMembers(db.checkins, links, obs, c, l, o);
    var row: Joined := ((c, l), Some(o));
    assert row in JoinRows(db.checkins, links, obs);
  }

  /** In whatever order the tables are read and however the joins fan out, the count of a check-in's
      group is the number of observers of its user's packets of the week. */
  lemma QueryCountsObservers(db: DB, links: seq<Link>, obs: seq<Obs>, c: CheckinRow)
    requires Enumerates(links, db.links) && Enumerates(obs, db.obs) && c in db.checkins
    ensures DistinctObservers(JoinRows(db.checkins, links, obs), c) == ObserversOf(db, c)
  {
    var rows := JoinRows(db.checkins, links, obs);
    forall row | row in rows && row.0.0 == c && row.1.Some? ensures row.1.value.observer in ObserversOf(db, c) {
      CountedIsObserver(db, links, obs, c, row);
    }
    forall o | o in db.obs && Link(c.week, c.username, o.hash) in db.links
      ensures o.observer in DistinctObservers(rows, c)
    {
      ObserverIsCounted(db, links, obs, c, o);
    }
  }

  /** The groups are the check-ins: one without a link or an observation still appears, with count 0. */
  lemma QueryGroupsAreCheckins(checkins: seq<CheckinRow>, links: seq<Link>, obs: seq<Obs>, c: CheckinRow)
    ensures (exists row :: row in JoinRows(checkins, links, obs) && row.0.0 == c) <==> c in checkins
  {
    var linked := LeftJoin(checkins, links, OnWeekAndUser);
    if c in checkins {
      SomeRow(checkins, links, OnWeekAndUser, c);
      var l :| (c, l) in linked;
      SomeRow(linked, obs, OnHash, (c, l));
      var o :| ((c, l), o) in JoinRows(checkins, links, obs);
    }
    if row :| row in JoinRows(checkins, links, obs) && row.0.0 == c {
      FromLeft(linked, obs, OnHash, row);
      FromLeft(checkins, links, OnWeekAndUser, row.0);
    }
  }

  lemma FromLeft<A(!new), B(!new)>(rows: seq<A>, bs: seq<B>, on: (A, B) -> bool, row: (A, Option<B>))
    requires row in LeftJoin(rows, bs, on)
    ensures row.0 in rows
  {
  }

  /** A left join drops no row of its left operand. */
  lemma SomeRow<A(!new), B(!new)>(rows: seq<A>, bs: seq<B>, on: (A, B) -> bool, a: A)
    requires a in rows
    ensures exists y: Option<B> :: (a, y) in LeftJoin(rows, bs, on)
  {
    LeftJoinMembers(rows, bs, on);
    if y :| y in bs && on(a, y) {
      assert (a, Some(y)) in LeftJoin(rows, bs, on);
    } else {
      assert (a, None) in LeftJoin(rows, bs, on);
    }
  }

  // ----- Over runs -----

  /** A check-in's badge never loses an observer, whatever ingest, prunes, crashes and restores follow. */
  lemma BadgeNeverShrinks(env: Env, s: State, labels: seq<Label>, c: CheckinRow)
    requires Reachable(env, s) && RecentThroughout(env, s, labels) && c in s.db.checkins
    ensures var t := Run(env, s, labels);
            && c in t.db.checkins
            && ObserversOf(s.db, c) <= ObserversOf(t.db, c)
            && |ObserversOf(s.db, c)| <= |ObserversOf(t.db, c)|
  {
    NothingIsLost(env, s, labels);
    var t := Run(env, s, labels);
    forall name | name in ObserversOf(s.db, c) ensures name in ObserversOf(t.db, c) {
      var o :| o in s.db.obs && Link(c.week, c.username, o.hash) in s.db.links && o.observer == name;
      assert Obs(o.hash, name) == o;
      assert o in t.db.obs;
    }
    SubsetSize(ObserversOf(s.db, c), ObserversOf(t.db, c));
  }

  // ----- The names shown with the count -----

  /** sort.Strings. */
  function SortTexts(s: seq<string>): (r: seq<string>)
    ensures multiset(r) == multiset(s)
  {
    Sort(TextBefore, s)
  }

  lemma TextIsWeakOrder()
    ensures WeakOrder(TextBefore)
  {
    forall a: string, b: string, c: string ensures TextBefore(a, c) ==> TextBefore(a, b) || TextBefore(b, c) {
      TextTrichotomy(a, b);
      if TextBefore(b, a) && TextBefore(a, c) {
        TextTransitive(b, a, c);
      }
    }
    forall a: string, b: string ensures TextBefore(a, b) ==> !TextBefore(b, a) {
      TextIrreflexive(a);
      if TextBefore(a, b) && TextBefore(b, a) {
        TextTransitive(a, b, a);
      }
    }
  }

  /** The parts that are left with something in them once trimmed. */
  function NonEmptyParts(parts: seq<string>): seq<string> {
    if parts == [] then []
    else
      var n := |parts| - 1;
      NonEmptyParts(parts[..n]) + if Trim(parts[n]) == "" then [] else [Trim(parts[n])]
  }

  function ParseNames(csv: string): seq<string> {
    if Trim(csv) == "" then [] else SortTexts(NonEmptyParts(Split(Trim(csv), ',')))
  }

  lemma NextPart(parts: seq<string>, i: nat)
    requires i < |parts|
    ensures NonEmptyParts(parts[..i + 1]) ==
            NonEmptyParts(parts[..i]) + if Trim(parts[i]) == "" then [] else [Trim(parts[i])]
  {
    assert parts[..i + 1][..i] == parts[..i];
  }

  /** The loop over the parts. */
  method TrimmedParts(parts: seq<string>) returns (names: seq<string>)
    ensures names == NonEmptyParts(parts)
  {
    names := [];
    for i := 0 to |parts|
      invariant names == NonEmptyParts(parts[..i])
    {
      NextPart(parts, i);
      var name := Trim(parts[i]);
      if name != "" {
        names := names + [name];
      }
    }
    assert parts[..|parts|] == parts;
  }

  method ParseObserverNames(csv: string) returns (names: seq<string>)
    ensures names == ParseNames(csv)
    ensures Ordered(TextBefore, names)
  {
    var value := Trim(csv);
    if value == "" {
      return [];
    }
    names := TrimmedParts(Split(value, ','));
    TextIsWeakOrder();
    SortOrdered(TextBefore, names);
    names := SortTexts(names);
  }

  /** A name that survives being joined with commas, split and trimmed. */
  predicate CleanName(name: string) {
    name != "" && Trimmed(name) && ',' !in name
  }

  lemma {:induction false} PartsAreClean(parts: seq<string>)
    requires forall part | part in parts :: ',' !in part
    ensures forall name | name in NonEmptyParts(parts) :: CleanName(name)
  {
    if parts != [] {
      var n := |parts| - 1;
      PartsAreClean(parts[..n]);
      var last := parts[n];
      assert last in parts;
      TrimIsTrimmed(last);
      TrimKeepsOut(last, ',');
    }
  }

  lemma TrimKeepsOut(s: string, c: char)
    requires c !in s
    ensures c !in Trim(s)
  {
  }

  lemma NonEmptySnoc(parts: seq<string>, last: string)
    requires CleanName(last)
    ensures NonEmptyParts(parts + [last]) == NonEmptyParts(parts) + [last]
  {
    TrimFixed(last);
    assert (parts + [last])[..|parts|] == parts;
  }

  lemma CleanSnoc(front: seq<string>, last: string)
    requires forall part | part in front + [last] :: CleanName(part)
    ensures CleanName(last) && forall part | part in front :: CleanName(part)
  {
  }

  lemma {:induction false} CleanParts(parts: seq<string>)
    requires forall part | part in parts :: CleanName(part)
    ensures NonEmptyParts(parts) == parts
  {
    if parts != [] {
      var front, last := parts[..|parts| - 1], parts[|parts| - 1];
      assert parts == front + [last];
      CleanSnoc(front, last);
      CleanParts(front);
      NonEmptySnoc(front, last);
    }
  }

  lemma {:induction false} JoinedEnds(names: seq<string>)
    requires names != [] && forall name | name in names :: CleanName(name)
    ensures Join(names, ",") != "" && Trimmed(Join(names, ","))
  {
    assert names[0] in names;
    if |names| > 1 {
      JoinedEnds(names[1..]);
      var rest := Join(names[1..], ",");
      var all := names[0] + "," + rest;
      assert all[|all| - 1] == rest[|rest| - 1];
    }
  }

  /** The list of names is the list of observers, reordered, exactly when every observer key is
      non-empty, trimmed and free of commas; the count beside it does not depend on that. */
  lemma NamesSurviveIffClean(names: seq<string>)
    ensures multiset(ParseNames(Join(names, ","))) == multiset(names) <==>
            forall name | name in names :: CleanName(name)
  {
    var csv := Join(names, ",");
    var parsed := ParseNames(csv);
    if forall name | name in names :: CleanName(name) {
      if names != [] {
        JoinedEnds(names);
        TrimFixed(csv);
        SplitJoin(names, ',');
        CleanParts(names);
      }
    }
    if multiset(parsed) == multiset(names) {
      SplitParts(Trim(csv), ',');
      PartsAreClean(Split(Trim(csv), ','));
      forall name | name in names ensures CleanName(name) {
        assert name in multiset(names);
        assert name in multiset(parsed);
        assert name in multiset(NonEmptyParts(Split(Trim(csv), ',')));
      }
    }
  }

  /** One observer whose key has a comma in it is counted once and shown as two. */
  lemma CommaMakesTwoNames(a: string, b: string)
    requires CleanName(a) && CleanName(b)
    ensures multiset(ParseNames(Join([a + "," + b], ","))) == multiset{a, b}
  {
    var names := [a, b];
    forall name | name in names ensures CleanName(name) {}
    NamesSurviveIffClean(names);
    assert names[1..] == [b];
    assert Join(names, ",") == a + "," + b == Join([a + "," + b], ",");
  }

  lemma NorthSouthIsTwoNames()
    ensures multiset(ParseNames(Join(["north" + "," + "south"], ","))) == multiset{"north", "south"}
  {
    CommaMakesTwoNames("north", "south");
  }
}
