/**
  Seasons, clubs and the links between them: the objects of classes/season.hpp, classes/club.hpp
  and classes/club_season.hpp saved through db/mysql.cpp into the tables of db/football.sql.
  REPLACE is MySQL's: it deletes the rows that conflict with the new one and then inserts it.
 */
module SeasonStore {
  import opened Wrappers

  type Id = nat
  type Text = string

  // ---------------------------------------------------------------------------------------
  // The tables
  // ---------------------------------------------------------------------------------------

  datatype ClubRow = ClubRow(name: Text, country: Text)
  datatype SeasonRow = SeasonRow(championship: Id, year: Text)
  datatype Link = Link(season: Id, club: Id)

  /** `next` is the id the seasons table gives next. */
  datatype Db = Db(championships: set<Id>, clubs: map<Id, ClubRow>, seasons: map<Id, SeasonRow>, links: set<Link>,
                   next: Id)

  /** Foreign keys and unique keys. */
  ghost predicate Valid(db: Db) {
    (forall k <- db.seasons ::
       db.seasons[k].championship in db.championships && 0 < k < db.next && IsYear(db.seasons[k].year))
    && (forall k, l :: k in db.seasons && l in db.seasons && db.seasons[k] == db.seasons[l] ==> k == l)
    && (forall k, l :: k in db.clubs && l in db.clubs && db.clubs[k].name == db.clubs[l].name ==> k == l)
    && (forall l <- db.links :: l.season in db.seasons && l.club in db.clubs)
    && 0 < db.next
  }

  /** What can be in the year column: there is no default, and the text NULL is written as a missing value. */
  predicate IsYear(year: Text) { year != "" && year != "NULL" }

  /** The clubs linked to a season. */
  function Clubs(db: Db, season: Id): set<Id> { set l | l in db.links && l.season == season :: l.club }

  // ---------------------------------------------------------------------------------------
  // The objects
  // ---------------------------------------------------------------------------------------

  /** An empty id is the empty string, which `set` skips. */
  datatype Club = Club(id: Option<Id>, name: Text, country: Text)

  /** The columns a season's table object holds values for; an empty year stands for none. */
  datatype Fields = Fields(id: Option<Id>, championship: Option<Id>, year: Text)
  datatype Season = Season(fields: Fields, id: Option<Id>, championship: Option<Id>, year: Text, clubs: seq<Club>)

  const NO_FIELDS := Fields(None, None, "")

  /** A value that is empty does not replace the one that is there. */
  function Set<T>(value: Option<T>, was: Option<T>): Option<T> { if value.Some? then value else was }

  function SetText(value: Text, was: Text): Text { if value != "" then value else was }

  function Populated(s: Season): Fields {
    Fields(Set(s.id, s.fields.id), Set(s.championship, s.fields.championship), SetText(s.year, s.fields.year))
  }

  predicate SameClub(a: Club, b: Club) { a.name == b.name && a.country == b.country }

  /** Adds a club unless one of the same name and country is there. */
  function Added(clubs: seq<Club>, c: Club): seq<Club> {
    if exists i :: 0 <= i < |clubs| && SameClub(clubs[i], c) then clubs else clubs + [c]
  }

  /** Removes the first club of this name and country. */
  function RemovedClub(clubs: seq<Club>, c: Club): seq<Club> {
    if clubs == [] then [] else if SameClub(clubs[0], c) then clubs[1..] else [clubs[0]] + RemovedClub(clubs[1..], c)
  }

  // ---------------------------------------------------------------------------------------
  // Statements
  // ---------------------------------------------------------------------------------------

  /** Every column without a default has a value, and the championship exists. */
  predicate Insertable(db: Db, f: Fields) {
    f.championship.Some? && f.championship.value in db.championships && IsYear(f.year)
  }

  /** No id, or the id 0, asks for the next one. */
  function RowId(db: Db, f: Fields): Id { if f.id.Some? && f.id.value != 0 then f.id.value else db.next }

  /** The rows a REPLACE deletes: those of the same id, and those of the same championship and year. */
  predicate Conflicts(db: Db, k: Id, id: Id, row: SeasonRow) { k in db.seasons && (k == id || db.seasons[k] == row) }

  /** REPLACE INTO seasons; deleting a season's row deletes its links. */
  function ReplacedSeason(db: Db, id: Id, row: SeasonRow): Db {
    db.(seasons := (map k | k in db.seasons && !Conflicts(db, k, id, row) :: db.seasons[k])[id := row],
        links := (set l | l in db.links && !Conflicts(db, l.season, id, row)),
        next := if db.next <= id then id + 1 else db.next)
  }

  /** REPLACE INTO clubs_seasons. */
  predicate Linkable(db: Db, season: Option<Id>, club: Option<Id>) {
    season.Some? && season.value in db.seasons && club.Some? && club.value in db.clubs
  }

  function Linked(db: Db, season: Id, club: Id): Db { db.(links := db.links + {Link(season, club)}) }

  // ---------------------------------------------------------------------------------------
  // Saving
  // ---------------------------------------------------------------------------------------

  datatype Saved = Saved(db: Db, season: Season, ok: bool)

  /** A link for every club, in order; the result is that of the last one. */
  function LinkAll(db: Db, season: Option<Id>, clubs: seq<Club>, faults: seq<bool>, result: bool): (r: (Db, bool))
    requires |faults| == |clubs|
    decreases |clubs|
  {
    if clubs == [] then (db, result)
    else if !faults[0] && Linkable(db, season, clubs[0].id) then
      LinkAll(Linked(db, season.value, clubs[0].id.value), season, clubs[1..], faults[1..], true)
    else LinkAll(db, season, clubs[1..], faults[1..], false)
  }

  /** The season's row, then its links. `faults` tells which statements the server rejects for reasons of its own. */
  function SavedSeason(db: Db, s: Season, faults: seq<bool>): Saved
    requires |faults| == 1 + |s.clubs|
  {
    var f := Populated(s);
    if faults[0] || !Insertable(db, f) then Saved(db, s.(fields := f), false)
    else
      var id, row := RowId(db, f), SeasonRow(f.championship.value, f.year);
      var after := ReplacedSeason(db, id, row);
      var stored := s.(fields := f.(id := Some(id)), id := Some(id), year := f.year);
      var r := LinkAll(after, Some(id), s.clubs, faults[1..], true);
      Saved(r.0, stored, r.1)
  }

  function NoFaults(n: nat): (f: seq<bool>)
    ensures |f| == n && forall i :: 0 <= i < n ==> !f[i]
  {
    seq(n, _ => false)
  }

  // ---------------------------------------------------------------------------------------
  // What a save leaves behind
  // ---------------------------------------------------------------------------------------

  lemma ReplaceIsValid(db: Db, id: Id, row: SeasonRow)
    requires Valid(db) && 0 < id && row.championship in db.championships && IsYear(row.year)
    ensures var r := ReplacedSeason(db, id, row);
            Valid(r) && Clubs(r, id) == {} && r.seasons[id] == row
            && forall k :: k != id && !Conflicts(db, k, id, row) ==>
                 (k in r.seasons <==> k in db.seasons) && (k in r.seasons ==> r.seasons[k] == db.seasons[k])
                 && Clubs(r, k) == Clubs(db, k)
  {
    var r := ReplacedSeason(db, id, row);
    forall k | k != id && !Conflicts(db, k, id, row)
      ensures Clubs(r, k) == Clubs(db, k)
    {
      forall c
        ensures c in Clubs(r, k) <==> c in Clubs(db, k)
      {
        assert Link(k, c) in r.links <==> Link(k, c) in db.links;
      }
    }
  }

  /** The ids of those clubs of a list that the store has, and whose links were not rejected. */
  function Stored(db: Db, clubs: seq<Club>, faults: seq<bool>): set<Id>
    requires |faults| == |clubs|
  {
    set i | 0 <= i < |clubs| && !faults[i] && clubs[i].id.Some? && clubs[i].id.value in db.clubs :: clubs[i].id.value
  }

  /** Only links change. */
  predicate SameRows(db: Db, r: Db) {
    r.championships == db.championships && r.clubs == db.clubs && r.seasons == db.seasons && r.next == db.next
  }

  lemma {:induction false} LinkAllLinks(db: Db, season: Id, clubs: seq<Club>, faults: seq<bool>, result: bool)
    requires |faults| == |clubs| && Valid(db) && season in db.seasons
    ensures var r := LinkAll(db, Some(season), clubs, faults, result).0;
            Valid(r) && SameRows(db, r)
            && Clubs(r, season) == Clubs(db, season) + Stored(db, clubs, faults)
            && forall k :: k != season ==> Clubs(r, k) == Clubs(db, k)
    decreases |clubs|
  {
    var r := LinkAll(db, Some(season), clubs, faults, result).0;
    if clubs != [] {
      var ok := !faults[0] && Linkable(db, Some(season), clubs[0].id);
      var d := if ok then Linked(db, season, clubs[0].id.value) else db;
      LinkAllLinks(d, season, clubs[1..], faults[1..], ok);
      if ok {
        LinkedClubs(db, season, clubs[0].id.value);
      }
      StoredFirst(db, clubs, faults);
      assert Stored(d, clubs[1..], faults[1..]) == Stored(db, clubs[1..], faults[1..]);
    }
  }

  lemma LinkedClubs(db: Db, season: Id, club: Id)
    ensures Clubs(Linked(db, season, club), season) == Clubs(db, season) + {club}
    ensures forall k :: k != season ==> Clubs(Linked(db, season, club), k) == Clubs(db, k)
  {
    var r := Linked(db, season, club);
    forall k, c
      ensures c in Clubs(r, k) <==> c in Clubs(db, k) || (k == season && c == club)
    {
      assert Link(k, c) in r.links <==> Link(k, c) in db.links || Link(k, c) == Link(season, club);
    }
  }

  lemma StoredFirst(db: Db, clubs: seq<Club>, faults: seq<bool>)
    requires |faults| == |clubs| > 0
    ensures Stored(db, clubs, faults)
            == Stored(db, clubs[1..], faults[1..])
               + (if !faults[0] && clubs[0].id.Some? && clubs[0].id.value in db.clubs then {clubs[0].id.value} else {})
  {
    var rest := Stored(db, clubs[1..], faults[1..]);
    forall c | c in Stored(db, clubs, faults)
      ensures c in rest || c == clubs[0].id.value
    {
      var i :| 0 <= i < |clubs| && !faults[i] && clubs[i].id.Some? && clubs[i].id.value in db.clubs
        && clubs[i].id.value == c;
      if i > 0 {
        assert clubs[1..][i - 1] == clubs[i] && faults[1..][i - 1] == faults[i];
      }
    }
    forall c | c in rest
      ensures c in Stored(db, clubs, faults)
    {
      var i :| 0 <= i < |clubs| - 1 && !faults[1..][i] && clubs[1..][i].id.Some? && clubs[1..][i].id.value in db.clubs
               && clubs[1..][i].id.value == c;
      assert clubs[i + 1] == clubs[1..][i] && faults[i + 1] == faults[1..][i];
    }
  }

  /** The result of the links is that of the last one. */
  lemma {:induction false} LinkAllResult(db: Db, season: Id, clubs: seq<Club>, faults: seq<bool>, result: bool)
    requires |faults| == |clubs| && season in db.seasons
    ensures LinkAll(db, Some(season), clubs, faults, result).1
            <==> if clubs == [] then result
                 else var n := |clubs| - 1; !faults[n] && clubs[n].id.Some? && clubs[n].id.value in db.clubs
    decreases |clubs|
  {
    if clubs != [] {
      var ok := !faults[0] && Linkable(db, Some(season), clubs[0].id);
      LinkAllResult(if ok then Linked(db, season, clubs[0].id.value) else db, season, clubs[1..], faults[1..], ok);
    }
  }

  /** Whatever the server rejects, a saved season's links are those of its stored clubs, no others; a season is
      touched by the save of another one exactly if the two have the same championship and year. */
  lemma SaveWritesExactlyItsClubs(db: Db, s: Season, faults: seq<bool>)
    requires Valid(db) && |faults| == 1 + |s.clubs| && !faults[0] && Insertable(db, Populated(s))
    ensures var f := Populated(s);
            var r, id, row := SavedSeason(db, s, faults), RowId(db, f), SeasonRow(f.championship.value, f.year);
            Valid(r.db) && r.season.id == Some(id) && r.season.clubs == s.clubs
            && id in r.db.seasons && r.db.seasons[id] == row
            && Clubs(r.db, id) == Stored(db, s.clubs, faults[1..])
            && forall k :: k != id && k in db.seasons ==>
                 ((k in r.db.seasons && r.db.seasons[k] == db.seasons[k] && Clubs(r.db, k) == Clubs(db, k))
                  <==> db.seasons[k] != row)
  {
    var f := Populated(s);
    var id, row := RowId(db, f), SeasonRow(f.championship.value, f.year);
    ReplaceIsValid(db, id, row);
    LinkAllLinks(ReplacedSeason(db, id, row), id, s.clubs, faults[1..], true);
  }

  /** A save that is rejected at the season's row changes nothing; otherwise its result is that of the last link. */
  lemma SaveResult(db: Db, s: Season, faults: seq<bool>)
    requires Valid(db) && |faults| == 1 + |s.clubs|
    ensures var r, n := SavedSeason(db, s, faults), |s.clubs|;
            (r.ok <==> !faults[0] && Insertable(db, Populated(s))
                       && (n == 0 || (!faults[n] && s.clubs[n - 1].id.Some? && s.clubs[n - 1].id.value in db.clubs)))
            && (faults[0] || !Insertable(db, Populated(s)) ==> r.db == db)
  {
    var f := Populated(s);
    if !faults[0] && Insertable(db, f) {
      var id, row := RowId(db, f), SeasonRow(f.championship.value, f.year);
      LinkAllResult(ReplacedSeason(db, id, row), id, s.clubs, faults[1..], true);
    }
  }

  /** What a season is saved with: its own values, and those of its table object where it has none. */
  function Championship(s: Season): Option<Id> {
    if s.championship == None then s.fields.championship else s.championship
  }

  function Year(s: Season): Text { if s.year == "" then s.fields.year else s.year }

  function GivenId(s: Season): Option<Id> { if s.id == None then s.fields.id else s.id }

  /** A season is stored by its save exactly if its championship is and it has a year, whatever its id; a missing id,
      or 0, becomes the next one. The row then replaces those of the same id or of the same championship and year. */
  lemma SaveStores(db: Db, s: Season, faults: seq<bool>)
    requires Valid(db) && |faults| == 1 + |s.clubs| && !faults[0]
    ensures var r, c, y := SavedSeason(db, s, faults), Championship(s), Year(s);
            if c != None && c.value in db.championships && y != "" && y != "NULL" then
              var id := if GivenId(s) == None || GivenId(s) == Some(0) then db.next else GivenId(s).value;
              var row := SeasonRow(c.value, y);
              r.season.id == Some(id) && r.season.year == y && r.season.fields == Fields(Some(id), c, y)
              && r.db.next == (if id < db.next then db.next else id + 1)
              && (forall k :: k in r.db.seasons <==> k == id || (k in db.seasons && db.seasons[k] != row))
              && (forall k <- r.db.seasons :: r.db.seasons[k] == if k == id then row else db.seasons[k])
              && r.db.clubs == db.clubs && r.db.championships == db.championships
            else r.db == db && !r.ok && forall k <- db.seasons :: c == None || db.seasons[k] != SeasonRow(c.value, y)
  {
    assert Populated(s) == Fields(GivenId(s), Championship(s), Year(s));
    if Insertable(db, Populated(s)) {
      SaveWritesExactlyItsClubs(db, s, faults);
      RowsAfterSave(db, s, faults);
    }
  }

  lemma RowsAfterSave(db: Db, s: Season, faults: seq<bool>)
    requires Valid(db) && |faults| == 1 + |s.clubs| && !faults[0] && Insertable(db, Populated(s))
    ensures var f := Populated(s);
            SameRows(ReplacedSeason(db, RowId(db, f), SeasonRow(f.championship.value, f.year)),
                     SavedSeason(db, s, faults).db)
  {
    var f := Populated(s);
    var id, row := RowId(db, f), SeasonRow(f.championship.value, f.year);
    ReplaceIsValid(db, id, row);
    LinkAllLinks(ReplacedSeason(db, id, row), id, s.clubs, faults[1..], true);
  }

  predicate LastIsStored(db: Db, clubs: seq<Club>)
    requires clubs != []
  {
    var last := clubs[|clubs| - 1].id;
    last != None && last.value in db.clubs
  }

  /** So a season without an id that is new gets exactly one row more, with the next id, and its save succeeds if it has
      no clubs or the last one is stored. */
  lemma NewSeasonStored(db: Db, s: Season, c: Id, y: Text)
    requires Valid(db) && s.id == None && s.fields.id == None && Championship(s) == Some(c) && Year(s) == y
    requires c in db.championships && y != "" && y != "NULL"
    requires forall k <- db.seasons :: db.seasons[k] != SeasonRow(c, y)
    ensures var r := SavedSeason(db, s, NoFaults(1 + |s.clubs|));
            r.db.seasons == db.seasons[db.next := SeasonRow(c, y)] && r.db.next == db.next + 1
            && r.season.id == Some(db.next)
            && (r.ok <==> s.clubs == [] || LastIsStored(db, s.clubs))
  {
    var faults := NoFaults(1 + |s.clubs|);
    SaveStores(db, s, faults);
    SaveResult(db, s, faults);
  }

  // ---------------------------------------------------------------------------------------
  // Loading
  // ---------------------------------------------------------------------------------------

  function Ids(clubs: seq<Club>): set<Option<Id>> { set i | 0 <= i < |clubs| :: clubs[i].id }

  function ClubOf(db: Db, c: Id): Club
    requires c in db.clubs
  {
    Club(Some(c), db.clubs[c].name, db.clubs[c].country)
  }

  /** The clubs of a season, in whatever order the server lists its links. */
  ghost predicate Lists(db: Db, season: Id, clubs: seq<Club>) {
    (forall i :: 0 <= i < |clubs| ==>
       clubs[i].id.Some? && clubs[i].id.value in db.clubs && clubs[i] == ClubOf(db, clubs[i].id.value))
    && (forall i, j :: 0 <= i < j < |clubs| ==> clubs[i].id != clubs[j].id)
    && (forall c: Id :: c in Clubs(db, season) <==> exists i :: 0 <= i < |clubs| && clubs[i].id == Some(c))
  }

  /** A season object made from a stored row; the championship is the one it was made with. */
  ghost predicate Loads(db: Db, id: Id, s: Season) {
    id in db.seasons && s.id == Some(id) && s.year == db.seasons[id].year
    && s.fields == Fields(Some(id), Some(db.seasons[id].championship), s.year)
    && (s.championship.Some? ==> s.championship == s.fields.championship)
    && Lists(db, id, s.clubs)
  }

  /** A loaded club has the name and the country of its row. */
  lemma ListedNames(db: Db, season: Id, clubs: seq<Club>, i: nat)
    requires Lists(db, season, clubs) && i < |clubs|
    ensures clubs[i].id != None && clubs[i].id.value in db.clubs
    ensures clubs[i].name == db.clubs[clubs[i].id.value].name && clubs[i].country == db.clubs[clubs[i].id.value].country
  {
  }

  lemma ListedAreStored(db: Db, season: Id, clubs: seq<Club>, r: Db)
    requires Lists(db, season, clubs) && r.clubs == db.clubs
    ensures Stored(r, clubs, NoFaults(|clubs|)) == Clubs(db, season)
  {
    var f := NoFaults(|clubs|);
    forall c: Id
      ensures c in Stored(r, clubs, f) <==> c in Clubs(db, season)
    {
      if c in Stored(r, clubs, f) {
        var i :| 0 <= i < |clubs| && !f[i] && clubs[i].id.Some? && clubs[i].id.value in r.clubs
          && clubs[i].id.value == c;
        assert clubs[i].id == Some(c);
      }
      if c in Clubs(db, season) {
        var i :| 0 <= i < |clubs| && clubs[i].id == Some(c);
        assert !f[i] && clubs[i].id.value in r.clubs;
      }
    }
  }

  /** A season saved with stored clubs is loaded with the same clubs. */
  lemma LoadsWhatWasSaved(db: Db, s: Season, t: Season)
    requires Valid(db) && Insertable(db, Populated(s))
    requires forall i :: 0 <= i < |s.clubs| ==> s.clubs[i].id.Some? && s.clubs[i].id.value in db.clubs
    requires Loads(SavedSeason(db, s, NoFaults(1 + |s.clubs|)).db, RowId(db, Populated(s)), t)
    ensures SavedSeason(db, s, NoFaults(1 + |s.clubs|)).ok
    ensures Ids(t.clubs) == Ids(s.clubs) && t.year == Populated(s).year
            && t.fields.championship == Populated(s).championship
  {
    var faults := NoFaults(1 + |s.clubs|);
    var r, id := SavedSeason(db, s, faults).db, RowId(db, Populated(s));
    SaveWritesExactlyItsClubs(db, s, faults);
    SaveResult(db, s, faults);
    assert faults[1..] == NoFaults(|s.clubs|);
    SameIds(db, r, id, s.clubs, t.clubs);
  }

  lemma SameIds(db: Db, r: Db, id: Id, clubs: seq<Club>, listed: seq<Club>)
    requires forall i :: 0 <= i < |clubs| ==> clubs[i].id.Some? && clubs[i].id.value in db.clubs
    requires Lists(r, id, listed) && Clubs(r, id) == Stored(db, clubs, NoFaults(|clubs|))
    ensures Ids(listed) == Ids(clubs)
  {
    var f := NoFaults(|clubs|);
    forall c: Option<Id>
      ensures c in Ids(listed) <==> c in Ids(clubs)
    {
      if c in Ids(listed) {
        var i :| 0 <= i < |listed| && listed[i].id == c;
        assert c.value in Clubs(r, id);
      }
      if c in Ids(clubs) {
        var i :| 0 <= i < |clubs| && clubs[i].id == c;
        assert !f[i] && c.value in Stored(db, clubs, f);
      }
    }
  }

  /** The row is deleted, its links go with it, and all of it is written again: saving what was loaded changes
      nothing. */
  lemma SaveOfLoadedChangesNothing(db: Db, id: Id, s: Season)
    requires Valid(db) && Loads(db, id, s)
    ensures SavedSeason(db, s, NoFaults(1 + |s.clubs|)) == Saved(db, s, true)
  {
    var faults := NoFaults(1 + |s.clubs|);
    var r := SavedSeason(db, s, faults);
    SaveOfLoaded(db, id, s, s.clubs, faults);
    ListedAreStored(db, id, s.clubs, db);
    assert faults[1..] == NoFaults(|s.clubs|);
    SameDb(db, r.db);
    SaveResult(db, s, faults);
  }

  /** A loaded season saved with other clubs: its own row and all others are as they were, only its links are new. */
  lemma SaveOfLoaded(db: Db, id: Id, s: Season, clubs: seq<Club>, faults: seq<bool>)
    requires Valid(db) && Loads(db, id, s) && |faults| == 1 + |clubs| && !faults[0]
    ensures var r := SavedSeason(db, s.(clubs := clubs), faults);
            Insertable(db, Populated(s)) && Valid(r.db) && SameRows(db, r.db) && r.season == s.(clubs := clubs)
            && Clubs(r.db, id) == Stored(db, clubs, faults[1..])
            && forall k :: k != id && k in db.seasons ==> Clubs(r.db, k) == Clubs(db, k)
  {
    var t := s.(clubs := clubs);
    assert Populated(t) == s.fields;
    var row := db.seasons[id];
    SaveWritesExactlyItsClubs(db, t, faults);
    var d := ReplacedSeason(db, id, row);
    assert d.seasons == db.seasons;
    ReplaceIsValid(db, id, row);
    LinkAllLinks(d, id, clubs, faults[1..], true);
  }

  lemma SameDb(db: Db, r: Db)
    requires Valid(db) && Valid(r) && SameRows(db, r) && forall k :: k in db.seasons ==> Clubs(r, k) == Clubs(db, k)
    ensures r == db
  {
    forall l: Link
      ensures l in r.links <==> l in db.links
    {
      ClubsOfLink(db, l);
      ClubsOfLink(r, l);
    }
  }

  lemma ClubsOfLink(db: Db, l: Link)
    ensures l in db.links <==> l.club in Clubs(db, l.season)
  {
    if l.club in Clubs(db, l.season) {
      var m :| m in db.links && m.season == l.season && m.club == l.club;
      assert m == l;
    }
  }

  // ---------------------------------------------------------------------------------------
  // Requests
  // ---------------------------------------------------------------------------------------

  /** A season made from an id: the row, or only the id when there is none. The championship it is made with has no
      id. */
  ghost predicate SeasonById(db: Db, id: Id, s: Season) {
    if id in db.seasons then Loads(db, id, s) && s.championship.None?
    else s == Season(Fields(Some(id), None, ""), Some(id), None, "", [])
  }

  function ClubById(db: Db, id: Id): Club { if id in db.clubs then ClubOf(db, id) else Club(Some(id), "", "") }

  /** The request to add a club to a season. */
  function NewSeasonClub(db: Db, s: Season, club: Id, faults: seq<bool>): Saved
    requires |faults| == 1 + |Added(s.clubs, ClubById(db, club))|
  {
    SavedSeason(db, s.(clubs := Added(s.clubs, ClubById(db, club))), faults)
  }

  /** A linked club that has neither name nor country; the object of a club that is not stored looks the same. */
  predicate Nameless(clubs: seq<Club>) { exists i :: 0 <= i < |clubs| && SameClub(clubs[i], Club(None, "", "")) }

  lemma NamelessIsLinked(db: Db, season: Id, clubs: seq<Club>)
    requires Valid(db) && Lists(db, season, clubs)
    ensures forall c <- Clubs(db, season) :: c in db.clubs
    ensures Nameless(clubs) <==> exists c <- Clubs(db, season) :: db.clubs[c] == ClubRow("", "")
  {
    forall c <- Clubs(db, season)
      ensures c in db.clubs
    {
      ClubsOfLink(db, Link(season, c));
    }
    if Nameless(clubs) {
      var i :| 0 <= i < |clubs| && SameClub(clubs[i], Club(None, "", ""));
      assert clubs[i].id.value in Clubs(db, season);
    }
    if c: Id :| c in Clubs(db, season) && db.clubs[c] == ClubRow("", "") {
      var i :| 0 <= i < |clubs| && clubs[i].id == Some(c);
      assert SameClub(clubs[i], Club(None, "", ""));
    }
  }

  /** The season's links become the old ones plus the club, its row and everything else stay, and the request
      succeeds exactly when season and club are stored; otherwise nothing changes. A club that is not stored passes
      for a nameless one that is linked already. */
  lemma NewSeasonClubAddsExactlyTheClub(db: Db, season: Id, s: Season, club: Id)
    requires Valid(db) && SeasonById(db, season, s)
    ensures var r := NewSeasonClub(db, s, club, NoFaults(1 + |Added(s.clubs, ClubById(db, club))|));
            r.season.id == Some(season)
            && (r.ok <==> season in db.seasons && (club in db.clubs || Nameless(s.clubs)))
            && r.db == if season in db.seasons && club in db.clubs then Linked(db, season, club) else db
  {
    var clubs := Added(s.clubs, ClubById(db, club));
    var faults := NoFaults(1 + |clubs|);
    SaveResult(db, s.(clubs := clubs), faults);
    if season in db.seasons {
      StoredSeasonWithClub(db, season, s, club);
      LastStored(db, season, s.clubs, club);
    }
  }

  lemma StoredSeasonWithClub(db: Db, season: Id, s: Season, club: Id)
    requires Valid(db) && Loads(db, season, s)
    ensures var clubs := Added(s.clubs, ClubById(db, club));
            var r := SavedSeason(db, s.(clubs := clubs), NoFaults(1 + |clubs|));
            Insertable(db, Populated(s)) && r.season.id == Some(season)
            && r.db == if club in db.clubs then Linked(db, season, club) else db
  {
    var clubs := Added(s.clubs, ClubById(db, club));
    var faults := NoFaults(1 + |clubs|);
    SaveOfLoaded(db, season, s, clubs, faults);
    assert faults[1..] == NoFaults(|clubs|);
    StoredWith(db, season, s.clubs, club);
    WithClub(db, season, club, SavedSeason(db, s.(clubs := clubs), faults).db);
  }

  lemma WithClub(db: Db, season: Id, club: Id, r: Db)
    requires Valid(db) && season in db.seasons && Valid(r) && SameRows(db, r)
    requires Clubs(r, season) == Clubs(db, season) + if club in db.clubs then {club} else {}
    requires forall k :: k != season && k in db.seasons ==> Clubs(r, k) == Clubs(db, k)
    ensures r == if club in db.clubs then Linked(db, season, club) else db
  {
    LinkedClubs(db, season, club);
    SameDb(if club in db.clubs then Linked(db, season, club) else db, r);
  }

  lemma LastStored(db: Db, season: Id, clubs: seq<Club>, club: Id)
    requires Lists(db, season, clubs)
    ensures var all := Added(clubs, ClubById(db, club));
            all != [] && all[|all| - 1].id.Some?
            && (all[|all| - 1].id.value in db.clubs <==> club in db.clubs || Nameless(clubs))
  {
    assert ClubById(db, club).id == Some(club);
  }

  lemma StoredWith(db: Db, season: Id, clubs: seq<Club>, club: Id)
    requires Valid(db) && Lists(db, season, clubs)
    ensures var all := Added(clubs, ClubById(db, club));
            Stored(db, all, NoFaults(|all|)) == Clubs(db, season) + if club in db.clubs then {club} else {}
  {
    var c := ClubById(db, club);
    var all := Added(clubs, c);
    ListedAreStored(db, season, clubs, db);
    if all == clubs {
      var i :| 0 <= i < |clubs| && SameClub(clubs[i], c);
      if club in db.clubs {
        assert clubs[i].id == Some(club);
      }
    } else {
      StoredLast(db, clubs, c);
    }
  }

  lemma StoredLast(db: Db, clubs: seq<Club>, c: Club)
    requires c.id.Some?
    ensures Stored(db, clubs + [c], NoFaults(|clubs| + 1))
            == Stored(db, clubs, NoFaults(|clubs|)) + if c.id.value in db.clubs then {c.id.value} else {}
  {
    var all, n := clubs + [c], |clubs|;
    var f, g := NoFaults(n + 1), NoFaults(n);
    forall x | x in Stored(db, clubs, g)
      ensures x in Stored(db, all, f)
    {
      var i :| 0 <= i < n && !g[i] && clubs[i].id.Some? && clubs[i].id.value in db.clubs && clubs[i].id.value == x;
      assert all[i] == clubs[i] && !f[i];
    }
    if c.id.value in db.clubs {
      assert all[n] == c && !f[n];
    }
  }

  /** Asking twice is asking once. */
  lemma NewSeasonClubIsIdempotent(db: Db, season: Id, s: Season, t: Season, club: Id)
    requires Valid(db) && SeasonById(db, season, s)
    requires SeasonById(NewSeasonClub(db, s, club, NoFaults(1 + |Added(s.clubs, ClubById(db, club))|)).db, season, t)
    ensures var once := NewSeasonClub(db, s, club, NoFaults(1 + |Added(s.clubs, ClubById(db, club))|));
            Valid(once.db)
            && var twice := NewSeasonClub(once.db, t, club, NoFaults(1 + |Added(t.clubs, ClubById(once.db, club))|));
               twice.db == once.db && (season in db.seasons && club in db.clubs ==> once.ok && twice.ok)
  {
    NewSeasonClubAddsExactlyTheClub(db, season, s, club);
    var once := NewSeasonClub(db, s, club, NoFaults(1 + |Added(s.clubs, ClubById(db, club))|)).db;
    assert Valid(once);
    NewSeasonClubAddsExactlyTheClub(once, season, t, club);
    if season in db.seasons && club in db.clubs {
      assert Linked(once, season, club).links == once.links;
    }
  }

  /** A club taken out of a loaded season is gone from its links after the save, and nothing else is. */
  lemma RemovalIsSaved(db: Db, id: Id, s: Season, club: Id)
    requires Valid(db) && Loads(db, id, s) && club in db.clubs
    ensures var clubs := RemovedClub(s.clubs, ClubOf(db, club));
            var r := SavedSeason(db, s.(clubs := clubs), NoFaults(1 + |clubs|));
            r.ok && SameRows(db, r.db) && Clubs(r.db, id) == Clubs(db, id) - {club}
            && forall k :: k != id && k in db.seasons ==> Clubs(r.db, k) == Clubs(db, k)
  {
    var clubs := RemovedClub(s.clubs, ClubOf(db, club));
    var faults := NoFaults(1 + |clubs|);
    SaveOfLoaded(db, id, s, clubs, faults);
    RemovedIds(db, s.clubs, club);
    SaveResult(db, s.(clubs := clubs), faults);
    assert faults[1..] == NoFaults(|clubs|);
    RemovedStored(db, id, s.clubs, club);
  }

  lemma RemovedStored(db: Db, id: Id, listed: seq<Club>, club: Id)
    requires Valid(db) && Lists(db, id, listed) && club in db.clubs
    ensures var clubs := RemovedClub(listed, ClubOf(db, club));
            Stored(db, clubs, NoFaults(|clubs|)) == Clubs(db, id) - {club}
  {
    var clubs := RemovedClub(listed, ClubOf(db, club));
    RemovedIds(db, listed, club);
    forall c: Id
      ensures c in Stored(db, clubs, NoFaults(|clubs|)) <==> c in Clubs(db, id) && c != club
    {
      StoredMeans(db, clubs, c);
      ListedMeans(db, id, listed, c);
    }
  }

  lemma StoredMeans(db: Db, clubs: seq<Club>, c: Id)
    ensures c in Stored(db, clubs, NoFaults(|clubs|)) <==> c in db.clubs && exists k <- clubs :: k.id == Some(c)
  {
    var f := NoFaults(|clubs|);
    if c in Stored(db, clubs, f) {
      var i :| 0 <= i < |clubs| && !f[i] && clubs[i].id.Some? && clubs[i].id.value in db.clubs
        && clubs[i].id.value == c;
      assert clubs[i] in clubs;
    }
    if c in db.clubs && exists k <- clubs :: k.id == Some(c) {
      var i :| 0 <= i < |clubs| && clubs[i].id == Some(c);
      assert !f[i];
    }
  }

  lemma ListedMeans(db: Db, id: Id, listed: seq<Club>, c: Id)
    requires Valid(db) && Lists(db, id, listed)
    ensures c in Clubs(db, id) <==> exists k <- listed :: k.id == Some(c)
    ensures c in Clubs(db, id) ==> c in db.clubs
  {
    if c in Clubs(db, id) {
      var i :| 0 <= i < |listed| && listed[i].id == Some(c);
      assert listed[i] in listed;
    }
  }

  lemma {:induction false} RemovedAt(clubs: seq<Club>, c: Club, i: nat)
    requires i <= |clubs| && forall j :: 0 <= j < i ==> !SameClub(clubs[j], c)
    requires i < |clubs| ==> SameClub(clubs[i], c)
    ensures RemovedClub(clubs, c) == if i < |clubs| then clubs[..i] + clubs[i + 1..] else clubs
  {
    if i > 0 {
      var rest := clubs[1..];
      RemovedAt(rest, c, i - 1);
      assert clubs == [clubs[0]] + rest;
      if i < |clubs| {
        assert clubs[..i] == [clubs[0]] + rest[..i - 1];
        assert clubs[i + 1..] == rest[i..];
      }
    }
  }

  predicate WithoutAt(clubs: seq<Club>, c: Club, rest: seq<Club>, i: nat) {
    i < |clubs| && rest == clubs[..i] + clubs[i + 1..] && clubs[i].name == c.name && clubs[i].country == c.country
    && forall j :: 0 <= j < i ==> !(clubs[j].name == c.name && clubs[j].country == c.country)
  }

  /** All clubs but the first one of this name and country. */
  predicate WithoutFirst(clubs: seq<Club>, c: Club, rest: seq<Club>) {
    exists i :: 0 <= i < |clubs| && WithoutAt(clubs, c, rest, i)
  }

  /** Names tell stored clubs apart, so removing by name and country removes this club only. */
  lemma {:induction false} RemovedIds(db: Db, clubs: seq<Club>, club: Id)
    requires Valid(db) && club in db.clubs
    requires forall c <- clubs :: c.id.Some? && c.id.value in db.clubs && c == ClubOf(db, c.id.value)
    requires forall i, j :: 0 <= i < j < |clubs| ==> clubs[i].id != clubs[j].id
    ensures forall c :: c in RemovedClub(clubs, ClubOf(db, club)) <==> c in clubs && c.id != Some(club)
  {
    if clubs != [] {
      var rest := clubs[1..];
      assert clubs == [clubs[0]] + rest;
      assert clubs[0] !in rest && clubs[0] in clubs;
      RemovedIds(db, rest, club);
      assert SameClub(clubs[0], ClubOf(db, club)) <==> clubs[0].id == Some(club);
      if clubs[0].id == Some(club) {
        forall c | c in rest
          ensures c.id != Some(club)
        {
          var j :| 0 <= j < |rest| && rest[j] == c;
          assert clubs[j + 1].id != clubs[0].id;
        }
      }
    }
  }

  // ---------------------------------------------------------------------------------------
  // Removing
  // ---------------------------------------------------------------------------------------

  /** DELETE by championship and year; a missing value matches no row. */
  predicate Deletes(db: Db, f: Fields, k: Id) {
    k in db.seasons && f.championship.Some? && db.seasons[k] == SeasonRow(f.championship.value, f.year)
  }

  function RemovedSeason(db: Db, f: Fields): Db {
    db.(seasons := (map k | k in db.seasons && !Deletes(db, f, k) :: db.seasons[k]),
        links := (set l | l in db.links && !Deletes(db, f, l.season)))
  }

  /** Exactly the row of this championship and year goes, with its links, and nothing else. */
  lemma RemovedRows(db: Db, f: Fields)
    ensures var r := RemovedSeason(db, f);
            (forall k :: k in r.seasons <==>
               k in db.seasons && !(Some(db.seasons[k].championship) == f.championship && db.seasons[k].year == f.year))
            && (forall k <- r.seasons :: r.seasons[k] == db.seasons[k])
            && (forall l :: l in r.links <==>
                  l in db.links && (l.season in db.seasons ==> l.season in r.seasons))
            && r.clubs == db.clubs && r.championships == db.championships && r.next == db.next
  {
  }

  /** Saving a season that is new and removing it leaves the tables as they were, but for the next id. */
  lemma RemoveUndoesSave(db: Db, s: Season)
    requires Valid(db) && Insertable(db, Populated(s)) && RowId(db, Populated(s)) !in db.seasons
    requires var f := Populated(s); forall k <- db.seasons :: db.seasons[k] != SeasonRow(f.championship.value, f.year)
    ensures var r := SavedSeason(db, s, NoFaults(1 + |s.clubs|));
            RemovedSeason(r.db, r.season.fields) == db.(next := r.db.next)
  {
    var r, id := SavedSeason(db, s, NoFaults(1 + |s.clubs|)), RowId(db, Populated(s));
    NewSeasonSaved(db, s);
    RemovedOnly(r.db, r.season.fields, id);
    assert r.db.seasons - {id} == db.seasons;
    OtherLinks(db, r.db, id);
  }

  lemma NewSeasonSaved(db: Db, s: Season)
    requires Valid(db) && Insertable(db, Populated(s)) && RowId(db, Populated(s)) !in db.seasons
    requires var f := Populated(s); forall k <- db.seasons :: db.seasons[k] != SeasonRow(f.championship.value, f.year)
    ensures var f, r := Populated(s), SavedSeason(db, s, NoFaults(1 + |s.clubs|));
            var id, row := RowId(db, f), SeasonRow(f.championship.value, f.year);
            Valid(r.db) && r.db.championships == db.championships && r.db.clubs == db.clubs
            && r.db.seasons == db.seasons[id := row] && Deletes(r.db, r.season.fields, id)
            && forall k :: k != id ==> Clubs(r.db, k) == Clubs(db, k)
  {
    var f, faults := Populated(s), NoFaults(1 + |s.clubs|);
    var id, row := RowId(db, f), SeasonRow(f.championship.value, f.year);
    ReplacedNothing(db, id, row);
    LinkAllLinks(ReplacedSeason(db, id, row), id, s.clubs, faults[1..], true);
  }

  lemma ReplacedNothing(db: Db, id: Id, row: SeasonRow)
    requires Valid(db) && 0 < id && id !in db.seasons && row.championship in db.championships && IsYear(row.year)
    requires forall k <- db.seasons :: db.seasons[k] != row
    ensures var r := ReplacedSeason(db, id, row);
            Valid(r) && r.seasons == db.seasons[id := row] && forall k :: k != id ==> Clubs(r, k) == Clubs(db, k)
  {
    ReplaceIsValid(db, id, row);
  }

  lemma RemovedOnly(db: Db, f: Fields, id: Id)
    requires Valid(db) && Deletes(db, f, id)
    ensures RemovedSeason(db, f)
            == db.(seasons := db.seasons - {id}, links := (set l | l in db.links && l.season != id))
  {
    assert forall k :: Deletes(db, f, k) <==> k == id;
    assert RemovedSeason(db, f).seasons == db.seasons - {id};
    forall l: Link
      ensures l in RemovedSeason(db, f).links <==> l in db.links && l.season != id
    {
    }
  }

  lemma OtherLinks(db: Db, r: Db, id: Id)
    requires Valid(db) && id !in db.seasons && forall k :: k != id ==> Clubs(r, k) == Clubs(db, k)
    ensures (set l | l in r.links && l.season != id) == db.links
  {
    forall l: Link
      ensures l in r.links && l.season != id <==> l in db.links
    {
      ClubsOfLink(db, l);
      ClubsOfLink(r, l);
    }
  }

  // ---------------------------------------------------------------------------------------
  // Clubs
  // ---------------------------------------------------------------------------------------

  /** REPLACE INTO clubs, by id and by name; a club's links go with its row. */
  predicate ClubConflicts(db: Db, k: Id, id: Id, name: Text) { k in db.clubs && (k == id || db.clubs[k].name == name) }

  function ReplacedClub(db: Db, id: Id, row: ClubRow): Db {
    db.(clubs := (map k | k in db.clubs && !ClubConflicts(db, k, id, row.name) :: db.clubs[k])[id := row],
        links := (set l | l in db.links && !ClubConflicts(db, l.club, id, row.name)))
  }

  /** Saving a club, under whatever name, drops its own links in every season, and those of the club that had the
      name, which is gone; no other club and no other link is touched. */
  lemma ClubSaveDropsItsLinks(db: Db, id: Id, row: ClubRow)
    requires Valid(db)
    ensures var r := ReplacedClub(db, id, row);
            Valid(r) && r.seasons == db.seasons && id in r.clubs && r.clubs[id] == row
            && (forall k :: k != id ==> (k in r.clubs <==> k in db.clubs && db.clubs[k].name != row.name))
            && (forall k :: k != id && k in r.clubs ==> r.clubs[k] == db.clubs[k])
            && forall k, c :: c in Clubs(r, k) <==> c in Clubs(db, k) && c != id && db.clubs[c].name != row.name
  {
    var r := ReplacedClub(db, id, row);
    forall k, c
      ensures c in Clubs(db, k) ==> c in db.clubs
      ensures c in Clubs(r, k) <==> c in Clubs(db, k) && c != id && db.clubs[c].name != row.name
    {
      ClubsOfLink(db, Link(k, c));
      ClubsOfLink(r, Link(k, c));
    }
  }

  // ---------------------------------------------------------------------------------------
  // The server and the objects, in place
  // ---------------------------------------------------------------------------------------

  /** The statements the objects issue. A write may be rejected for reasons of the server's own. */
  class Server {
    var db: Db

    constructor (contents: Db)
      ensures db == contents
    {
      db := contents;
    }

    method ReplaceSeason(f: Fields, fault: bool) returns (inserted: bool)
      modifies this
      ensures inserted <==> !fault && Insertable(old(db), f)
      ensures db == if inserted then ReplacedSeason(old(db), RowId(old(db), f), SeasonRow(f.championship.value, f.year))
                    else old(db)
    {
      inserted := !fault && Insertable(db, f);
      if inserted {
        db := ReplacedSeason(db, RowId(db, f), SeasonRow(f.championship.value, f.year));
      }
    }

    method ReplaceLink(season: Option<Id>, club: Option<Id>, fault: bool) returns (inserted: bool)
      modifies this
      ensures inserted <==> !fault && Linkable(old(db), season, club)
      ensures db == if inserted then Linked(old(db), season.value, club.value) else old(db)
    {
      inserted := !fault && Linkable(db, season, club);
      if inserted {
        db := Linked(db, season.value, club.value);
      }
    }

    method DeleteSeasons(f: Fields)
      modifies this
      ensures db == RemovedSeason(old(db), f)
    {
      db := RemovedSeason(db, f);
    }

    /** Some row of this championship and year. */
    method SelectSeason(row: SeasonRow) returns (id: Option<Id>)
      ensures match id
              case None => forall k <- db.seasons :: db.seasons[k] != row
              case Some(k) => k in db.seasons && db.seasons[k] == row
    {
      if k :| k in db.seasons && db.seasons[k] == row {
        return Some(k);
      }
      return None;
    }

    /** The links of a season, in no particular order. */
    method SelectClubs(season: Id) returns (ids: seq<Id>)
      ensures forall c :: c in ids <==> c in Clubs(db, season)
      ensures forall i, j :: 0 <= i < j < |ids| ==> ids[i] != ids[j]
    {
      ids := [];
      var left := Clubs(db, season);
      while left != {}
        invariant forall c :: c in Clubs(db, season) <==> c in left || c in ids
        invariant forall c <- ids :: c !in left
        invariant forall i, j :: 0 <= i < j < |ids| ==> ids[i] != ids[j]
        decreases |left|
      {
        var c :| c in left;
        ids, left := ids + [c], left - {c};
      }
    }
  }

  class SeasonObject {
    var fields: Fields
    var id: Option<Id>
    var championship: Option<Id>
    var year: Text
    var clubs: seq<Club>

    ghost function Contents(): Season
      reads this
    {
      Season(fields, id, championship, year, clubs)
    }

    /** The season of this id, for a championship object that has no id of its own. */
    constructor ById(server: Server, key: Id)
      requires Valid(server.db)
      ensures SeasonById(server.db, key, Contents())
    {
      fields, id, championship, year, clubs := NO_FIELDS, Some(key), None, "", [];
      new;
      if key in server.db.seasons {
        var row := server.db.seasons[key];
        fields := Fields(Some(key), Some(row.championship), row.year);
        id, year := fields.id, fields.year;
        StartRelated(server, key);
      } else {
        fields := fields.(id := Some(key));
      }
    }

    /** The season of a championship in a year; any of its seasons when no year is given. */
    constructor ByYear(server: Server, cs: Option<Id>, y: Text)
      requires Valid(server.db)
      ensures (exists k :: Loads(server.db, k, Contents()) && cs == fields.championship && (y == "" || year == y))
              || (clubs == [] && year == y && id.None?
                  && fields == (if cs.None? then NO_FIELDS else Fields(None, cs, y))
                  && forall k <- server.db.seasons ::
                        Some(server.db.seasons[k].championship) == cs ==> y != "" && server.db.seasons[k].year != y)
      ensures championship == cs
    {
      fields, id, championship, year, clubs := NO_FIELDS, None, cs, y, [];
      new;
      if cs.Some? {
        if k :| k in server.db.seasons && server.db.seasons[k].championship == cs.value
                && (y == "" || server.db.seasons[k].year == y) {
          fields := Fields(Some(k), cs, server.db.seasons[k].year);
          id, year := fields.id, fields.year;
          StartRelated(server, k);
          assert Loads(server.db, k, Contents());
        } else {
          fields := Fields(None, cs, y);
        }
      }
    }

    method Remove(server: Server)
      modifies this, server
      ensures server.db == RemovedSeason(old(server.db), old(fields))
      ensures fields == NO_FIELDS && id == None && year == "" && clubs == old(clubs)
    {
      server.DeleteSeasons(fields);
      fields := NO_FIELDS;
      id, year := fields.id, fields.year;
    }

    method StartRelated(server: Server, key: Id)
      requires Valid(server.db) && key in server.db.seasons && clubs == []
      modifies this`clubs
      ensures Lists(server.db, key, clubs)
    {
      var ids := server.SelectClubs(key);
      forall c: Id | c in ids
        ensures c in server.db.clubs
      {
        ClubsOfLink(server.db, Link(key, c));
      }
      var i := 0;
      while i < |ids|
        invariant 0 <= i <= |ids| && |clubs| == i
        invariant forall j :: 0 <= j < i ==> clubs[j] == ClubOf(server.db, ids[j])
      {
        clubs := clubs + [ClubById(server.db, ids[i])];
        i := i + 1;
      }
      forall c: Id
        ensures c in Clubs(server.db, key) <==> exists j :: 0 <= j < |clubs| && clubs[j].id == Some(c)
      {
        if c in ids {
          var j :| 0 <= j < |ids| && ids[j] == c;
          assert clubs[j].id == Some(c);
        }
      }
    }

    method AddClub(c: Club)
      modifies this`clubs
      ensures clubs == Added(old(clubs), c)
      ensures if exists i :: 0 <= i < |old(clubs)| && old(clubs)[i].name == c.name && old(clubs)[i].country == c.country
              then clubs == old(clubs) else clubs == old(clubs) + [c]
    {
      var i := 0;
      while i < |clubs| && !SameClub(clubs[i], c)
        invariant 0 <= i <= |clubs|
        invariant forall j :: 0 <= j < i ==> !SameClub(clubs[j], c)
      {
        i := i + 1;
      }
      if i == |clubs| {
        clubs := clubs + [c];
      }
    }

    method RemoveClub(c: Club) returns (removed: bool)
      modifies this`clubs
      ensures clubs == RemovedClub(old(clubs), c)
      ensures removed <==> exists j :: 0 <= j < |old(clubs)| && SameClub(old(clubs)[j], c)
      ensures if exists j :: 0 <= j < |old(clubs)| && old(clubs)[j].name == c.name && old(clubs)[j].country == c.country
              then WithoutFirst(old(clubs), c, clubs) else clubs == old(clubs)
    {
      var i := 0;
      while i < |clubs| && !SameClub(clubs[i], c)
        invariant 0 <= i <= |clubs|
        invariant forall j :: 0 <= j < i ==> !SameClub(clubs[j], c)
      {
        i := i + 1;
      }
      RemovedAt(clubs, c, i);
      assert i < |clubs| ==> WithoutAt(clubs, c, clubs[..i] + clubs[i + 1..], i);
      removed := i < |clubs|;
      if removed {
        clubs := clubs[..i] + clubs[i + 1..];
      }
    }

    method Populate()
      modifies this`fields
      ensures fields == Populated(old(Contents()))
    {
      if id.Some? {
        fields := fields.(id := id);
      }
      if championship.Some? {
        fields := fields.(championship := championship);
      }
      if year != "" {
        fields := fields.(year := year);
      }
    }

    /** The links of all clubs; the result is that of the last. */
    method SaveRelated(server: Server, faults: seq<bool>) returns (result: bool)
      requires |faults| == |clubs|
      modifies server
      ensures (server.db, result) == LinkAll(old(server.db), id, clubs, faults, true)
    {
      result := true;
      var i := 0;
      while i < |clubs|
        invariant 0 <= i <= |clubs|
        invariant LinkAll(server.db, id, clubs[i..], faults[i..], result)
                  == LinkAll(old(server.db), id, clubs, faults, true)
      {
        assert clubs[i..][1..] == clubs[i + 1..] && faults[i..][1..] == faults[i + 1..];
        result := server.ReplaceLink(id, clubs[i].id, faults[i]);
        i := i + 1;
      }
    }

    /** The row is replaced and read back by championship and year, and then the links are written. */
    method Save(server: Server, faults: seq<bool>) returns (ok: bool)
      requires Valid(server.db) && |faults| == 1 + |clubs|
      modifies this, server
      ensures Saved(server.db, Contents(), ok) == SavedSeason(old(server.db), old(Contents()), faults)
    {
      Populate();
      var inserted := server.ReplaceSeason(fields, faults[0]);
      if !inserted {
        return false;
      }
      ghost var before := old(server.db);
      ReplaceIsValid(before, RowId(before, fields), SeasonRow(fields.championship.value, fields.year));
      var key := server.SelectSeason(SeasonRow(fields.championship.value, fields.year));
      if key.None? {
        return false;
      }
      fields := fields.(id := key);
      id, year := fields.id, fields.year;
      ok := SaveRelated(server, faults[1..]);
    }
  }

  /** The request to add a club to a season, on the server. */
  method HandleNewSeasonClub(server: Server, season: Id, club: Id) returns (id: Option<Id>, success: bool)
    requires Valid(server.db)
    modifies server
    ensures id == Some(season)
    ensures success <==> season in old(server.db).seasons
                         && (club in old(server.db).clubs
                             || exists c <- Clubs(old(server.db), season) :: old(server.db).clubs[c] == ClubRow("", ""))
    ensures server.db == if season in old(server.db).seasons && club in old(server.db).clubs
                         then Linked(old(server.db), season, club) else old(server.db)
  {
    var ss := new SeasonObject.ById(server, season);
    ghost var loaded := ss.Contents();
    ss.AddClub(ClubById(server.db, club));
    success := ss.Save(server, NoFaults(1 + |ss.clubs|));
    NewSeasonClubAddsExactlyTheClub(old(server.db), season, loaded, club);
    if season in old(server.db).seasons {
      NamelessIsLinked(old(server.db), season, loaded.clubs);
    }
    id := ss.id;
  }
}
