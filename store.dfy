/**
 * The two tables the service reads and writes (`teams` and `players`) and
 * the SQL statements index.php sends to them, as an in-memory store.
 *
 * Every statement binds the path segments as strings and compares them with
 * the integer key columns `team_id` and `player_id`; `BoundKey` says which
 * key such a string selects.
 */
module Store {
  import opened Php

  type Id = nat

  /** The four columns of a player row that a client can set. */
  datatype Profile = Profile(surname: string, givenNames: string, nationality: string, dateOfBirth: string)

  /** A row of `players`, keyed by `player_id`. */
  datatype Player = Player(teamId: Id, profile: Profile)

  /** A row of `teams`, keyed by `team_id`. */
  datatype Team = Team(name: string, sport: string)

  /** Both tables, plus the next value of the `player_id` auto-increment counter. */
  datatype Tables = Tables(teams: map<Id, Team>, players: map<Id, Player>, nextId: nat)

  /** The store's integrity: the counter is ahead of every player id, and
      every player belongs to an existing team. */
  predicate Consistent(t: Tables) {
    t.nextId >= 1 &&
    forall id :: id in t.players ==> id < t.nextId && t.players[id].teamId in t.teams
  }

  // ---------------------------------------------------------------------
  // Binding a string parameter against an integer key column

  /** The value of a string of decimal digits (leading zeros allowed). */
  function DigitsValue(s: string): nat
    requires AllDigits(s)
  {
    if s == [] then 0
    else 10 * DigitsValue(s[..|s| - 1]) + (s[|s| - 1] as int - '0' as int)
  }

  /** The key a bound parameter selects in `WHERE key_column = ?`: a
      non-empty string of digits selects its value; null and any other
      string select no row. */
  function BoundKey(param: Option<string>): (r: Option<Id>)
    ensures r.Some? ==> param.Some? && param.value != [] && AllDigits(param.value)
  {
    match param
    case None => None
    case Some(s) => if s != [] && AllDigits(s) then Some(DigitsValue(s)) else None
  }

  /** Reading back a printed integer gives the integer. */
  lemma {:induction false} DigitsValueDecimal(n: nat)
    ensures DigitsValue(Decimal(n)) == n
  {
    if n >= 10 {
      DigitsValueDecimal(n / 10);
      var s := Decimal(n);
      assert s[..|s| - 1] == Decimal(n / 10);
    }
  }

  /** The string form of an id selects that id. */
  lemma BoundKeyDecimal(n: nat)
    ensures BoundKey(Some(Decimal(n))) == Some(n)
  {
    DigitsValueDecimal(n);
  }

  /** Leading zeros do not change the key a parameter selects. */
  lemma {:induction false} BoundKeyLeadingZero(s: string)
    requires s != [] && AllDigits(s)
    ensures BoundKey(Some("0" + s)) == BoundKey(Some(s))
  {
    ZeroPrefixValue(s);
  }

  lemma {:induction false} ZeroPrefixValue(s: string)
    requires AllDigits(s)
    ensures AllDigits("0" + s) && DigitsValue("0" + s) == DigitsValue(s)
  {
    var z := "0" + s;
    assert AllDigits(z) by {
      forall i | 0 <= i < |z| ensures IsDigit(z[i]) {
        if i > 0 { assert z[i] == s[i - 1]; }
      }
    }
    if s != [] {
      var p := s[..|s| - 1];
      ZeroPrefixValue(p);
      assert z[..|z| - 1] == "0" + p;
      assert z[|z| - 1] == s[|s| - 1];
    }
  }

  // ---------------------------------------------------------------------
  // WHERE clauses

  /** `SELECT ... FROM teams WHERE team_id = ?` finds a row. */
  predicate TeamExists(t: Tables, team: Option<string>) {
    BoundKey(team).Some? && BoundKey(team).value in t.teams
  }

  /** Player row `id` satisfies `WHERE team_id = ? AND player_id = ?`. */
  predicate Matches(t: Tables, team: Option<string>, player: Option<string>, id: Id) {
    id in t.players && BoundKey(team) == Some(t.players[id].teamId) && BoundKey(player) == Some(id)
  }

  /** All rows satisfying `WHERE team_id = ? AND player_id = ?`. */
  function MatchingRows(t: Tables, team: Option<string>, player: Option<string>): set<Id> {
    set id | id in t.players && Matches(t, team, player, id)
  }

  /** The row that `WHERE team_id = ? AND player_id = ?` fetches. */
  function FindPlayer(t: Tables, team: Option<string>, player: Option<string>): Option<Id> {
    var k := BoundKey(player);
    if k.Some? && Matches(t, team, player, k.value) then k else None
  }

  /** `player_id` is the primary key: the WHERE clause selects at most the
      one row that `FindPlayer` fetches, and that row belongs to the team. */
  lemma MatchingRowsUnique(t: Tables, team: Option<string>, player: Option<string>)
    ensures MatchingRows(t, team, player) ==
              if FindPlayer(t, team, player).Some? then {FindPlayer(t, team, player).value} else {}
    ensures Consistent(t) && FindPlayer(t, team, player).Some? ==> TeamExists(t, team)
  {
    var rows := MatchingRows(t, team, player);
    var f := FindPlayer(t, team, player);
    if f.Some? {
      forall id | id in rows ensures id == f.value {
        assert BoundKey(player) == Some(id);
      }
      assert f.value in rows;
    }
  }

  /** `SELECT ... FROM players WHERE team_id = ?`: the team's players by id. */
  function Roster(t: Tables, team: Option<string>): map<Id, Profile> {
    map id | id in t.players && BoundKey(team) == Some(t.players[id].teamId) :: t.players[id].profile
  }

  /** The team's player list and the single-player lookup agree: a player
      is listed under a team segment exactly when asking for it by its id
      under that segment finds it. */
  lemma RosterMatchesFind(t: Tables, team: Option<string>, id: Id)
    ensures FindPlayer(t, team, Some(Decimal(id))) == if id in Roster(t, team) then Some(id) else None
  {
    BoundKeyDecimal(id);
  }

  // ---------------------------------------------------------------------
  // INSERT, UPDATE and DELETE

  /** `INSERT INTO players ...`: a new row under the next auto-increment id. */
  function InsertRow(t: Tables, teamId: Id, profile: Profile): Tables {
    t.(players := t.players[t.nextId := Player(teamId, profile)], nextId := t.nextId + 1)
  }

  /** The columns of `SET column = ?`. */
  datatype Column = Surname | GivenNames | Nationality | DateOfBirth

  /** One `column = ?` of an UPDATE, with its bound value. */
  datatype Assignment = Assignment(column: Column, value: string)

  function Assign(p: Profile, a: Assignment): Profile {
    match a.column
    case Surname => p.(surname := a.value)
    case GivenNames => p.(givenNames := a.value)
    case Nationality => p.(nationality := a.value)
    case DateOfBirth => p.(dateOfBirth := a.value)
  }

  /** The effect of a whole SET list on one row, assignment by assignment. */
  function AssignAll(p: Profile, sets: seq<Assignment>): Profile
    decreases |sets|
  {
    if sets == [] then p else AssignAll(Assign(p, sets[0]), sets[1..])
  }

  /** Appending `column = ?` to a SET list applies it last. */
  lemma {:induction false} AssignAllSnoc(p: Profile, sets: seq<Assignment>, a: Assignment)
    ensures AssignAll(p, sets + [a]) == Assign(AssignAll(p, sets), a)
    decreases |sets|
  {
    if sets != [] {
      assert (sets + [a])[1..] == sets[1..] + [a];
      AssignAllSnoc(Assign(p, sets[0]), sets[1..], a);
    } else {
      assert [a][1..] == [];
    }
  }

  /** `UPDATE players SET ... WHERE team_id = ? AND player_id = ?`. */
  function UpdateRows(t: Tables, team: Option<string>, player: Option<string>, sets: seq<Assignment>): Tables {
    t.(players := map id | id in t.players ::
                    if Matches(t, team, player, id)
                    then t.players[id].(profile := AssignAll(t.players[id].profile, sets))
                    else t.players[id])
  }

  /** `DELETE FROM players WHERE team_id = ? AND player_id = ?`. */
  function DeleteRows(t: Tables, team: Option<string>, player: Option<string>): Tables {
    t.(players := t.players - MatchingRows(t, team, player))
  }

  /** Inserting under the counter adds one fresh row and keeps the store consistent. */
  lemma InsertRowFresh(t: Tables, teamId: Id, profile: Profile)
    requires Consistent(t) && teamId in t.teams
    ensures t.nextId !in t.players
    ensures |InsertRow(t, teamId, profile).players| == |t.players| + 1
    ensures Consistent(InsertRow(t, teamId, profile))
  {
    assert t.nextId !in t.players;
  }

  /** An UPDATE changes no row's team and keeps the store consistent. */
  lemma UpdateRowsConsistent(t: Tables, team: Option<string>, player: Option<string>, sets: seq<Assignment>)
    requires Consistent(t)
    ensures UpdateRows(t, team, player, sets).players.Keys == t.players.Keys
    ensures forall id :: id in t.players ==>
              UpdateRows(t, team, player, sets).players[id].teamId == t.players[id].teamId
    ensures Consistent(UpdateRows(t, team, player, sets))
  {
    var u := UpdateRows(t, team, player, sets);
    forall id | id in u.players ensures u.players[id].teamId == t.players[id].teamId {
    }
  }

  /** A DELETE keeps the store consistent. */
  lemma DeleteRowsConsistent(t: Tables, team: Option<string>, player: Option<string>)
    requires Consistent(t)
    ensures Consistent(DeleteRows(t, team, player))
  {
  }

  // ---------------------------------------------------------------------
  // The database the handlers talk to

  /** A row of `SELECT team_id, name, sport FROM teams`. */
  datatype TeamRow = TeamRow(id: Id, team: Team)

  /** `rows` lists every team exactly once, with its columns. */
  predicate ListsAll(rows: seq<TeamRow>, teams: map<Id, Team>) {
    (forall i :: 0 <= i < |rows| ==> rows[i].id in teams && teams[rows[i].id] == rows[i].team) &&
    (forall i, j :: 0 <= i < j < |rows| ==> rows[i].id != rows[j].id) &&
    (forall id :: id in teams ==> exists i :: 0 <= i < |rows| && rows[i].id == id)
  }

  class Database {
    var teams: map<Id, Team>
    var players: map<Id, Player>
    var nextId: nat

    function State(): Tables
      reads this
    {
      Tables(teams, players, nextId)
    }

    predicate Valid()
      reads this
    {
      Consistent(State())
    }

    /** A database holding the given teams and no players yet. */
    constructor (seed: map<Id, Team>)
      ensures State() == Tables(seed, map[], 1)
      ensures Valid()
    {
      teams := seed;
      players := map[];
      nextId := 1;
    }

    /** `rowCount()` of `SELECT team_id FROM teams WHERE team_id = ?`. */
    method TeamRowCount(team: Option<string>) returns (n: nat)
      ensures n <= 1
      ensures n == 1 <==> TeamExists(State(), team)
    {
      var k := BoundKey(team);
      if k.Some? && k.value in teams {
        n := 1;
      } else {
        n := 0;
      }
    }

    /** `rowCount()` of `SELECT player_id FROM players WHERE team_id = ? AND player_id = ?`. */
    method PlayerRowCount(team: Option<string>, player: Option<string>) returns (n: nat)
      ensures n <= 1
      ensures n == |MatchingRows(State(), team, player)|
      ensures n == 0 <==> FindPlayer(State(), team, player).None?
    {
      MatchingRowsUnique(State(), team, player);
      var k := BoundKey(player);
      if k.Some? && k.value in players && BoundKey(team) == Some(players[k.value].teamId) {
        n := 1;
      } else {
        n := 0;
      }
    }

    /** `SELECT team_id, name, sport FROM teams`: every team once, in an
        order the database chooses. */
    method SelectTeams() returns (rows: seq<TeamRow>)
      ensures ListsAll(rows, teams)
    {
      rows := [];
      var rest := teams.Keys;
      while rest != {}
        invariant rest <= teams.Keys
        invariant forall i :: 0 <= i < |rows| ==>
                    rows[i].id in teams && teams[rows[i].id] == rows[i].team && rows[i].id !in rest
        invariant forall i, j :: 0 <= i < j < |rows| ==> rows[i].id != rows[j].id
        invariant forall id :: id in teams && id !in rest ==> exists i :: 0 <= i < |rows| && rows[i].id == id
        decreases rest
      {
        var id :| id in rest;
        var before := rows;
        rows := rows + [TeamRow(id, teams[id])];
        forall x | x in teams && x !in rest - {id} ensures exists i :: 0 <= i < |rows| && rows[i].id == x {
          if x == id {
            assert rows[|rows| - 1].id == x;
          } else {
            var i :| 0 <= i < |before| && before[i].id == x;
            assert rows[i].id == x;
          }
        }
        rest := rest - {id};
      }
    }

    /** `INSERT INTO players ...` followed by `lastInsertId()`. */
    method Insert(teamId: Id, profile: Profile) returns (id: Id)
      modifies this
      ensures id == old(nextId)
      ensures old(Valid()) ==> id !in old(players)
      ensures State() == InsertRow(old(State()), teamId, profile)
    {
      id := nextId;
      players := players[id := Player(teamId, profile)];
      nextId := nextId + 1;
    }

    /** `UPDATE players SET ... WHERE team_id = ? AND player_id = ?`. */
    method Update(team: Option<string>, player: Option<string>, sets: seq<Assignment>)
      modifies this
      ensures State() == UpdateRows(old(State()), team, player, sets)
    {
      players := UpdateRows(State(), team, player, sets).players;
    }

    /** `DELETE FROM players WHERE team_id = ? AND player_id = ?`. */
    method Delete(team: Option<string>, player: Option<string>)
      modifies this
      ensures State() == DeleteRows(old(State()), team, player)
    {
      players := players - MatchingRows(State(), team, player);
    }
  }
}
