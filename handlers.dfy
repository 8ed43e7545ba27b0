/**
 * The handlers of index.php: `getTeams`, `getTeamPlayers`, `getPlayer`,
 * `addPlayer`, `updatePlayer` and `deletePlayer`.
 *
 * Each handler is specified by a function of the store before the request
 * (`...Result` for the read-only ones, `...Outcome` giving the response and
 * the store after it for the others) and implemented as a method on the
 * `Database` that issues the same statements in the same order.
 */
module Handlers {
  import opened Php
  import opened Store

  // ---------------------------------------------------------------------
  // The decoded request body

  /** A value of a decoded JSON object: `null`, or anything else as its text. */
  datatype Json = JNull | JValue(text: string)

  /** The result of `json_decode($body, true)`: a decoding error, or an
      object's members (a valid document that is not an object has none). */
  datatype Body = Malformed | Decoded(members: map<string, Json>)

  /** `isset($data[key])`: present and not null. */
  predicate IsSet(body: Body, key: string) {
    body.Decoded? && key in body.members && body.members[key].JValue?
  }

  function Field(body: Body, key: string): string
    requires IsSet(body, key)
  {
    body.members[key].text
  }

  // ---------------------------------------------------------------------
  // Responses

  /** One element of the `getTeams` list. */
  datatype TeamEntry = TeamEntry(id: Id, name: string, sport: string, playersPath: string)

  /** The JSON document a handler echoes. */
  datatype Payload =
    | Error(error: string)
    | Message(message: string)
    | Created(message: string, playerId: string, playerPath: string)
    | PlayerRecord(id: Id, profile: Profile)
    | PlayerList(roster: map<Id, Profile>)
    | TeamList(teams: seq<TeamEntry>)

  /** The status code passed to `http_response_code` and the echoed document. */
  datatype Response = Response(status: int, payload: Payload)

  const TeamNotFound := Response(404, Error("Team not found"))
  const PlayerNotFound := Response(404, Error("Player not found"))
  const InvalidPlayerData := Response(400, Error("Invalid player data"))
  const InvalidJson := Response(400, Error("Invalid JSON data"))
  const NoFieldsToUpdate := Response(400, Error("No fields to update"))
  const PlayerUpdated := Response(200, Message("Player updated successfully"))
  const PlayerDeleted := Response(200, Message("Player deleted successfully"))

  /** The `players_path` link of a team. */
  function PlayersPath(id: Id): string {
    "teams/" + Decimal(id) + "/players"
  }

  /** The `player_path` link of a new player, built from the team segment as
      the client sent it and the new id. */
  function PlayerPath(team: string, playerId: string): string {
    "teams/" + team + "/players/" + playerId
  }

  // ---------------------------------------------------------------------
  // getTeams

  /** `entries` lists every team exactly once, with its columns and a
      `players_path` naming it. */
  predicate ListsTeams(t: Tables, entries: seq<TeamEntry>) {
    (forall i :: 0 <= i < |entries| ==>
       entries[i].id in t.teams && t.teams[entries[i].id] == Team(entries[i].name, entries[i].sport) &&
       entries[i].playersPath == PlayersPath(entries[i].id)) &&
    (forall i, j :: 0 <= i < j < |entries| ==> entries[i].id != entries[j].id) &&
    (forall id :: id in t.teams ==> exists i :: 0 <= i < |entries| && entries[i].id == id)
  }

  /** Lists the teams, then sets `players_path` on each entry in place. */
  method GetTeams(db: Database) returns (resp: Response)
    ensures resp.status == 200 && resp.payload.TeamList?
    ensures ListsTeams(db.State(), resp.payload.teams)
  {
    var rows := db.SelectTeams();
    var teams := seq(|rows|, i requires 0 <= i < |rows| => TeamEntry(rows[i].id, rows[i].team.name, rows[i].team.sport, ""));
    for i := 0 to |teams|
      invariant |teams| == |rows|
      invariant forall k :: 0 <= k < |teams| ==>
                  teams[k].id == rows[k].id && Team(teams[k].name, teams[k].sport) == rows[k].team
      invariant forall k :: 0 <= k < i ==> teams[k].playersPath == PlayersPath(teams[k].id)
    {
      teams := teams[i := teams[i].(playersPath := PlayersPath(teams[i].id))];
    }
    EntriesOfRows(db.State(), rows, teams);
    resp := Response(200, TeamList(teams));
  }

  /** Entries copied one for one from a full listing of the team rows, each
      with its `players_path`, list the teams. */
  lemma EntriesOfRows(t: Tables, rows: seq<TeamRow>, entries: seq<TeamEntry>)
    requires ListsAll(rows, t.teams) && |entries| == |rows|
    requires forall k :: 0 <= k < |entries| ==>
               entries[k].id == rows[k].id && Team(entries[k].name, entries[k].sport) == rows[k].team &&
               entries[k].playersPath == PlayersPath(entries[k].id)
    ensures ListsTeams(t, entries)
  {
    forall id | id in t.teams ensures exists i :: 0 <= i < |entries| && entries[i].id == id {
      var i :| 0 <= i < |rows| && rows[i].id == id;
      assert entries[i].id == id;
    }
  }

  // ---------------------------------------------------------------------
  // getTeamPlayers and getPlayer

  function ListPlayersResult(t: Tables, team: Option<string>): Response {
    if !TeamExists(t, team) then TeamNotFound
    else Response(200, PlayerList(Roster(t, team)))
  }

  function GetPlayerResult(t: Tables, team: Option<string>, player: Option<string>): Response {
    if !TeamExists(t, team) then TeamNotFound
    else match FindPlayer(t, team, player)
      case None => PlayerNotFound
      case Some(id) => Response(200, PlayerRecord(id, t.players[id].profile))
  }

  method GetTeamPlayers(db: Database, team: Option<string>) returns (resp: Response)
    ensures resp == ListPlayersResult(db.State(), team)
  {
    var n := db.TeamRowCount(team);
    if n == 0 {
      return TeamNotFound;
    }
    resp := Response(200, PlayerList(Roster(db.State(), team)));
  }

  method GetPlayer(db: Database, team: Option<string>, player: Option<string>) returns (resp: Response)
    ensures resp == GetPlayerResult(db.State(), team, player)
  {
    var n := db.TeamRowCount(team);
    if n == 0 {
      return TeamNotFound;
    }
    var m := db.PlayerRowCount(team, player);
    if m == 0 {
      return PlayerNotFound;
    }
    var id := BoundKey(player).value;
    resp := Response(200, PlayerRecord(id, db.players[id].profile));
  }

  // ---------------------------------------------------------------------
  // addPlayer

  /** All four player fields are set. */
  predicate Complete(body: Body) {
    IsSet(body, "surname") && IsSet(body, "given_names") &&
    IsSet(body, "nationality") && IsSet(body, "date_of_birth")
  }

  function NewProfile(body: Body): Profile
    requires Complete(body)
  {
    Profile(Field(body, "surname"), Field(body, "given_names"), Field(body, "nationality"), Field(body, "date_of_birth"))
  }

  /** The response to adding a player, and the store afterwards. */
  function AddPlayerOutcome(t: Tables, team: Option<string>, body: Body): (Response, Tables) {
    if !TeamExists(t, team) then (TeamNotFound, t)
    else if !Complete(body) then (InvalidPlayerData, t)
    else
      var id := Decimal(t.nextId);
      (Response(201, Created("Player added successfully", id, PlayerPath(team.value, id))),
       InsertRow(t, BoundKey(team).value, NewProfile(body)))
  }

  method AddPlayer(db: Database, team: Option<string>, body: Body) returns (resp: Response)
    requires db.Valid()
    modifies db
    ensures db.Valid()
    ensures (resp, db.State()) == AddPlayerOutcome(old(db.State()), team, body)
  {
    var n := db.TeamRowCount(team);
    if n == 0 {
      return TeamNotFound;
    }
    if !Complete(body) {
      return InvalidPlayerData;
    }
    InsertRowFresh(db.State(), BoundKey(team).value, NewProfile(body));
    var id := db.Insert(BoundKey(team).value, NewProfile(body));
    var playerId := Decimal(id);
    resp := Response(201, Created("Player added successfully", playerId, PlayerPath(team.value, playerId)));
  }

  // ---------------------------------------------------------------------
  // updatePlayer

  /** The fields a request body sets, each present or absent. */
  datatype Patch = Patch(surname: Option<string>, givenNames: Option<string>,
                         nationality: Option<string>, dateOfBirth: Option<string>)

  function Given(body: Body, key: string): Option<string> {
    if IsSet(body, key) then Some(Field(body, key)) else None
  }

  function PatchOf(body: Body): Patch {
    Patch(Given(body, "surname"), Given(body, "given_names"), Given(body, "nationality"), Given(body, "date_of_birth"))
  }

  predicate IsEmptyPatch(patch: Patch) {
    patch.surname.None? && patch.givenNames.None? && patch.nationality.None? && patch.dateOfBirth.None?
  }

  function Over(current: string, given: Option<string>): string {
    if given.Some? then given.value else current
  }

  /** A partial update: each field the patch sets is replaced, the others kept. */
  function ApplyPatch(p: Profile, patch: Patch): Profile {
    Profile(Over(p.surname, patch.surname), Over(p.givenNames, patch.givenNames),
            Over(p.nationality, patch.nationality), Over(p.dateOfBirth, patch.dateOfBirth))
  }

  /** Builds the SET list of the UPDATE one present field at a time. The
      list is empty exactly when the body sets no field, and applying it to
      any row is the partial update the body describes. */
  method BuildAssignments(body: Body) returns (sets: seq<Assignment>)
    ensures sets == [] <==> IsEmptyPatch(PatchOf(body))
    ensures forall p :: AssignAll(p, sets) == ApplyPatch(p, PatchOf(body))
  {
    sets := [];
    ghost var done := Patch(None, None, None, None);
    if IsSet(body, "surname") {
      var a := Assignment(Surname, Field(body, "surname"));
      Extend(sets, a, done, done.(surname := Some(a.value)));
      sets, done := sets + [a], done.(surname := Some(a.value));
    }
    if IsSet(body, "given_names") {
      var a := Assignment(GivenNames, Field(body, "given_names"));
      Extend(sets, a, done, done.(givenNames := Some(a.value)));
      sets, done := sets + [a], done.(givenNames := Some(a.value));
    }
    if IsSet(body, "nationality") {
      var a := Assignment(Nationality, Field(body, "nationality"));
      Extend(sets, a, done, done.(nationality := Some(a.value)));
      sets, done := sets + [a], done.(nationality := Some(a.value));
    }
    if IsSet(body, "date_of_birth") {
      var a := Assignment(DateOfBirth, Field(body, "date_of_birth"));
      Extend(sets, a, done, done.(dateOfBirth := Some(a.value)));
      sets, done := sets + [a], done.(dateOfBirth := Some(a.value));
    }
    assert done == PatchOf(body);
  }

  /** One step of `BuildAssignments`: appending an assignment applies it on
      top of the patch built so far. */
  lemma Extend(sets: seq<Assignment>, a: Assignment, before: Patch, after: Patch)
    requires forall p :: AssignAll(p, sets) == ApplyPatch(p, before)
    requires forall p :: ApplyPatch(ApplyPatch(p, before), PatchFor(a)) == ApplyPatch(p, after)
    ensures forall p :: AssignAll(p, sets + [a]) == ApplyPatch(p, after)
  {
    forall p ensures AssignAll(p, sets + [a]) == ApplyPatch(p, after) {
      AssignAllSnoc(p, sets, a);
      AssignPatch(AssignAll(p, sets), a);
    }
  }

  /** The patch that sets just the column of one assignment. */
  function PatchFor(a: Assignment): Patch {
    match a.column
    case Surname => Patch(Some(a.value), None, None, None)
    case GivenNames => Patch(None, Some(a.value), None, None)
    case Nationality => Patch(None, None, Some(a.value), None)
    case DateOfBirth => Patch(None, None, None, Some(a.value))
  }

  lemma AssignPatch(p: Profile, a: Assignment)
    ensures Assign(p, a) == ApplyPatch(p, PatchFor(a))
  {
  }

  /** The store after the UPDATE, described by the patch. */
  function PatchRows(t: Tables, team: Option<string>, player: Option<string>, patch: Patch): Tables {
    t.(players := map id | id in t.players ::
                    if Matches(t, team, player, id)
                    then t.players[id].(profile := ApplyPatch(t.players[id].profile, patch))
                    else t.players[id])
  }

  /** The response to updating a player, and the store afterwards. */
  function UpdatePlayerOutcome(t: Tables, team: Option<string>, player: Option<string>, body: Body): (Response, Tables) {
    if !TeamExists(t, team) then (TeamNotFound, t)
    else if FindPlayer(t, team, player).None? then (PlayerNotFound, t)
    else if body.Malformed? then (InvalidJson, t)
    else if IsEmptyPatch(PatchOf(body)) then (NoFieldsToUpdate, t)
    else (PlayerUpdated, PatchRows(t, team, player, PatchOf(body)))
  }

  /** The UPDATE built from a SET list has the effect of the patch it was built from. */
  lemma UpdateRowsPatch(t: Tables, team: Option<string>, player: Option<string>, sets: seq<Assignment>, patch: Patch)
    requires forall p :: AssignAll(p, sets) == ApplyPatch(p, patch)
    ensures UpdateRows(t, team, player, sets) == PatchRows(t, team, player, patch)
  {
    var u := UpdateRows(t, team, player, sets).players;
    var v := PatchRows(t, team, player, patch).players;
    assert u.Keys == v.Keys;
    forall id | id in u ensures u[id] == v[id] {
      assert AssignAll(t.players[id].profile, sets) == ApplyPatch(t.players[id].profile, patch);
    }
  }

  method UpdatePlayer(db: Database, team: Option<string>, player: Option<string>, body: Body) returns (resp: Response)
    requires db.Valid()
    modifies db
    ensures db.Valid()
    ensures (resp, db.State()) == UpdatePlayerOutcome(old(db.State()), team, player, body)
  {
    var n := db.TeamRowCount(team);
    if n == 0 {
      return TeamNotFound;
    }
    var m := db.PlayerRowCount(team, player);
    if m == 0 {
      return PlayerNotFound;
    }
    if body.Malformed? {
      return InvalidJson;
    }
    var sets := BuildAssignments(body);
    if sets == [] {
      return NoFieldsToUpdate;
    }
    UpdateRowsPatch(db.State(), team, player, sets, PatchOf(body));
    UpdateRowsConsistent(db.State(), team, player, sets);
    db.Update(team, player, sets);
    resp := PlayerUpdated;
  }

  // ---------------------------------------------------------------------
  // deletePlayer

  /** The response to deleting a player, and the store afterwards. */
  function DeletePlayerOutcome(t: Tables, team: Option<string>, player: Option<string>): (Response, Tables) {
    if !TeamExists(t, team) then (TeamNotFound, t)
    else if FindPlayer(t, team, player).None? then (PlayerNotFound, t)
    else (PlayerDeleted, DeleteRows(t, team, player))
  }

  method DeletePlayer(db: Database, team: Option<string>, player: Option<string>) returns (resp: Response)
    requires db.Valid()
    modifies db
    ensures db.Valid()
    ensures (resp, db.State()) == DeletePlayerOutcome(old(db.State()), team, player)
  {
    var n := db.TeamRowCount(team);
    if n == 0 {
      return TeamNotFound;
    }
    var m := db.PlayerRowCount(team, player);
    if m == 0 {
      return PlayerNotFound;
    }
    DeleteRowsConsistent(db.State(), team, player);
    db.Delete(team, player);
    resp := PlayerDeleted;
  }
}
