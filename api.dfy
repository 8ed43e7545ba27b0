/**
 * The top level of index.php: split the request into segments, dispatch on
 * them, and run the chosen handler against the store; and the properties of
 * a whole request, or of two requests in a row.
 */
module Api {
  import opened Php
  import opened Router
  import opened Store
  import opened Handlers

  const UnknownEndpoint := Response(404, Error("Endpoint not found"))
  const TeamsAreReadOnly := Response(405, Error("Team modifications are not supported"))
  const MethodRefused := Response(405, Error("Method not allowed"))

  /** A route served by one of the player handlers; all of them carry the team segment. */
  predicate PlayerRoute(route: Route) {
    route.ListPlayers? || route.ShowPlayer? || route.CreatePlayer? || route.PatchPlayer? || route.RemovePlayer?
  }

  /** The response to a routed request other than the team list, and the
      store afterwards. */
  function Serve(t: Tables, route: Route, body: Body): (Response, Tables)
    requires !route.ListTeams?
  {
    match route
    case EndpointNotFound => (UnknownEndpoint, t)
    case TeamsReadOnly => (TeamsAreReadOnly, t)
    case MethodNotAllowed => (MethodRefused, t)
    case ListPlayers(team) => (ListPlayersResult(t, team), t)
    case ShowPlayer(team, player) => (GetPlayerResult(t, team, player), t)
    case CreatePlayer(team) => AddPlayerOutcome(t, team, body)
    case PatchPlayer(team, player) => UpdatePlayerOutcome(t, team, player, body)
    case RemovePlayer(team, player) => DeletePlayerOutcome(t, team, player)
  }

  /** One request: `resource` is the `resource` query parameter when it is
      set, `path` the path of the request URI, `body` the decoded body. */
  method HandleRequest(db: Database, httpMethod: string, resource: Option<string>, path: string, body: Body)
    returns (resp: Response)
    requires db.Valid()
    modifies db
    ensures db.Valid()
    ensures var route := Dispatch(httpMethod, Segments(resource, path));
            if route.ListTeams?
            then db.State() == old(db.State()) && resp.status == 200 && resp.payload.TeamList? &&
                 ListsTeams(db.State(), resp.payload.teams)
            else (resp, db.State()) == Serve(old(db.State()), route, body)
  {
    var parts := Segments(resource, path);
    var route := Dispatch(httpMethod, parts);
    match route {
      case EndpointNotFound =>
        resp := UnknownEndpoint;
      case ListTeams =>
        resp := GetTeams(db);
      case TeamsReadOnly =>
        resp := TeamsAreReadOnly;
      case ListPlayers(team) =>
        resp := GetTeamPlayers(db, team);
      case ShowPlayer(team, player) =>
        resp := GetPlayer(db, team, player);
      case CreatePlayer(team) =>
        resp := AddPlayer(db, team, body);
      case PatchPlayer(team, player) =>
        resp := UpdatePlayer(db, team, player, body);
      case RemovePlayer(team, player) =>
        resp := DeletePlayer(db, team, player);
      case MethodNotAllowed =>
        resp := MethodRefused;
    }
  }

  // ---------------------------------------------------------------------
  // Properties of one request

  /** No request breaks the integrity of the store. */
  lemma ServePreservesConsistency(t: Tables, route: Route, body: Body)
    requires Consistent(t) && !route.ListTeams?
    ensures Consistent(Serve(t, route, body).1)
  {
    match route {
      case CreatePlayer(team) =>
        if TeamExists(t, team) && Complete(body) {
          InsertRowFresh(t, BoundKey(team).value, NewProfile(body));
        }
      case PatchPlayer(team, player) =>
        var u := PatchRows(t, team, player, PatchOf(body));
        forall id | id in u.players ensures id < u.nextId && u.players[id].teamId in u.teams {
          assert u.players[id].teamId == t.players[id].teamId;
        }
      case RemovePlayer(team, player) =>
        DeleteRowsConsistent(t, team, player);
      case _ =>
    }
  }

  /** A first segment other than "teams" is answered 404 without looking at
      the store or the body. */
  lemma UnknownEndpointFirst(httpMethod: string, parts: PhpArray, t: Tables, body: Body)
    requires Lookup(parts, 0) != Some("teams")
    ensures Serve(t, Dispatch(httpMethod, parts), body) == (UnknownEndpoint, t)
  {
  }

  /** When the team segment selects no team, every player handler answers
      404 "Team not found" and leaves the store as it was; the answer does
      not depend on the players or the body. */
  lemma {:induction false} MissingTeamShortCircuits(t: Tables, route: Route, body: Body, other: Tables, otherBody: Body)
    requires PlayerRoute(route) && !TeamExists(t, route.team)
    requires other.teams == t.teams
    ensures Serve(t, route, body) == (TeamNotFound, t)
    ensures Serve(other, route, otherBody) == (TeamNotFound, other)
  {
    assert !TeamExists(other, route.team);
  }

  /** A player is found only under its own team: asking for it under
      another existing team gives 404 "Player not found" and changes nothing. */
  lemma PlayerOfOtherTeamNotFound(t: Tables, team: Option<string>, id: Id, body: Body)
    requires TeamExists(t, team) && id in t.players
    requires BoundKey(team) != Some(t.players[id].teamId)
    ensures GetPlayerResult(t, team, Some(Decimal(id))) == PlayerNotFound
    ensures UpdatePlayerOutcome(t, team, Some(Decimal(id)), body) == (PlayerNotFound, t)
    ensures DeletePlayerOutcome(t, team, Some(Decimal(id))) == (PlayerNotFound, t)
  {
    BoundKeyDecimal(id);
  }

  /** Adding a player with a body that is not JSON, or that lacks one of the
      four fields or sets it to null, answers 400 and inserts nothing. */
  lemma AddRejectsIncompleteBody(t: Tables, team: Option<string>, body: Body, key: string)
    requires TeamExists(t, team)
    requires key in {"surname", "given_names", "nationality", "date_of_birth"}
    requires body.Malformed? || key !in body.members || body.members[key] == JNull
    ensures AddPlayerOutcome(t, team, body) == (InvalidPlayerData, t)
  {
    assert !IsSet(body, key);
  }

  /** A complete body inserts exactly one player, under a fresh id, with the
      four values of the body and the team the segment selects, and answers
      201 with that id and the link to it. */
  lemma AddInsertsOnePlayer(t: Tables, team: Option<string>, body: Body)
    requires Consistent(t) && TeamExists(t, team) && Complete(body)
    ensures var (resp, after) := AddPlayerOutcome(t, team, body);
            var id := t.nextId;
            id !in t.players && id >= 1 &&
            after.players == t.players[id := Player(BoundKey(team).value, Profile(
              Field(body, "surname"), Field(body, "given_names"),
              Field(body, "nationality"), Field(body, "date_of_birth")))] &&
            |after.players| == |t.players| + 1 &&
            after.teams == t.teams &&
            Consistent(after) &&
            resp.status == 201 && resp.payload.Created? &&
            resp.payload.playerId == Decimal(id) &&
            resp.payload.playerPath == "teams/" + team.value + "/players/" + Decimal(id)
  {
    InsertRowFresh(t, BoundKey(team).value, NewProfile(body));
  }

  /** Digits contain neither separator the router looks at. */
  lemma DigitsNoSeparators(s: string)
    requires AllDigits(s)
    ensures '/' !in s && '~' !in s
  {
    forall i | 0 <= i < |s| ensures s[i] != '/' && s[i] != '~' {
      assert IsDigit(s[i]);
    }
  }

  /** A new id is never 0, so its string form survives `array_filter`. */
  lemma NewIdTruthy(n: nat)
    requires n >= 1
    ensures Truthy(Decimal(n))
  {
    var d := Decimal(n);
    assert d[0] != '0';
  }

  /** Following the `player_path` a successful add returns, with GET, fetches
      the new player. In query-parameter mode it always does; in clean-URL
      mode it does unless the team segment was "0", which `array_filter`
      drops, so that the link then names no team. */
  lemma {:induction false} AddThenGet(t: Tables, ts: string, body: Body)
    requires Consistent(t) && TeamExists(t, Some(ts)) && Complete(body)
    ensures var (resp, after) := AddPlayerOutcome(t, Some(ts), body);
            var link := resp.payload.playerPath;
            var show := ShowPlayer(Some(ts), Some(Decimal(t.nextId)));
            Dispatch("GET", QuerySegments(link)) == show &&
            Dispatch("GET", CleanSegments(BasePath + link)) ==
              (if Truthy(ts) then show else ListPlayers(None)) &&
            GetPlayerResult(after, Some(ts), Some(Decimal(t.nextId))) ==
              Response(200, PlayerRecord(t.nextId, NewProfile(body))) &&
            ListPlayersResult(after, None) == TeamNotFound
  {
    var (resp, after) := AddPlayerOutcome(t, Some(ts), body);
    var id := t.nextId;
    var ps := Decimal(id);
    InsertRowFresh(t, BoundKey(Some(ts)).value, NewProfile(body));
    DigitsNoSeparators(ts);
    NewIdTruthy(id);
    BoundKeyDecimal(id);
    PlayerLinkRoutes(ts, ps);
    assert resp.payload.playerPath == "teams/" + ts + "/players/" + ps;
    assert FindPlayer(after, Some(ts), Some(ps)) == Some(id);
  }

  /** A body that is not JSON, or sets none of the four fields, is refused
      with 400 and the store is left as it was. */
  lemma UpdateRejections(t: Tables, team: Option<string>, player: Option<string>, body: Body)
    requires TeamExists(t, team) && FindPlayer(t, team, player).Some?
    ensures body.Malformed? ==> UpdatePlayerOutcome(t, team, player, body) == (InvalidJson, t)
    ensures body.Decoded? &&
            (forall key :: key in {"surname", "given_names", "nationality", "date_of_birth"} ==>
               key !in body.members || body.members[key] == JNull) ==>
            UpdatePlayerOutcome(t, team, player, body) == (NoFieldsToUpdate, t)
  {
    if body.Decoded? &&
       (forall key :: key in {"surname", "given_names", "nationality", "date_of_birth"} ==>
          key !in body.members || body.members[key] == JNull) {
      assert !IsSet(body, "surname") && !IsSet(body, "given_names");
      assert !IsSet(body, "nationality") && !IsSet(body, "date_of_birth");
    }
  }

  /** A successful update overwrites exactly the fields the body sets, on
      exactly the one player found; every other field, every other player,
      the teams and the id counter stay as they were. */
  lemma UpdateOverwritesPresentFields(t: Tables, team: Option<string>, player: Option<string>, body: Body)
    requires TeamExists(t, team) && FindPlayer(t, team, player).Some?
    requires body.Decoded? && !IsEmptyPatch(PatchOf(body))
    ensures var (resp, after) := UpdatePlayerOutcome(t, team, player, body);
            var id := FindPlayer(t, team, player).value;
            var was := t.players[id].profile;
            var now := after.players[id].profile;
            resp == PlayerUpdated &&
            after.teams == t.teams && after.nextId == t.nextId &&
            after.players.Keys == t.players.Keys &&
            (forall other :: other in t.players && other != id ==> after.players[other] == t.players[other]) &&
            after.players[id].teamId == t.players[id].teamId &&
            now.surname == (if IsSet(body, "surname") then Field(body, "surname") else was.surname) &&
            now.givenNames == (if IsSet(body, "given_names") then Field(body, "given_names") else was.givenNames) &&
            now.nationality == (if IsSet(body, "nationality") then Field(body, "nationality") else was.nationality) &&
            now.dateOfBirth == (if IsSet(body, "date_of_birth") then Field(body, "date_of_birth") else was.dateOfBirth)
  {
    var id := FindPlayer(t, team, player).value;
    forall other | other in t.players && other != id ensures !Matches(t, team, player, other) {
      MatchingRowsUnique(t, team, player);
      assert other !in MatchingRows(t, team, player);
    }
  }

  /** A successful delete removes exactly the player found, and nothing else. */
  lemma DeleteRemovesExactlyOne(t: Tables, team: Option<string>, player: Option<string>)
    requires TeamExists(t, team) && FindPlayer(t, team, player).Some?
    ensures var (resp, after) := DeletePlayerOutcome(t, team, player);
            resp == PlayerDeleted &&
            after == t.(players := t.players - {FindPlayer(t, team, player).value})
  {
    MatchingRowsUnique(t, team, player);
  }

  /** After a successful delete, deleting again, updating or fetching the
      same player gives 404 "Player not found". */
  lemma {:induction false} DeleteThenNotFound(t: Tables, team: Option<string>, player: Option<string>, body: Body)
    requires TeamExists(t, team) && FindPlayer(t, team, player).Some?
    ensures var after := DeletePlayerOutcome(t, team, player).1;
            DeletePlayerOutcome(after, team, player) == (PlayerNotFound, after) &&
            UpdatePlayerOutcome(after, team, player, body) == (PlayerNotFound, after) &&
            GetPlayerResult(after, team, player) == PlayerNotFound
  {
    DeleteRemovesExactlyOne(t, team, player);
  }

  /** The `players_path` of a team leads, with GET, to that team's players:
      exactly those whose team is the team. In clean-URL mode the team with
      id 0 is the exception: `array_filter` drops its segment, and the two
      segments left are refused with 405. */
  lemma {:induction false} PlayersPathRoutesToRoster(t: Tables, id: Id)
    requires id in t.teams
    ensures var ts := Decimal(id);
            var roster := Roster(t, Some(ts));
            Dispatch("GET", QuerySegments(PlayersPath(id))) == ListPlayers(Some(ts)) &&
            Dispatch("GET", CleanSegments(BasePath + PlayersPath(id))) ==
              (if id != 0 then ListPlayers(Some(ts)) else MethodNotAllowed) &&
            ListPlayersResult(t, Some(ts)) == Response(200, PlayerList(roster)) &&
            forall p :: p in roster <==> p in t.players && t.players[p].teamId == id
  {
    var ts := Decimal(id);
    BoundKeyDecimal(id);
    PlayersLinkRoutes(ts);
    if id != 0 {
      NewIdTruthy(id);
    } else {
      assert ts == "0";
    }
  }
}
