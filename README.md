# Teams and players REST service, modelled in Dafny

This project models `index.php`, a small REST service over two tables: `teams` (read-only) and `players`.

## What is modelled

A request is handled in four steps:

1. **Segmentation.** The request is split into path segments, in one of two modes.
   - Query-parameter mode (`index.php?resource=...`): the `resource` value is split on `/`. Nothing is filtered.
   - Clean-URL mode:
     - every occurrence of `/~hslcabal/v1/` is removed from the request path, not just a leading one;
     - the rest is split on `/`;
     - `array_filter` then drops every falsy segment: `""` and also `"0"`.
   - The segments stay a PHP array with integer keys, and `array_filter` does not renumber them. `count` is the number of entries left, while `$parts[2]` still means "key 2".
2. **Dispatch.** The segments are dispatched by the ordered `switch (true)` of `handleTeamRequests`, behind the 404 for an unknown first segment.
3. **Handlers.** Each handler runs against an in-memory store. That store has:
   - a `teams` map;
   - a `players` map from `player_id` to team and four text columns;
   - the `player_id` auto-increment counter.
4. **Binding.** Every SQL statement binds the path segments as strings against the integer key columns. `Store.BoundKey` says which key such a string selects.

The modules follow that structure:

- `Php` (php.dfy): the PHP built-ins the router relies on.
  - `explode('/', ...)`;
  - `str_replace($base, '', ...)`;
  - callback-less `array_filter`;
  - array lookup with a possibly missing key (giving null);
  - integer-to-string conversion.
- `Router` (router.dfy):
  - the two segmentation modes;
  - `Dispatch`, from the method and segments to a `Route`;
  - lemmas on how concrete links are routed in each mode.
- `Store` (store.dfy):
  - the tables as a value (`Tables`) and their integrity (`Consistent`);
  - the WHERE, INSERT, UPDATE and DELETE semantics as functions;
  - a `Database` class whose fields the statement methods update.
- `Handlers` (handlers.dfy): each handler is a method on a `Database`, proved against a specification.
  - For the five player handlers, a function gives the response (and, for the three that write, the store after the request); the method issues the handler's checks in the same order and is proved to match it. `getTeamPlayers` checks the team through a `Database` method and then reads the roster (`Roster`) from the store's state.
  - `getTeams` is specified by the predicate `ListsTeams`: every team listed exactly once with its columns and its `players_path`, which the method sets on each entry in a loop.
  - `updatePlayer` builds its SET list one present field at a time (`BuildAssignments`). This is proved equal to a partial-update reference, `ApplyPatch`.
- `Api` (api.dfy):
  - the whole request (`HandleRequest`) and the response to a routed request (`Serve`);
  - properties of one request and of two requests in a row: add-then-get through the returned link, delete-then-delete, and so on.

The decoded request body is an input value, `Malformed` or a map of members, where a member may be JSON `null`. `isset` treats a null member as absent.

The two addressing modes do not give the same segments; the model follows the code. Four consequences are proved:

- `teams/` is a 405 in query mode but the team list in clean-URL mode.
- A team segment `"0"` disappears in clean-URL mode. The `player_path` returned for such a team therefore leads to 404 "Team not found", and its `players_path` to 405.
- A player segment `"0"` (or a trailing `/`) disappears too, so `teams/{t}/players/0` lists the players of `t` in clean-URL mode.
- The base path is removed wherever it occurs, not only as a prefix.

## Model

| member | source | states |
|---|---|---|
| Php.IndexedLookup | index.php:25 | `explode` yields keys 0..n-1, distinct, key k holding the k-th piece; any other key is null |
| Php.JoinExplode | index.php:25 | splitting on `/` loses nothing: re-joining the pieces gives the original string |
| Php.ExplodeJoin | index.php:25 | splitting a join of slash-free pieces gives back exactly those pieces |
| Php.FilterMembers | index.php:31 | `array_filter` keeps exactly the truthy entries (neither "" nor "0"), with their keys |
| Php.FilterDistinct | index.php:31 | `array_filter` keeps keys distinct |
| Php.LookupFilter | index.php:31 | after `array_filter`, looking up a key gives its old value if truthy and null otherwise: keys are not renumbered |
| Php.RemoveAllAbsent | index.php:30 | `str_replace` leaves a string lacking a character of the pattern unchanged |
| Php.RemoveAllKeepsPrefix | index.php:30 | `str_replace` keeps characters that cannot start an occurrence of the base path |
| Php.Decimal | index.php:120 | the string form of an integer is a non-empty digit string, starting with '0' only for 0 and holding neither '/' nor '~' |
| Router.QuerySegmentsJoin | index.php:23-25 | query mode: keys are distinct, every position is set, and the segments re-join to the `resource` value (no filtering) |
| Router.CleanSegmentsTruthy | index.php:26-31 | clean-URL mode: no segment is "" or "0" or holds a '/', and keys are distinct |
| Router.CleanOfBase | index.php:28-31 | for a link without `~`, clean-URL mode on base path + link is the query-mode split of link, then filtered |
| Router.FilterKeepsTruthy | index.php:31 | `array_filter` changes nothing when every segment is truthy |
| Router.ModesAgree | index.php:23-31 | the two modes give the same segments for a link none of whose segments is "" or "0" (and which holds no `~`) |
| Router.TrailingSlashDiffers | index.php:23-31 | GET `teams/` is 405 "Method not allowed" in query mode but lists teams in clean-URL mode |
| Router.BaseRemovedEverywhere | index.php:30 | for any request path made of the base path, a stretch without `~`, the base path again and any rest, both occurrences are removed and the rest is processed the same way |
| Router.BaseAtBothEnds | index.php:30-31 | as an instance, GET on the base path + `teams` + the base path lists the teams |
| Router.Dispatch | index.php:35-89 | the route table: each route is taken exactly when its method/count/"players" row holds, with "Endpoint not found" iff the first segment is not "teams", "Team modifications are not supported" for any non-GET single segment and "Method not allowed" for everything else |
| Router.PlayersLinkRoutes | index.php:60-61 | GET `teams/{t}/players` lists the players of `t` in query mode; in clean-URL mode it does so when `t` is truthy and is refused otherwise |
| Router.PlayerLinkRoutes | index.php:65-66 | GET `teams/{t}/players/{p}` shows player `p` of team `t` in query mode for any segments; in clean-URL mode it does so when both are truthy, lists the players of `t` when only `p` is falsy, lists the players of a null team when only `t` is falsy, and is refused with 405 when both are |
| Router.FilteredPlayerLinkRoute | index.php:60-66 | what is left of a player link after `array_filter` is routed by the un-renumbered keys: show, list the team, list a null team, or 405, by which segments survived |
| Store.DigitsValueDecimal | index.php:219 | reading back a printed id gives the id |
| Store.BoundKeyDecimal | index.php:135-137 | the string form of an id, bound as a parameter, selects that id |
| Store.BoundKeyLeadingZero | index.php:135-137 | a leading zero in a bound key segment does not change the row it selects |
| Store.MatchingRowsUnique | index.php:167-170 | `WHERE team_id = ? AND player_id = ?` selects at most one row, the one fetched, and in a consistent store its team exists |
| Store.RosterMatchesFind | index.php:143-145 | the team's player list and the single-player lookup agree: a player is listed under a team segment exactly when fetching it by its id under that segment finds it |
| Store.AssignAllSnoc | index.php:292-294 | appending `column = ?` to the SET list applies that assignment last |
| Store.InsertRowFresh | index.php:210-219 | the insert uses an id no player has, adds exactly one row, and keeps the store consistent |
| Store.UpdateRowsConsistent | index.php:292-294 | the UPDATE keeps every id, changes no row's `team_id`, and keeps the store consistent |
| Store.DeleteRowsConsistent | index.php:325-326 | the DELETE keeps the store consistent |
| Store.Database.TeamRowCount | index.php:135-137 | the team check counts at most one row, and one exactly when the segment selects an existing team |
| Store.Database.PlayerRowCount | index.php:245-247 | the player check counts the matching rows: at most one, and none exactly when no player of that team has that id |
| Store.Database.SelectTeams | index.php:96-97 | the team query returns every team exactly once with its name and sport, in an order the database chooses |
| Store.Database.Insert | index.php:210-219 | the insert adds one row under the counter, advances it, and returns the new id, which in a consistent store no player had |
| Store.Database.Update | index.php:292-294 | the UPDATE applies the SET list to the matching rows only |
| Store.Database.Delete | index.php:325-326 | the DELETE removes the matching rows only |
| Handlers.GetTeams | index.php:94-124 | 200 with every team once, each with its columns and `players_path` = `teams/{id}/players` |
| Handlers.GetTeamPlayers | index.php:132-148 | 404 "Team not found" for an unknown team, else 200 with that team's players; the store is only read |
| Handlers.GetPlayer | index.php:156-178 | 404 "Team not found", then 404 "Player not found" unless the player belongs to that team, else 200 with the player |
| Handlers.AddPlayer | index.php:186-225 | team check, then 400 "Invalid player data" for a malformed or incomplete body, else one insert and 201 with the new id and `player_path`; the store stays consistent, so the new id never overwrites a player |
| Handlers.BuildAssignments | index.php:262-287 | the SET list is empty exactly when the body sets no field, and applying it to any row is the partial update the body describes |
| Handlers.UpdateRowsPatch | index.php:289-294 | the UPDATE built from the SET list has the effect of the partial update |
| Handlers.UpdatePlayer | index.php:233-297 | team check, player check, 400 "Invalid JSON data", 400 "No fields to update", in that order; otherwise the partial update of the one matching row and 200; the store stays consistent |
| Handlers.DeletePlayer | index.php:305-329 | team check, player check, then the DELETE and 200 "Player deleted successfully"; the store stays consistent |
| Api.HandleRequest | index.php:19-43 | a request is segmented, dispatched and served: the team list leaves the store unchanged, every other route gives the response and store of `Serve`, and a consistent store stays consistent |
| Api.ServePreservesConsistency | index.php:189-217 | no request breaks the store's integrity (a player is only inserted under an existing team, and no update changes a player's team) |
| Api.UnknownEndpointFirst | index.php:35-42 | a first segment other than "teams" gives 404 "Endpoint not found" and leaves the store unchanged |
| Api.MissingTeamShortCircuits | index.php:135-141 | for an unknown team every player route gives 404 "Team not found" with the store unchanged, whatever the players and the body |
| Api.PlayerOfOtherTeamNotFound | index.php:167-174 | a player asked for under another existing team gives 404 "Player not found" on GET, PATCH and DELETE, and nothing changes |
| Api.AddRejectsIncompleteBody | index.php:197-208 | a malformed body, or one lacking a field or setting it to null, gives 400 "Invalid player data" and inserts nothing |
| Api.AddInsertsOnePlayer | index.php:210-225 | a valid add inserts exactly one player under a fresh id with the body's four values, keeps the teams, and answers 201 with `player_path` `teams/{team}/players/{id}` |
| Api.NewIdTruthy | index.php:219 | a new player id is never "0", so its segment survives `array_filter` |
| Api.AddThenGet | index.php:224 | following the returned `player_path` with GET fetches the new player (in clean-URL mode unless the team segment was "0") |
| Api.UpdateRejections | index.php:253-287 | a malformed body gives 400 "Invalid JSON data"; a body setting none of the four fields gives 400 "No fields to update"; the store is unchanged |
| Api.UpdateOverwritesPresentFields | index.php:263-294 | a successful update overwrites exactly the fields the body sets on exactly the one player found; every other field, player, team and the counter stay the same |
| Api.DeleteRemovesExactlyOne | index.php:317-329 | a successful delete removes exactly the player found and nothing else |
| Api.DeleteThenNotFound | index.php:317-323 | after a delete, deleting, updating or fetching the same player gives 404 "Player not found" |
| Api.PlayersPathRoutesToRoster | index.php:120 | a team's `players_path` with GET lists exactly that team's players (in clean-URL mode unless the id is 0) |

## Left out

- Response headers (index.php:2-5), the config include and the PDO connection with its 500 answer (index.php:7-17): environment setup.
- Reading `$_SERVER`, `$_GET` and `php://input`, `parse_url`, `http_response_code` and `echo`. Their values are the inputs and outputs of `Api.HandleRequest`.
- `json_decode` itself: its result is an input of type `Body`.
- A non-string JSON value (number, boolean, array, object) is kept as its text. PHP would pass it on with its own type.
- Store.BoundKey: a bound key parameter selects a row only when it is a non-empty string of decimal digits. MySQL's lenient conversion of strings like `"1abc"`, `" 1"` or `"1e1"` to numbers is not modelled.
- Handlers.GetTeams: `average_age` is not modelled: the two SQL average computations, `round` and `error_log` (index.php:101-119). They use floating point and SQL date functions.
- Handlers.GetTeams: the `ORDER BY name` ordering (index.php:96) is not modelled. The order is left to the database, because it depends on collation.
- Handlers.GetTeamPlayers: the players are returned as a map from id to columns. The row order, which SQL leaves unspecified, is not modelled.
- The `PDOException` handlers answering 500 "Database error": the statements of the model do not fail.
- The race between the existence checks and the mutation, which concurrent requests could exploit.
- A `resource` query parameter given as an array, which `explode` would reject.
- The browser console script (`interface.pretty.js`): UI and network code.
