/**
 * How index.php turns a request into path segments and picks the handler:
 * the two addressing modes (the `resource` query parameter and the clean URL
 * under a fixed base path) and the ordered switch on the HTTP method, the
 * number of segments and the literal "players" under key 2.
 */
module Router {
  import opened Php

  /** The prefix that clean-URL mode removes from the request path. */
  const BasePath: string := "/~hslcabal/v1/"

  /** Query-parameter mode: the `resource` parameter exploded on '/', with no
      filtering, so empty segments stay. */
  function QuerySegments(resource: string): (parts: PhpArray)
    ensures |parts| >= 1
  {
    Indexed(Explode(resource))
  }

  /** Query mode loses nothing: every key from 0 to count-1 is present and the
      segments joined by '/' give back the parameter. */
  lemma QuerySegmentsJoin(resource: string)
    ensures DistinctKeys(QuerySegments(resource))
    ensures forall k: nat :: k < |QuerySegments(resource)| ==> Lookup(QuerySegments(resource), k).Some?
    ensures Join(Values(QuerySegments(resource))) == resource
  {
    var pieces := Explode(resource);
    IndexedLookup(pieces);
    assert Values(Indexed(pieces)) == pieces;
    JoinExplode(resource);
  }

  /** Clean-URL mode: every occurrence of the base path removed, the rest
      exploded on '/', then `array_filter`ed, keeping the original keys. */
  function CleanSegments(path: string): PhpArray {
    ArrayFilter(Indexed(Explode(RemoveAll(path, BasePath))))
  }

  /** In clean-URL mode no segment is empty or "0", none holds a slash, and
      no key occurs twice. */
  lemma CleanSegmentsTruthy(path: string)
    ensures DistinctKeys(CleanSegments(path))
    ensures forall i :: 0 <= i < |CleanSegments(path)| ==>
              Truthy(CleanSegments(path)[i].value) && '/' !in CleanSegments(path)[i].value
  {
    var pieces := Explode(RemoveAll(path, BasePath));
    var parts := CleanSegments(path);
    FilterMembers(Indexed(pieces));
    FilterDistinct(Indexed(pieces));
    forall i | 0 <= i < |parts| ensures Truthy(parts[i].value) && '/' !in parts[i].value {
      assert parts[i] in parts;
      var j :| 0 <= j < |pieces| && Indexed(pieces)[j] == parts[i];
    }
  }

  /** `isset($_GET['resource'])` selects the mode. */
  function Segments(resource: Option<string>, path: string): PhpArray {
    match resource
    case Some(r) => QuerySegments(r)
    case None => CleanSegments(path)
  }

  /** What the dispatcher decides to do with a request. Arguments taken from
      the path are null (None) when the key they are read from is missing. */
  datatype Route =
    | ListTeams
    | TeamsReadOnly
    | ListPlayers(team: Option<string>)
    | ShowPlayer(team: Option<string>, player: Option<string>)
    | CreatePlayer(team: Option<string>)
    | PatchPlayer(team: Option<string>, player: Option<string>)
    | RemovePlayer(team: Option<string>, player: Option<string>)
    | MethodNotAllowed
    | EndpointNotFound

  /** `count($parts) == n && $parts[2] == 'players'` */
  predicate PlayersShape(parts: PhpArray, n: nat) {
    |parts| == n && Lookup(parts, 2) == Some("players")
  }

  predicate IsTeams(parts: PhpArray) {
    Lookup(parts, 0) == Some("teams")
  }

  /** The cases of the `switch (true)` in handleTeamRequests, tried in order. */
  function TeamRoute(httpMethod: string, parts: PhpArray): Route {
    if httpMethod == "GET" && |parts| == 1 then ListTeams
    else if httpMethod != "GET" && |parts| == 1 then TeamsReadOnly
    else if httpMethod == "GET" && PlayersShape(parts, 3) then ListPlayers(Lookup(parts, 1))
    else if httpMethod == "GET" && PlayersShape(parts, 4) then ShowPlayer(Lookup(parts, 1), Lookup(parts, 3))
    else if httpMethod == "POST" && PlayersShape(parts, 3) then CreatePlayer(Lookup(parts, 1))
    else if httpMethod == "PATCH" && PlayersShape(parts, 4) then PatchPlayer(Lookup(parts, 1), Lookup(parts, 3))
    else if httpMethod == "DELETE" && PlayersShape(parts, 4) then RemovePlayer(Lookup(parts, 1), Lookup(parts, 3))
    else MethodNotAllowed
  }

  /** The switch on `$endpoint_parts[0]`, then the team switch. Each route
      is taken exactly when its row of the table holds, so the order of the
      cases never lets one shape shadow another. */
  function Dispatch(httpMethod: string, parts: PhpArray): (r: Route)
    ensures r.EndpointNotFound? <==> !IsTeams(parts)
    ensures r.ListTeams? <==> IsTeams(parts) && httpMethod == "GET" && |parts| == 1
    ensures r.TeamsReadOnly? <==> IsTeams(parts) && httpMethod != "GET" && |parts| == 1
    ensures r.ListPlayers? <==> IsTeams(parts) && httpMethod == "GET" && PlayersShape(parts, 3)
    ensures r.CreatePlayer? <==> IsTeams(parts) && httpMethod == "POST" && PlayersShape(parts, 3)
    ensures r.ShowPlayer? <==> IsTeams(parts) && httpMethod == "GET" && PlayersShape(parts, 4)
    ensures r.PatchPlayer? <==> IsTeams(parts) && httpMethod == "PATCH" && PlayersShape(parts, 4)
    ensures r.RemovePlayer? <==> IsTeams(parts) && httpMethod == "DELETE" && PlayersShape(parts, 4)
    ensures r.MethodNotAllowed? <==>
              IsTeams(parts) && |parts| != 1 &&
              !(PlayersShape(parts, 3) && httpMethod in {"GET", "POST"}) &&
              !(PlayersShape(parts, 4) && httpMethod in {"GET", "PATCH", "DELETE"})
    ensures (r.ListPlayers? || r.CreatePlayer?) ==> r.team == Lookup(parts, 1)
    ensures (r.ShowPlayer? || r.PatchPlayer? || r.RemovePlayer?) ==>
              r.team == Lookup(parts, 1) && r.player == Lookup(parts, 3)
  {
    if !IsTeams(parts) then EndpointNotFound else TeamRoute(httpMethod, parts)
  }

  // ---------------------------------------------------------------------
  // How the two addressing modes relate

  /** The clean URL of a link that does not contain '~' (so cannot contain the
      base path) gives the filtered query-mode segments of the link. */
  lemma {:induction false} CleanOfBase(link: string)
    requires '~' !in link
    ensures CleanSegments(BasePath + link) == ArrayFilter(QuerySegments(link))
  {
    var s := BasePath + link;
    assert s[..|BasePath|] == BasePath && s[|BasePath|..] == link;
    assert BasePath[1] == '~';
    RemoveAllAbsent(link, BasePath, '~');
  }

  /** `array_filter` looks at one entry at a time. */
  lemma FilterCons(e: Entry, rest: PhpArray)
    ensures ArrayFilter([e] + rest) == if Truthy(e.value) then [e] + ArrayFilter(rest) else ArrayFilter(rest)
  {
    assert ([e] + rest)[1..] == rest;
  }

  /** `array_filter` keeps an array all of whose values are truthy. */
  lemma {:induction false} FilterKeepsTruthy(a: PhpArray)
    requires forall i :: 0 <= i < |a| ==> Truthy(a[i].value)
    ensures ArrayFilter(a) == a
  {
    if a != [] {
      FilterKeepsTruthy(a[1..]);
      assert [a[0]] + a[1..] == a;
    }
  }

  /** When the link has no empty or "0" segment and no '~', both modes give
      the same segments. */
  lemma ModesAgree(link: string)
    requires '~' !in link
    requires forall i :: 0 <= i < |Explode(link)| ==> Truthy(Explode(link)[i])
    ensures CleanSegments(BasePath + link) == QuerySegments(link)
  {
    CleanOfBase(link);
    FilterKeepsTruthy(QuerySegments(link));
  }

  /** Query mode does not filter: "teams/" is two segments there, so GET gets
      405, while the clean URL of the same resource lists the teams. */
  lemma TrailingSlashDiffers()
    ensures Dispatch("GET", QuerySegments("teams/")) == MethodNotAllowed
    ensures Dispatch("GET", CleanSegments(BasePath + "teams/")) == ListTeams
  {
    TrailingSlashSegments();
    TrailingSlashClean();
  }

  lemma TrailingSlashClean()
    ensures CleanSegments(BasePath + "teams/") == [Entry(0, "teams")]
  {
    var e0, e1 := Entry(0, "teams"), Entry(1, "");
    TrailingSlashSegments();
    assert '~' !in "teams/";
    CleanOfBase("teams/");
    FilterCons(e1, []);
    FilterCons(e0, [e1]);
    assert [e0] + [e1] == [e0, e1];
  }

  lemma TrailingSlashSegments()
    ensures QuerySegments("teams/") == [Entry(0, "teams"), Entry(1, "")]
  {
    assert Join(["teams", ""]) == "teams/";
    ExplodeJoin(["teams", ""]);
  }

  /** Query-mode segments of a path of three slash-free pieces. */
  lemma ThreeSegments(a: string, b: string, c: string)
    requires '/' !in a && '/' !in b && '/' !in c
    ensures QuerySegments(a + "/" + b + "/" + c) == [Entry(0, a), Entry(1, b), Entry(2, c)]
  {
    assert Join([a, b, c]) == a + "/" + b + "/" + c by {
      assert [a, b, c][1..] == [b, c] && [b, c][1..] == [c];
      assert Join([b, c]) == b + "/" + c;
      assert Join([a, b, c]) == a + "/" + (b + "/" + c);
    }
    ExplodeJoin([a, b, c]);
  }

  /** Query-mode segments of a path of four slash-free pieces. */
  lemma FourSegments(a: string, b: string, c: string, d: string)
    requires '/' !in a && '/' !in b && '/' !in c && '/' !in d
    ensures QuerySegments(a + "/" + b + "/" + c + "/" + d) == [Entry(0, a), Entry(1, b), Entry(2, c), Entry(3, d)]
  {
    assert Join([a, b, c, d]) == a + "/" + b + "/" + c + "/" + d by {
      assert [a, b, c, d][1..] == [b, c, d] && [b, c, d][1..] == [c, d] && [c, d][1..] == [d];
      assert Join([c, d]) == c + "/" + d;
      assert Join([b, c, d]) == b + "/" + (c + "/" + d);
    }
    ExplodeJoin([a, b, c, d]);
  }

  /** The query-mode segments of the players link of a team. */
  lemma PlayersLinkSegments(ts: string)
    requires '/' !in ts
    ensures QuerySegments("teams/" + ts + "/players") == [Entry(0, "teams"), Entry(1, ts), Entry(2, "players")]
  {
    assert "teams/" + ts + "/players" == "teams" + "/" + ts + "/" + "players";
    ThreeSegments("teams", ts, "players");
  }

  /** `array_filter` on the segments of a players link. */
  lemma FilterPlayersLink(ts: string)
    ensures ArrayFilter([Entry(0, "teams"), Entry(1, ts), Entry(2, "players")]) ==
              if Truthy(ts) then [Entry(0, "teams"), Entry(1, ts), Entry(2, "players")]
              else [Entry(0, "teams"), Entry(2, "players")]
  {
    var e0, e1, e2 := Entry(0, "teams"), Entry(1, ts), Entry(2, "players");
    FilterCons(e2, []);
    FilterCons(e1, [e2]);
    FilterCons(e0, [e1, e2]);
    assert [e0] + [e1, e2] == [e0, e1, e2] && [e1] + [e2] == [e1, e2] && [e0] + [e2] == [e0, e2];
  }

  /** The clean-URL segments of the players link of a team. */
  lemma CleanPlayersLink(ts: string)
    requires '/' !in ts && '~' !in ts
    ensures CleanSegments(BasePath + ("teams/" + ts + "/players")) ==
              if Truthy(ts) then [Entry(0, "teams"), Entry(1, ts), Entry(2, "players")]
              else [Entry(0, "teams"), Entry(2, "players")]
  {
    PlayersLinkSegments(ts);
    CleanOfBase("teams/" + ts + "/players");
    FilterPlayersLink(ts);
  }

  /** The players link of a team in both modes. Query mode passes any slash-free
      team segment through; clean-URL mode drops an empty or "0" segment, so
      the path has two segments left and GET gets 405. */
  lemma {:induction false} PlayersLinkRoutes(ts: string)
    requires '/' !in ts && '~' !in ts
    ensures Dispatch("GET", QuerySegments("teams/" + ts + "/players")) == ListPlayers(Some(ts))
    ensures Dispatch("GET", CleanSegments(BasePath + ("teams/" + ts + "/players"))) ==
              if Truthy(ts) then ListPlayers(Some(ts)) else MethodNotAllowed
  {
    PlayersLinkSegments(ts);
    assert Indexed(["teams", ts, "players"]) == [Entry(0, "teams"), Entry(1, ts), Entry(2, "players")];
    IndexedLookup(["teams", ts, "players"]);
    CleanPlayersLink(ts);
  }

  /** The query-mode segments of the link of one player. */
  lemma PlayerLinkSegments(ts: string, ps: string)
    requires '/' !in ts && '/' !in ps
    ensures QuerySegments("teams/" + ts + "/players/" + ps) ==
              [Entry(0, "teams"), Entry(1, ts), Entry(2, "players"), Entry(3, ps)]
  {
    assert "teams/" + ts + "/players/" + ps == "teams" + "/" + ts + "/" + "players" + "/" + ps;
    FourSegments("teams", ts, "players", ps);
  }

  /** The clean-URL segments left of the link of one player: the team and
      player segments stay only when truthy, the others always, with their keys. */
  function FilteredPlayerLink(ts: string, ps: string): PhpArray {
    [Entry(0, "teams")] + (if Truthy(ts) then [Entry(1, ts)] else []) +
    [Entry(2, "players")] + (if Truthy(ps) then [Entry(3, ps)] else [])
  }

  /** `array_filter` on the segments of the link of one player. */
  lemma FilterPlayerLink(ts: string, ps: string)
    ensures ArrayFilter([Entry(0, "teams"), Entry(1, ts), Entry(2, "players"), Entry(3, ps)]) ==
              FilteredPlayerLink(ts, ps)
  {
    var e0, e1, e2, e3 := Entry(0, "teams"), Entry(1, ts), Entry(2, "players"), Entry(3, ps);
    var tail := ArrayFilter([e2, e3]);
    FilterPlayerTail(ps);
    FilterCons(e1, [e2, e3]);
    FilterCons(e0, [e1, e2, e3]);
    assert [e0] + [e1, e2, e3] == [e0, e1, e2, e3] && [e1] + [e2, e3] == [e1, e2, e3];
    if Truthy(ts) {
      assert [e0] + ([e1] + tail) == [e0] + [e1] + tail;
    } else {
      assert [e0] + tail == [e0] + [] + tail;
    }
  }

  /** `array_filter` on the last two segments of the link of one player. */
  lemma FilterPlayerTail(ps: string)
    ensures ArrayFilter([Entry(2, "players"), Entry(3, ps)]) ==
              [Entry(2, "players")] + (if Truthy(ps) then [Entry(3, ps)] else [])
  {
    var e2, e3 := Entry(2, "players"), Entry(3, ps);
    FilterCons(e3, []);
    FilterCons(e2, [e3]);
    assert [e2] + [e3] == [e2, e3];
  }

  /** The clean-URL segments of the link of one player. */
  lemma CleanPlayerLink(ts: string, ps: string)
    requires '/' !in ts && '~' !in ts && '/' !in ps && '~' !in ps
    ensures CleanSegments(BasePath + ("teams/" + ts + "/players/" + ps)) == FilteredPlayerLink(ts, ps)
  {
    PlayerLinkSegments(ts, ps);
    CleanOfBase("teams/" + ts + "/players/" + ps);
    FilterPlayerLink(ts, ps);
  }

  /** How GET dispatches what is left of a player link after `array_filter`.
      Keys are not renumbered, so "players" stays under key 2: without the
      player segment the link lists the team's players, without the team
      segment it lists the players of a null team, and without both only two
      segments are left. */
  lemma FilteredPlayerLinkRoute(ts: string, ps: string)
    ensures Dispatch("GET", FilteredPlayerLink(ts, ps)) ==
              if Truthy(ts) && Truthy(ps) then ShowPlayer(Some(ts), Some(ps))
              else if Truthy(ps) then ListPlayers(None)
              else if Truthy(ts) then ListPlayers(Some(ts))
              else MethodNotAllowed
  {
    var c := FilteredPlayerLink(ts, ps);
    if Truthy(ts) && Truthy(ps) {
      assert c == Indexed(["teams", ts, "players", ps]);
      IndexedLookup(["teams", ts, "players", ps]);
    } else if Truthy(ps) {
      assert c == [Entry(0, "teams"), Entry(2, "players"), Entry(3, ps)];
      SparsePlayerLink(ps);
    } else if Truthy(ts) {
      assert c == Indexed(["teams", ts, "players"]);
      IndexedLookup(["teams", ts, "players"]);
    } else {
      assert c == [Entry(0, "teams"), Entry(2, "players")];
      assert Lookup(c, 0) == Some("teams");
    }
  }

  /** The link of one player in both modes. Query mode passes any slash-free
      segments through to `getPlayer`; clean-URL mode drops an empty or "0"
      team or player segment and routes what is left. */
  lemma {:induction false} PlayerLinkRoutes(ts: string, ps: string)
    requires '/' !in ts && '~' !in ts && '/' !in ps && '~' !in ps
    ensures Dispatch("GET", QuerySegments("teams/" + ts + "/players/" + ps)) == ShowPlayer(Some(ts), Some(ps))
    ensures Dispatch("GET", CleanSegments(BasePath + ("teams/" + ts + "/players/" + ps))) ==
              if Truthy(ts) && Truthy(ps) then ShowPlayer(Some(ts), Some(ps))
              else if Truthy(ps) then ListPlayers(None)
              else if Truthy(ts) then ListPlayers(Some(ts))
              else MethodNotAllowed
  {
    PlayerLinkSegments(ts, ps);
    assert Indexed(["teams", ts, "players", ps]) == [Entry(0, "teams"), Entry(1, ts), Entry(2, "players"), Entry(3, ps)];
    IndexedLookup(["teams", ts, "players", ps]);
    CleanPlayerLink(ts, ps);
    FilteredPlayerLinkRoute(ts, ps);
  }

  /** Dispatching the clean-URL segments of a player link whose team segment
      was filtered out. */
  lemma SparsePlayerLink(ps: string)
    ensures Dispatch("GET", [Entry(0, "teams"), Entry(2, "players"), Entry(3, ps)]) == ListPlayers(None)
  {
    var c := [Entry(0, "teams"), Entry(2, "players"), Entry(3, ps)];
    assert c[1..] == [Entry(2, "players"), Entry(3, ps)];
    assert c[1..][1..] == [Entry(3, ps)];
    assert Lookup(c[1..][1..], 1) == None;
    assert Lookup(c, 1) == None;
    assert Lookup(c, 2) == Some("players");
  }

  /** `str_replace` removes every occurrence of the base path, not only a
      leading one: a second occurrence after a stretch without '~' goes too. */
  lemma BaseRemovedEverywhere(w: string, rest: string)
    requires '~' !in w
    ensures RemoveAll(BasePath + w + BasePath + rest, BasePath) == w + RemoveAll(rest, BasePath)
  {
    var s := BasePath + w + BasePath + rest;
    assert s[..|BasePath|] == BasePath && s[|BasePath|..] == w + (BasePath + rest);
    assert BasePath[1] == '~' && BasePath[0] == '/';
    RemoveAllKeepsPrefix(w, BasePath + rest, BasePath);
    var t := BasePath + rest;
    assert t[..|BasePath|] == BasePath && t[|BasePath|..] == rest;
  }

  /** For instance, a request path with the base path at both ends names the teams. */
  lemma BaseAtBothEnds()
    ensures Dispatch("GET", CleanSegments(BasePath + "teams" + BasePath)) == ListTeams
  {
    BaseRemovedEverywhere("teams", "");
    assert BasePath + "teams" + BasePath + "" == BasePath + "teams" + BasePath;
    assert RemoveAll("", BasePath) == "";
    assert "teams" + "" == "teams";
    assert Join(["teams"]) == "teams";
    ExplodeJoin(["teams"]);
    FilterKeepsTruthy(Indexed(["teams"]));
  }
}
