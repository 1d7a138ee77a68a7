/**
 * The club time-series endpoint (pulso-publico/app/api/club_series/route.js):
 * the `GET` handler checks its configuration and its `club` parameter,
 * resolves the club name to an id through an ordered chain of lookups in
 * `clubs`, falls back to the `daily_ranking_with_names` view, and maps the
 * club's `daily_ranking` rows to series points.
 *
 * The data store is an oracle: a request (table, filtered column, filter,
 * row limit) gets a reply that is either a thrown error or a status flag
 * with a body text. `JSON.parse` is a parameter as well.
 */
module ClubSeries {
  import opened Wrappers
  import opened Js
  import opened InsightsText

  /** One store query: `<table>?<column>=<filter>&limit=<limit>`; `None` stands for a limit of `NaN`. */
  datatype Request = Request(table: string, column: string, filter: string, limit: Option<real>)

  /** What `fetch` and `res.text()` give: a thrown error, or the `ok` flag and the body. */
  datatype Reply = Throws | Reply(ok: bool, text: string)

  /**
   * The route's environment: the two configuration variables (`""` when
   * unset), the store, and `JSON.parse` (`None` when it throws).
   */
  datatype Env = Env(url: string, key: string, fetch: Request -> Reply, parse: string -> Option<Value>)

  /** A lookup in `clubs`: the column and the PostgREST operator. */
  datatype Attempt = Attempt(column: string, op: string)

  /** The answer of the route; each case carries what its JSON body or its headers carry. */
  datatype Response =
    | ConfigMissing
    | ClubRequired
    | NotFound(club: string)
    | SeriesFailed(club: string, clubId: Value, details: string)
    | Internal
    | Series(points: seq<Value>, clubId: Value, matchedBy: string)

  /** The HTTP status of a response. */
  function Status(r: Response): int {
    match r
    case ConfigMissing => 500
    case ClubRequired => 400
    case NotFound(_) => 404
    case SeriesFailed(_, _, _) => 500
    case Internal => 500
    case Series(_, _, _) => 200
  }

  /** The exact lookups, tried first. */
  const EqAttempts: seq<Attempt> := [Attempt("name_short", "eq"), Attempt("name_official", "eq")]

  /** The case-insensitive lookups, tried next. */
  const IlikeAttempts: seq<Attempt> := [Attempt("name_short", "ilike"), Attempt("name_official", "ilike")]

  /** The `clubs` query of one attempt: `eq.<name>` or `ilike.<name>`, one row. */
  function ClubsRequest(a: Attempt, name: string): Request {
    Request("clubs", a.column, a.op + "." + name, Some(1.0))
  }

  /** The fallback query on the view's `club_name`, one row. */
  function ViewRequest(name: string): Request {
    Request("daily_ranking_with_names", "club_name", "eq." + name, Some(1.0))
  }

  /** The `matchedBy` tag of an attempt: `clubs.<column>=<op>`. */
  function MatchedBy(a: Attempt): string {
    "clubs." + a.column + "=" + a.op
  }

  /** The `matchedBy` tag of the fallback. */
  const ViewMatch: string := "daily_ranking_with_names.club_name"

  /** The rows of a body: the parsed array, or none when it is not an array or does not parse. */
  function Rows(env: Env, text: string): seq<Value> {
    var parsed := env.parse(text);
    if parsed.Some? && parsed.value.Arr? then parsed.value.items else []
  }

  /** The outcome of one lookup. */
  datatype Lookup = Threw | Miss | Hit(row: Value)

  /**
   * One lookup: a thrown error propagates; a non-ok reply, a body that is
   * not an array, an empty array, or a first row whose `field` is falsy is
   * a miss; otherwise the first row is the hit.
   */
  function Ask(env: Env, req: Request, field: string): (r: Lookup)
    ensures r.Hit? ==> Truthy(Get(r.row, field))
    ensures r.Threw? <==> env.fetch(req).Throws?
    ensures env.fetch(req).Reply? && !env.fetch(req).ok ==> r.Miss?
    ensures var reply := env.fetch(req);
      r.Hit? <==> reply.Reply? && reply.ok && |Rows(env, reply.text)| > 0 && Truthy(Get(Rows(env, reply.text)[0], field))
    ensures var reply := env.fetch(req);
      r.Hit? ==> reply.Reply? && |Rows(env, reply.text)| > 0 && r.row == Rows(env, reply.text)[0]
  {
    var reply := env.fetch(req);
    if reply.Throws? then Threw
    else if !reply.ok then Miss
    else
      var rows := Rows(env, reply.text);
      if |rows| > 0 && Truthy(Get(rows[0], field)) then Hit(rows[0]) else Miss
  }

  // ------------------------------------------------------------ resolveClubId

  /** The result of `resolveClubId`: a thrown error, `null`, or `{ id, matchedBy, club }`. */
  datatype Resolution = Failed | Unresolved | Resolved(id: Value, matchedBy: string, club: Value)

  /** The chain over a list of attempts: the first hit wins, a miss moves on. */
  function ResolveFrom(env: Env, name: string, attempts: seq<Attempt>): Resolution {
    if attempts == [] then Unresolved
    else
      var look := Ask(env, ClubsRequest(attempts[0], name), "id");
      if look.Threw? then Failed
      else if look.Hit? then Resolved(Get(look.row, "id"), MatchedBy(attempts[0]), look.row)
      else ResolveFrom(env, name, attempts[1..])
  }

  /** The whole chain: the exact lookups, then the case-insensitive ones. */
  function Resolve(env: Env, name: string): Resolution {
    ResolveFrom(env, name, EqAttempts + IlikeAttempts)
  }

  /** Attempt `k` is the first that hits, and none before it threw. */
  ghost predicate FirstHitAt(env: Env, name: string, attempts: seq<Attempt>, k: int) {
    && 0 <= k < |attempts|
    && (forall j :: 0 <= j < k ==> Ask(env, ClubsRequest(attempts[j], name), "id").Miss?)
    && Ask(env, ClubsRequest(attempts[k], name), "id").Hit?
  }

  /**
   * The chain resolves through the first attempt that hits, naming that
   * attempt in `matchedBy`; it resolves only that way; and it gives `null`
   * exactly when every attempt misses.
   */
  lemma {:induction false} ResolveFromMeaning(env: Env, name: string, attempts: seq<Attempt>)
    ensures ResolveFrom(env, name, attempts).Unresolved? <==>
      forall j :: 0 <= j < |attempts| ==> Ask(env, ClubsRequest(attempts[j], name), "id").Miss?
    ensures forall k :: FirstHitAt(env, name, attempts, k) ==>
      var row := Ask(env, ClubsRequest(attempts[k], name), "id").row;
      ResolveFrom(env, name, attempts) == Resolved(Get(row, "id"), MatchedBy(attempts[k]), row)
    ensures ResolveFrom(env, name, attempts).Resolved? ==> exists k :: FirstHitAt(env, name, attempts, k)
  {
    if attempts != [] {
      var rest := attempts[1..];
      ResolveFromMeaning(env, name, rest);
      forall k | FirstHitAt(env, name, attempts, k) && k > 0
        ensures FirstHitAt(env, name, rest, k - 1)
      {
        assert forall j :: 0 <= j < k - 1 ==> rest[j] == attempts[j + 1];
      }
      if ResolveFrom(env, name, attempts).Resolved? && Ask(env, ClubsRequest(attempts[0], name), "id").Miss? {
        var k' :| FirstHitAt(env, name, rest, k');
        assert forall j :: 1 <= j < k' + 1 ==> attempts[j] == rest[j - 1];
        assert FirstHitAt(env, name, attempts, k' + 1);
      }
      if forall j :: 0 <= j < |attempts| ==> Ask(env, ClubsRequest(attempts[j], name), "id").Miss? {
        assert forall j :: 0 <= j < |rest| ==> rest[j] == attempts[j + 1];
      }
    }
  }

  /** Every tag the chain can give names a `clubs` lookup, never the view. */
  lemma {:induction false} ResolvedTag(env: Env, name: string, attempts: seq<Attempt>)
    ensures ResolveFrom(env, name, attempts).Resolved? ==> ResolveFrom(env, name, attempts).matchedBy != ViewMatch
  {
    if attempts != [] {
      ResolvedTag(env, name, attempts[1..]);
      assert MatchedBy(attempts[0])[0] == 'c' && ViewMatch[0] == 'd';
    }
  }

  /** A resolved id is always truthy, so `!resolved?.id` holds exactly when nothing was resolved. */
  lemma {:induction false} ResolvedIdTruthy(env: Env, name: string, attempts: seq<Attempt>)
    ensures ResolveFrom(env, name, attempts).Resolved? ==> Truthy(ResolveFrom(env, name, attempts).id)
  {
    if attempts != [] {
      ResolvedIdTruthy(env, name, attempts[1..]);
    }
  }

  /** `resolveClubId`: the exact lookups in order, then the case-insensitive ones; the first hit returns. */
  method ResolveClubId(env: Env, name: string) returns (r: Resolution)
    ensures r == Resolve(env, name)
  {
    var attempts := EqAttempts + IlikeAttempts;
    var i := 0;
    while i < |EqAttempts|
      invariant 0 <= i <= |EqAttempts|
      invariant Resolve(env, name) == ResolveFrom(env, name, attempts[i..])
    {
      assert attempts[i..][1..] == attempts[i + 1..];
      var a := EqAttempts[i];
      var look := Ask(env, ClubsRequest(a, name), "id");
      if look.Threw? {
        return Failed;
      }
      if look.Hit? {
        return Resolved(Get(look.row, "id"), MatchedBy(a), look.row);
      }
      i := i + 1;
    }
    assert attempts[|EqAttempts|..] == IlikeAttempts;
    var j := 0;
    while j < |IlikeAttempts|
      invariant 0 <= j <= |IlikeAttempts|
      invariant Resolve(env, name) == ResolveFrom(env, name, IlikeAttempts[j..])
    {
      assert IlikeAttempts[j..][1..] == IlikeAttempts[j + 1..];
      var a := IlikeAttempts[j];
      var look := Ask(env, ClubsRequest(a, name), "id");
      if look.Threw? {
        return Failed;
      }
      if look.Hit? {
        return Resolved(Get(look.row, "id"), MatchedBy(a), look.row);
      }
      j := j + 1;
    }
    return Unresolved;
  }

  // ------------------------------------------------------------ fetchSeriesAndReturn

  /** The series query: the club's `daily_ranking` rows by ascending date, at most `limitDays`. */
  function SeriesRequest(h: Host, clubId: Value, limitDays: Option<real>): Request {
    Request("daily_ranking", "club_id", "eq." + ToStr(h, clubId), limitDays)
  }

  /** One series point built from a `daily_ranking` row. */
  function Point(r: Value, clubId: Value, clubName: string, official: Value, short: Value): (p: Value)
    ensures Get(p, "date") == Get(r, "aggregation_date")
    ensures Get(p, "value") == Get(r, "score")
    ensures Get(p, "club_id") == (if Nullish(Get(r, "club_id")) then clubId else Get(r, "club_id"))
    ensures Get(p, "club_name") == Str(clubName)
  {
    Obj(map[
      "date" := Get(r, "aggregation_date"),
      "value" := Get(r, "score"),
      "volume_total" := Get(r, "volume_total"),
      "sentiment_score" := Get(r, "sentiment_score"),
      "rank_position" := Get(r, "rank_position"),
      "club_id" := Coalesce(Get(r, "club_id"), clubId),
      "club_name" := Str(clubName),
      "club_name_official" := Or(official, Null),
      "club_name_short" := Or(short, Null)])
  }

  /**
   * `fetchSeriesAndReturn`: a non-ok reply is a 500 carrying the body as
   * `details`; otherwise one point per row, in the store's order. Reading a
   * field of a `null` row throws, which the handler turns into a 500.
   */
  function FetchSeries(h: Host, env: Env, clubId: Value, clubName: string, matchedBy: string,
                       limitDays: Option<real>, official: Value, short: Value): (r: Response)
    ensures r.Series? ==>
      var reply := env.fetch(SeriesRequest(h, clubId, limitDays));
      && reply.Reply? && reply.ok
      && |r.points| == |Rows(env, reply.text)|
      && (forall i :: 0 <= i < |r.points| ==>
            r.points[i] == Point(Rows(env, reply.text)[i], clubId, clubName, official, short))
      && r.clubId == clubId && r.matchedBy == matchedBy
    ensures r.Series? || r.SeriesFailed? || r.Internal?
    ensures r.SeriesFailed? <==> env.fetch(SeriesRequest(h, clubId, limitDays)).Reply? && !env.fetch(SeriesRequest(h, clubId, limitDays)).ok
    ensures r.SeriesFailed? ==>
      r.details == env.fetch(SeriesRequest(h, clubId, limitDays)).text && r.clubId == clubId && r.club == clubName
    ensures var reply := env.fetch(SeriesRequest(h, clubId, limitDays));
      r.Internal? <==>
        || reply.Throws?
        || (reply.ok && exists i :: 0 <= i < |Rows(env, reply.text)| && Nullish(Rows(env, reply.text)[i]))
    ensures var reply := env.fetch(SeriesRequest(h, clubId, limitDays));
      reply.Reply? && reply.ok && (forall i :: 0 <= i < |Rows(env, reply.text)| ==> !Nullish(Rows(env, reply.text)[i]))
      ==> r.Series?
  {
    var reply := env.fetch(SeriesRequest(h, clubId, limitDays));
    if reply.Throws? then Internal
    else if !reply.ok then SeriesFailed(clubName, clubId, reply.text)
    else
      var rows := Rows(env, reply.text);
      if exists i :: 0 <= i < |rows| && Nullish(rows[i]) then Internal
      else Series(seq(|rows|, i requires 0 <= i < |rows| => Point(rows[i], clubId, clubName, official, short)), clubId, matchedBy)
  }

  // ------------------------------------------------------------ GET

  /** `(club || '').trim()`. */
  function ClubParam(club: Option<string>): string {
    Trim(if club.Some? then club.value else "")
  }

  /** `Number(limit_days || '90')`: the parameter when it is a non-empty string, else 90. */
  function LimitDays(h: Host, limitParam: Option<string>): (r: Option<real>)
    ensures limitParam.None? || limitParam == Some("") ==> r == h.parseNumber("90")
  {
    h.parseNumber(if limitParam.Some? && limitParam.value != "" then limitParam.value else "90")
  }

  /** What the handler answers for a non-blank club name: the resolver chain, the fallback, then the series. */
  function ServeClub(h: Host, env: Env, clubName: string, limitDays: Option<real>): Response {
    match Resolve(env, clubName)
    case Failed => Internal
    case Resolved(id, matched, row) =>
      FetchSeries(h, env, id, clubName, matched, limitDays, Get(row, "name_official"), Get(row, "name_short"))
    case Unresolved =>
      var look := Ask(env, ViewRequest(clubName), "club_id");
      if look.Threw? then Internal
      else if look.Hit? then FetchSeries(h, env, Get(look.row, "club_id"), clubName, ViewMatch, limitDays, Undefined, Undefined)
      else NotFound(clubName)
  }

  /** The `GET` handler as a whole. */
  function Route(h: Host, env: Env, club: Option<string>, limitParam: Option<string>): Response {
    if env.url == "" || env.key == "" then ConfigMissing
    else
      var clubName := ClubParam(club);
      var limitDays := LimitDays(h, limitParam);
      if clubName == "" then ClubRequired
      else ServeClub(h, env, clubName, limitDays)
  }

  /** `GET`: configuration, parameters, the resolver chain, the fallback, then the series. */
  method HandleGet(h: Host, env: Env, club: Option<string>, limitParam: Option<string>) returns (r: Response)
    ensures r == Route(h, env, club, limitParam)
  {
    if env.url == "" || env.key == "" {
      return ConfigMissing;
    }
    var clubName := ClubParam(club);
    var limitDays := LimitDays(h, limitParam);
    if clubName == "" {
      return ClubRequired;
    }
    var resolved := ResolveClubId(env, clubName);
    if resolved.Failed? {
      return Internal;
    }
    if resolved.Unresolved? {
      var look := Ask(env, ViewRequest(clubName), "club_id");
      if look.Threw? {
        return Internal;
      }
      if look.Hit? {
        r := FetchSeries(h, env, Get(look.row, "club_id"), clubName, ViewMatch, limitDays, Undefined, Undefined);
        return;
      }
      return NotFound(clubName);
    }
    r := FetchSeries(h, env, resolved.id, clubName, resolved.matchedBy, limitDays,
                     Get(resolved.club, "name_official"), Get(resolved.club, "name_short"));
  }

  // ------------------------------------------------------------ what the route promises

  /** Missing configuration is a 500, and it is checked before anything else. */
  lemma ConfigFirst(h: Host, env: Env, club: Option<string>, limitParam: Option<string>)
    requires env.url == "" || env.key == ""
    ensures Route(h, env, club, limitParam) == ConfigMissing && Status(ConfigMissing) == 500
  {
  }

  /** Trimming leaves nothing exactly when the text is all blanks. */
  lemma TrimBlank(s: string)
    ensures Trim(s) == "" <==> NonSpaces(s) == []
  {
    TrimText(s);
    var t := Trim(s);
    if t != [] {
      assert NonSpaces(t) == [t[0]] + NonSpaces(t[1..]);
    }
  }

  /** With configuration present, a missing, empty or all-blank `club` is a 400 and only that is. */
  lemma BlankClubRejected(h: Host, env: Env, club: Option<string>, limitParam: Option<string>)
    requires env.url != "" && env.key != ""
    ensures Route(h, env, club, limitParam) == ClubRequired <==>
      club.None? || NonSpaces(club.value) == []
  {
    TrimBlank(if club.Some? then club.value else "");
    assert club.None? ==> NonSpaces("") == [];
  }

  /**
   * A 404 comes exactly when every `clubs` lookup and the view lookup miss
   * (none of them throwing); it names the club asked for.
   */
  lemma ServeNotFound(h: Host, env: Env, clubName: string, limitDays: Option<real>)
    ensures ServeClub(h, env, clubName, limitDays).NotFound? <==>
      && (forall j :: 0 <= j < |EqAttempts + IlikeAttempts| ==>
            Ask(env, ClubsRequest((EqAttempts + IlikeAttempts)[j], clubName), "id").Miss?)
      && Ask(env, ViewRequest(clubName), "club_id").Miss?
    ensures ServeClub(h, env, clubName, limitDays).NotFound? ==> ServeClub(h, env, clubName, limitDays).club == clubName
  {
    ResolveFromMeaning(env, clubName, EqAttempts + IlikeAttempts);
  }

  /** With configuration present and a non-blank club, a 404 means every lookup missed. */
  lemma NotFoundMeaning(h: Host, env: Env, club: Option<string>, limitParam: Option<string>)
    requires env.url != "" && env.key != "" && ClubParam(club) != ""
    ensures Route(h, env, club, limitParam).NotFound? <==>
      && (forall j :: 0 <= j < |EqAttempts + IlikeAttempts| ==>
            Ask(env, ClubsRequest((EqAttempts + IlikeAttempts)[j], ClubParam(club)), "id").Miss?)
      && Ask(env, ViewRequest(ClubParam(club)), "club_id").Miss?
    ensures Route(h, env, club, limitParam).NotFound? ==> Route(h, env, club, limitParam).club == ClubParam(club)
  {
    ServeNotFound(h, env, ClubParam(club), LimitDays(h, limitParam));
  }

  /**
   * The view is consulted only when the whole `clubs` chain misses: a
   * series matched by the view's `club_name` implies that no `clubs`
   * lookup hit.
   */
  lemma ServeFallbackOnlyAfterChain(h: Host, env: Env, clubName: string, limitDays: Option<real>)
    requires ServeClub(h, env, clubName, limitDays).Series?
    ensures ServeClub(h, env, clubName, limitDays).matchedBy == ViewMatch <==>
      forall j :: 0 <= j < |EqAttempts + IlikeAttempts| ==>
        Ask(env, ClubsRequest((EqAttempts + IlikeAttempts)[j], clubName), "id").Miss?
  {
    ResolveFromMeaning(env, clubName, EqAttempts + IlikeAttempts);
    ResolvedTag(env, clubName, EqAttempts + IlikeAttempts);
  }

  /** The same for the handler as a whole. */
  lemma FallbackOnlyAfterChain(h: Host, env: Env, club: Option<string>, limitParam: Option<string>)
    requires Route(h, env, club, limitParam).Series?
    ensures Route(h, env, club, limitParam).matchedBy == ViewMatch <==>
      forall j :: 0 <= j < |EqAttempts + IlikeAttempts| ==>
        Ask(env, ClubsRequest((EqAttempts + IlikeAttempts)[j], ClubParam(club)), "id").Miss?
  {
    ServeFallbackOnlyAfterChain(h, env, ClubParam(club), LimitDays(h, limitParam));
  }

  /** A series answer names a truthy club id, the resolved one or the view's. */
  lemma ServeHasClubId(h: Host, env: Env, clubName: string, limitDays: Option<real>)
    requires ServeClub(h, env, clubName, limitDays).Series?
    ensures Truthy(ServeClub(h, env, clubName, limitDays).clubId)
  {
    ResolvedIdTruthy(env, clubName, EqAttempts + IlikeAttempts);
  }

  /** The same for the handler as a whole. */
  lemma SeriesHasClubId(h: Host, env: Env, club: Option<string>, limitParam: Option<string>)
    requires Route(h, env, club, limitParam).Series?
    ensures Truthy(Route(h, env, club, limitParam).clubId)
  {
    ServeHasClubId(h, env, ClubParam(club), LimitDays(h, limitParam));
  }
}
