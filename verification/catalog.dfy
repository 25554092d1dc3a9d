/**
 * The dive-site listing endpoint `GET /api/sites`: it turns the query string
 * into a filter (the "where clause"), counts the matching sites, returns one
 * page of them, newest first, and reports the pagination figures; any
 * failure of the store becomes a 500 response with an `error` field.
 *
 * The store is a sequence of sites in its own order; a failing `count` or
 * `findMany` is the input `storeFails`.
 */
module Catalog {
  import opened Wrappers
  import opened Text
  import opened Seqs

  datatype Difficulty = Beginner | Intermediate | Advanced | Technical

  datatype DiveType = Shore | Boat | Wreck | Cave | Drift | Wall | Reef | Night | TechnicalDive

  /** How a difficulty level is spelt in requests and responses. */
  function DifficultyName(d: Difficulty): string {
    match d
    case Beginner => "BEGINNER"
    case Intermediate => "INTERMEDIATE"
    case Advanced => "ADVANCED"
    case Technical => "TECHNICAL"
  }

  /** How a dive type is spelt in requests and responses. */
  function DiveTypeName(t: DiveType): string {
    match t
    case Shore => "SHORE"
    case Boat => "BOAT"
    case Wreck => "WRECK"
    case Cave => "CAVE"
    case Drift => "DRIFT"
    case Wall => "WALL"
    case Reef => "REEF"
    case Night => "NIGHT"
    case TechnicalDive => "TECHNICAL"
  }

  /** The values the endpoint accepts for `difficulty`, in the order it lists them. */
  const DifficultyWhitelist: seq<string> := ["BEGINNER", "INTERMEDIATE", "ADVANCED", "TECHNICAL"]

  /** The values the endpoint accepts for `diveType`, in the order it lists them. */
  const DiveTypeWhitelist: seq<string> :=
    ["SHORE", "BOAT", "WRECK", "CAVE", "DRIFT", "WALL", "REEF", "NIGHT", "TECHNICAL"]

  /** The cast of a whitelisted `difficulty` value to the enumeration; `None` for any other value. */
  function ParseDifficulty(s: string): (r: Option<Difficulty>)
    ensures r.Some? <==> s in DifficultyWhitelist
    ensures r.Some? ==> DifficultyName(r.value) == s
  {
    if s == "BEGINNER" then Some(Beginner)
    else if s == "INTERMEDIATE" then Some(Intermediate)
    else if s == "ADVANCED" then Some(Advanced)
    else if s == "TECHNICAL" then Some(Technical)
    else None
  }

  /** The cast of a whitelisted `diveType` value to the enumeration; `None` for any other value. */
  function ParseDiveType(s: string): (r: Option<DiveType>)
    ensures r.Some? <==> s in DiveTypeWhitelist
    ensures r.Some? ==> DiveTypeName(r.value) == s
  {
    if s == "SHORE" then Some(Shore)
    else if s == "BOAT" then Some(Boat)
    else if s == "WRECK" then Some(Wreck)
    else if s == "CAVE" then Some(Cave)
    else if s == "DRIFT" then Some(Drift)
    else if s == "WALL" then Some(Wall)
    else if s == "REEF" then Some(Reef)
    else if s == "NIGHT" then Some(Night)
    else if s == "TECHNICAL" then Some(TechnicalDive)
    else None
  }

  /** Reading a name back gives the level it names. */
  lemma ParseDifficultyName(d: Difficulty)
    ensures ParseDifficulty(DifficultyName(d)) == Some(d)
  {
  }

  /** Reading a name back gives the dive type it names. */
  lemma ParseDiveTypeName(t: DiveType)
    ensures ParseDiveType(DiveTypeName(t)) == Some(t)
  {
  }

  /** The columns of a dive site the listing filters and orders on. */
  datatype Site = Site(
    id: nat,
    name: string,
    location: string,
    description: Option<string>,
    difficulty: Difficulty,
    diveTypes: seq<DiveType>,
    isActive: bool,
    createdAt: int)

  /** The query string, as the ordered name/value pairs of a `URLSearchParams`. */
  type Params = seq<(string, string)>

  /** `searchParams.get(key)`: the value of the first pair named `key`. */
  function Param(params: Params, key: string): (r: Option<string>)
    ensures r.Some? ==> (key, r.value) in params
    ensures r.None? ==> forall i :: 0 <= i < |params| ==> params[i].0 != key
  {
    if params == [] then None
    else if params[0].0 == key then Some(params[0].1)
    else Param(params[1..], key)
  }

  /** When the key is repeated, `get` returns the value of its first pair. */
  lemma {:induction false} ParamIsFirst(params: Params, key: string, i: nat)
    requires i < |params| && params[i].0 == key
    requires forall j :: 0 <= j < i ==> params[j].0 != key
    ensures Param(params, key) == Some(params[i].1)
  {
    if i > 0 {
      ParamIsFirst(params[1..], key, i - 1);
    }
  }

  /** Pairs with other names in front of `rest` do not change what `get` finds. */
  lemma {:induction false} ParamSkips(pre: Params, rest: Params, key: string)
    requires forall i :: 0 <= i < |pre| ==> pre[i].0 != key
    ensures Param(pre + rest, key) == Param(rest, key)
  {
    if pre == [] {
      assert pre + rest == rest;
    } else {
      TailOfConcat(pre, rest);
      ParamSkips(pre[1..], rest, key);
    }
  }

  /** The where clause: `isActive` is always required; the other three parts are optional. */
  datatype Where = Where(
    isActive: bool,
    anyOf: Option<string>,
    difficulty: Option<Difficulty>,
    hasDiveType: Option<DiveType>)

  /** One of name, location or description contains `q`, ignoring case (a null description never does). */
  predicate Mentions(s: Site, q: string) {
    || ContainsIgnoringCase(s.name, q)
    || ContainsIgnoringCase(s.location, q)
    || (s.description.Some? && ContainsIgnoringCase(s.description.value, q))
  }

  /** What the store selects for a where clause. */
  predicate Matches(w: Where, s: Site) {
    && s.isActive == w.isActive
    && (w.anyOf.Some? ==> Mentions(s, w.anyOf.value))
    && (w.difficulty.Some? ==> s.difficulty == w.difficulty.value)
    && (w.hasDiveType.Some? ==> w.hasDiveType.value in s.diveTypes)
  }

  /** The where clause the endpoint builds for a query string. */
  function QueryWhere(params: Params): (w: Where)
    ensures w.isActive
  {
    var search := Param(params, "search");
    var difficulty := Param(params, "difficulty");
    var diveType := Param(params, "diveType");
    Where(
      true,
      if search.Some? && search.value != "" then search else None,
      if difficulty.Some? then ParseDifficulty(difficulty.value) else None,
      if diveType.Some? then ParseDiveType(diveType.value) else None)
  }

  /** Builds the where clause step by step, one optional part after another. */
  method BuildWhere(params: Params) returns (w: Where)
    ensures w == QueryWhere(params)
  {
    w := Where(true, None, None, None);
    var search := Param(params, "search");
    if search.Some? && search.value != "" {
      w := w.(anyOf := search);
    }
    var difficulty := Param(params, "difficulty");
    if difficulty.Some? && difficulty.value != "" && difficulty.value in DifficultyWhitelist {
      w := w.(difficulty := ParseDifficulty(difficulty.value));
    }
    var diveType := Param(params, "diveType");
    if diveType.Some? && diveType.value != "" && diveType.value in DiveTypeWhitelist {
      w := w.(hasDiveType := ParseDiveType(diveType.value));
    }
  }

  /** The names of a site's dive types. */
  function DiveTypeNames(ts: seq<DiveType>): (r: seq<string>)
    ensures |r| == |ts|
    ensures forall i :: 0 <= i < |ts| ==> r[i] == DiveTypeName(ts[i])
  {
    seq(|ts|, i requires 0 <= i < |ts| => DiveTypeName(ts[i]))
  }

  /**
   * What the where clause selects, stated on the raw query string: an active
   * site; with a non-empty `search`, one that mentions it; with a whitelisted
   * `difficulty`, one of that level; with a whitelisted `diveType`, one whose
   * types include it. A missing, empty or unknown value adds no constraint.
   */
  lemma {:induction false} QueryWhereSelects(params: Params, s: Site)
    ensures Matches(QueryWhere(params), s) <==>
      && s.isActive
      && (Param(params, "search").Some? && Param(params, "search").value != ""
          ==> Mentions(s, Param(params, "search").value))
      && (Param(params, "difficulty").Some? && Param(params, "difficulty").value in DifficultyWhitelist
          ==> DifficultyName(s.difficulty) == Param(params, "difficulty").value)
      && (Param(params, "diveType").Some? && Param(params, "diveType").value in DiveTypeWhitelist
          ==> Param(params, "diveType").value in DiveTypeNames(s.diveTypes))
  {
    var d := Param(params, "difficulty");
    if d.Some? && d.value in DifficultyWhitelist {
      ParseDifficultyName(s.difficulty);
    }
    var t := Param(params, "diveType");
    if t.Some? && t.value in DiveTypeWhitelist {
      var names := DiveTypeNames(s.diveTypes);
      if t.value in names {
        var i :| 0 <= i < |names| && names[i] == t.value;
        ParseDiveTypeName(s.diveTypes[i]);
      }
    }
  }

  /** A `difficulty` outside the whitelist, such as `EXPERT`, leaves the difficulty unconstrained. */
  lemma UnknownDifficultyIgnored(params: Params, value: string)
    requires value !in DifficultyWhitelist
    ensures QueryWhere([("difficulty", value)] + params) == QueryWhere(params).(difficulty := None)
  {
    assert ([("difficulty", value)] + params)[1..] == params;
  }

  /** `x || d` on a query value: a missing or empty value takes the default. */
  function OrDefault(v: Option<string>, default: string): (r: string)
    ensures v.Some? && v.value != "" ==> r == v.value
    ensures v.None? || v.value == "" ==> r == default
  {
    if v.Some? && v.value != "" then v.value else default
  }

  /** `parseInt(page || '1')`; `None` is `NaN`. */
  function PageNumber(params: Params): Option<int> {
    ParseInt(OrDefault(Param(params, "page"), "1"))
  }

  /** `parseInt(limit || '12')`; `None` is `NaN`. */
  function PageSize(params: Params): Option<int> {
    ParseInt(OrDefault(Param(params, "limit"), "12"))
  }

  /** Without `page` and `limit` the first page of twelve is asked for. */
  lemma DefaultPaging(params: Params)
    requires Param(params, "page").None? && Param(params, "limit").None?
    ensures PageNumber(params) == Some(1) && PageSize(params) == Some(12)
  {
    DecimalLiterals();
    ParseIntRoundTrip(1);
    ParseIntRoundTrip(12);
  }

  /**
   * `Math.ceil(total / limit)` as it reaches the JSON body: the infinite or
   * undefined quotient of a zero `limit` is written as `null`, here `None`.
   */
  function TotalPages(total: nat, limit: int): (r: Option<int>)
    ensures limit > 0 ==> r.Some? && (r.value - 1) * limit < total <= r.value * limit
    ensures limit == 0 <==> r.None?
  {
    if limit == 0 then None
    else if limit > 0 then Some((total + limit - 1) / limit)
    else Some(-(total / -limit))
  }

  /** `createdAt` never increases along the sequence. */
  predicate NewestFirstOrder(xs: seq<Site>) {
    forall i :: 0 <= i < |xs| - 1 ==> xs[i].createdAt >= xs[i + 1].createdAt
  }

  /** Places `x` before the first site that is not newer than it (so equal timestamps keep their order). */
  function InsertNewest(x: Site, sorted: seq<Site>): (r: seq<Site>)
    ensures multiset(r) == multiset(sorted) + multiset{x}
    ensures |r| == |sorted| + 1
    ensures r[0] == x || (sorted != [] && r[0] == sorted[0])
  {
    if sorted == [] then [x]
    else if x.createdAt >= sorted[0].createdAt then [x] + sorted
    else
      assert sorted == [sorted[0]] + sorted[1..];
      [sorted[0]] + InsertNewest(x, sorted[1..])
  }

  /** Inserting into a newest-first sequence keeps it newest first. */
  lemma {:induction false} InsertNewestKeepsOrder(x: Site, sorted: seq<Site>)
    requires NewestFirstOrder(sorted)
    ensures NewestFirstOrder(InsertNewest(x, sorted))
  {
    if sorted != [] && x.createdAt < sorted[0].createdAt {
      InsertNewestKeepsOrder(x, sorted[1..]);
    }
  }

  /** `orderBy: { createdAt: 'desc' }`, stable on equal timestamps. */
  function NewestFirst(xs: seq<Site>): (r: seq<Site>)
    ensures multiset(r) == multiset(xs)
    ensures |r| == |xs|
    ensures NewestFirstOrder(r)
  {
    if xs == [] then []
    else
      assert xs == [xs[0]] + xs[1..];
      InsertNewestKeepsOrder(xs[0], NewestFirst(xs[1..]));
      InsertNewest(xs[0], NewestFirst(xs[1..]))
  }

  /** Adjacent order gives order between any two positions: no site is newer than one before it. */
  lemma {:induction false} NewestFirstPairs(xs: seq<Site>, i: nat, j: nat)
    requires NewestFirstOrder(xs) && i <= j < |xs|
    ensures xs[i].createdAt >= xs[j].createdAt
    decreases j - i
  {
    if i < j {
      NewestFirstPairs(xs, i + 1, j);
    }
  }

  /** `skip`/`take`: the part of `xs` from position `skip` on, at most `take` long. */
  function Window<T>(xs: seq<T>, skip: nat, take: nat): (r: seq<T>)
    ensures |r| <= take && |r| <= |xs|
    ensures |r| > 0 ==> skip + |r| <= |xs|
    ensures forall i :: 0 <= i < |r| ==> r[i] == xs[skip + i]
    ensures skip + take <= |xs| ==> |r| == take
    ensures skip <= |xs| < skip + take ==> |r| == |xs| - skip
  {
    var lo := if skip < |xs| then skip else |xs|;
    var hi := if skip + take < |xs| then skip + take else |xs|;
    xs[lo..hi]
  }

  datatype Pagination = Pagination(page: int, limit: int, total: nat, totalPages: Option<int>, hasMore: bool)

  datatype Response =
    | Listing(sites: seq<Site>, pagination: Pagination)
    | Failure(status: nat, error: string)

  /** The sites of `store` that a where clause selects, in store order. */
  function Selected(w: Where, store: seq<Site>): seq<Site> {
    Filter(s => Matches(w, s), store)
  }

  /** What the handler reads from the query string: the where clause, `page` and `limit`. */
  datatype Request = Request(where: Where, page: Option<int>, limit: Option<int>)

  function ParseRequest(params: Params): Request {
    Request(QueryWhere(params), PageNumber(params), PageSize(params))
  }

  /**
   * Whether the store takes the window: `page` and `limit` are numbers and
   * neither the skip nor the take is negative.
   */
  predicate WindowAccepted(req: Request) {
    && req.page.Some?
    && req.limit.Some?
    && req.limit.value >= 0
    && (req.page.value - 1) * req.limit.value >= 0
  }

  /** The handler once the query string is read: count, fetch one window, report the pagination. */
  function Serve(req: Request, store: seq<Site>, storeFails: bool): (r: Response)
    ensures r.Failure? <==> storeFails || !WindowAccepted(req)
    ensures r.Failure? ==> r.status == 500 && r.error == "Failed to fetch dive sites"
    ensures r.Listing? ==> r.pagination.total == |Selected(req.where, store)|
    ensures r.Listing? ==> |r.sites| <= r.pagination.limit && |r.sites| <= r.pagination.total
    ensures r.Listing? ==>
      r.sites == Window(NewestFirst(Selected(req.where, store)), (req.page.value - 1) * req.limit.value, req.limit.value)
    ensures r.Listing? ==>
      var total := |Selected(req.where, store)|;
      r.pagination == Pagination(req.page.value, req.limit.value, total, TotalPages(total, req.limit.value),
                                 req.page.value * req.limit.value < total)
  {
    if storeFails || !WindowAccepted(req) then Failure(500, "Failed to fetch dive sites")
    else
      var page := req.page.value;
      var limit: nat := req.limit.value;
      var skip: nat := (page - 1) * limit;
      var matches := Selected(req.where, store);
      var sites := Window(NewestFirst(matches), skip, limit);
      Listing(sites, Pagination(page, limit, |matches|, TotalPages(|matches|, limit), page * limit < |matches|))
  }

  /** `GET /api/sites`: the response for a query string and the store's contents. */
  function Respond(params: Params, store: seq<Site>, storeFails: bool): Response {
    Serve(ParseRequest(params), store, storeFails)
  }

  /** Every site in a listing is active and satisfies the where clause the total was counted with. */
  lemma ListedSitesMatch(req: Request, store: seq<Site>, storeFails: bool, i: nat)
    requires Serve(req, store, storeFails).Listing?
    requires i < |Serve(req, store, storeFails).sites|
    ensures Matches(req.where, Serve(req, store, storeFails).sites[i])
  {
    var r := Serve(req, store, storeFails);
    var limit: nat := req.limit.value;
    var skip: nat := (req.page.value - 1) * limit;
    var matches := Selected(req.where, store);
    var ordered := NewestFirst(matches);
    assert r.sites == Window(ordered, skip, limit);
    var k := skip + i;
    assert r.sites[i] == ordered[k];
    NewestFirstKeepsMembers(matches, k);
    SelectedMatch(req.where, store, ordered[k]);
  }

  lemma NewestFirstKeepsMembers(xs: seq<Site>, k: nat)
    requires k < |NewestFirst(xs)|
    ensures NewestFirst(xs)[k] in xs
  {
    var r := NewestFirst(xs);
    assert r[k] in multiset(r);
  }

  lemma SelectedMatch(w: Where, store: seq<Site>, x: Site)
    requires x in Selected(w, store)
    ensures Matches(w, x)
  {
    var s := Selected(w, store);
    var j :| 0 <= j < |s| && s[j] == x;
  }

  /** Whatever the query string, a listing holds active sites only. */
  lemma ListingIsActiveOnly(params: Params, store: seq<Site>, storeFails: bool, i: nat)
    requires Respond(params, store, storeFails).Listing?
    requires i < |Respond(params, store, storeFails).sites|
    ensures Respond(params, store, storeFails).sites[i].isActive
  {
    ListedSitesMatch(ParseRequest(params), store, storeFails, i);
  }

  lemma MulMonotone(a: int, b: int, c: int)
    requires a <= b && c >= 0
    ensures a * c <= b * c
  {
  }

  lemma {:induction false} HasMoreArithmetic(page: int, limit: int, total: nat)
    requires page >= 1 && limit >= 1
    ensures (page * limit < total) <==> page < TotalPages(total, limit).value
  {
    var pages := TotalPages(total, limit).value;
    if page < pages {
      MulMonotone(page, pages - 1, limit);
    } else {
      MulMonotone(pages, page, limit);
    }
  }

  /** With a limit of at least one, `hasMore` says exactly that the page is before the last page reported. */
  lemma HasMoreIffNotLastPage(req: Request, store: seq<Site>, storeFails: bool)
    requires Serve(req, store, storeFails).Listing? && req.limit.Some? && req.limit.value >= 1
    ensures var p := Serve(req, store, storeFails).pagination;
      p.page >= 1 && p.totalPages.Some? && (p.hasMore <==> p.page < p.totalPages.value)
  {
    var limit := req.limit.value;
    if req.page.value < 1 {
      MulMonotone(req.page.value - 1, -1, limit);
    }
    HasMoreArithmetic(req.page.value, limit, |Selected(req.where, store)|);
  }

  /** A listing is ordered newest first. */
  lemma {:induction false} ListingIsNewestFirst(req: Request, store: seq<Site>, storeFails: bool)
    requires Serve(req, store, storeFails).Listing?
    ensures NewestFirstOrder(Serve(req, store, storeFails).sites)
  {
    var r := Serve(req, store, storeFails);
    var ordered := NewestFirst(Selected(req.where, store));
    var skip := (r.pagination.page - 1) * r.pagination.limit;
    forall i | 0 <= i < |r.sites| - 1
      ensures r.sites[i].createdAt >= r.sites[i + 1].createdAt
    {
      assert r.sites[i] == ordered[skip + i] && r.sites[i + 1] == ordered[skip + i + 1];
    }
  }

  /** The listing of page `page` of `limit` sites for a where clause, when the store does not fail. */
  function PageOf(w: Where, page: int, limit: int, store: seq<Site>): Response {
    Serve(Request(w, Some(page), Some(limit)), store, false)
  }

  /** The site at position `i` of a page is the match at position `(page - 1) * limit + i` of the newest-first order. */
  lemma SiteOfPage(w: Where, page: int, limit: int, store: seq<Site>, i: nat)
    requires PageOf(w, page, limit, store).Listing? && i < |PageOf(w, page, limit, store).sites|
    ensures 0 <= (page - 1) * limit && i < limit
    ensures (page - 1) * limit + i < |NewestFirst(Selected(w, store))|
    ensures PageOf(w, page, limit, store).sites[i] == NewestFirst(Selected(w, store))[(page - 1) * limit + i]
  {
    var ordered := NewestFirst(Selected(w, store));
    var skip: nat := (page - 1) * limit;
    var r := Serve(Request(w, Some(page), Some(limit)), store, false);
    assert r.sites == Window(ordered, skip, limit);
    assert r.sites[i] == ordered[skip + i];
  }

  /** No site on a later page is newer than any site on an earlier page. */
  lemma LaterPagesAreNoNewer(w: Where, limit: nat, p: nat, q: nat, store: seq<Site>, i: nat, j: nat)
    requires limit >= 1 && 1 <= p < q
    requires PageOf(w, p, limit, store).Listing? && i < |PageOf(w, p, limit, store).sites|
    requires PageOf(w, q, limit, store).Listing? && j < |PageOf(w, q, limit, store).sites|
    ensures PageOf(w, p, limit, store).sites[i].createdAt >= PageOf(w, q, limit, store).sites[j].createdAt
  {
    SiteOfPage(w, p, limit, store, i);
    SiteOfPage(w, q, limit, store, j);
    OffsetsOrdered(p, q, limit, i, j);
    NewestFirstPairs(NewestFirst(Selected(w, store)), (p - 1) * limit + i, (q - 1) * limit + j);
  }

  lemma OffsetsOrdered(p: int, q: int, limit: int, i: nat, j: nat)
    requires 1 <= p < q && i < limit
    ensures (p - 1) * limit + i <= (q - 1) * limit + j
  {
    MulMonotone(p, q - 1, limit);
  }

  /**
   * No match is left out: with a limit of at least one, the match at position
   * `i` of the newest-first order is listed on page `i / limit + 1`, at
   * position `i % limit`.
   */
  lemma PageOfMatch(w: Where, limit: nat, store: seq<Site>, i: nat)
    requires limit >= 1 && i < |Selected(w, store)|
    ensures var r := PageOf(w, i / limit + 1, limit, store);
      r.Listing? && i % limit < |r.sites| && r.sites[i % limit] == NewestFirst(Selected(w, store))[i]
  {
    var p := i / limit + 1;
    var skip := DivModSplit(i, limit);
    var ordered := NewestFirst(Selected(w, store));
    var req := Request(w, Some(p), Some(limit));
    assert WindowAccepted(req);
    var r := Serve(req, store, false);
    assert r.sites == Window(ordered, skip, limit);
    assert r.sites[i % limit] == ordered[skip + i % limit];
  }

  /** `i` splits into whole pages of `limit` and a remainder: the offset of page `i / limit + 1` is at most `i`. */
  lemma DivModSplit(i: nat, limit: nat) returns (skip: nat)
    requires limit >= 1
    ensures skip == (i / limit + 1 - 1) * limit && skip + i % limit == i && i % limit < limit
  {
    skip := (i / limit) * limit;
  }

  /** Twenty-five matches in pages of twelve: 12 and 12 with more to come, then 1 with nothing after it. */
  lemma TwentyFiveInPagesOfTwelve(w: Where, store: seq<Site>)
    requires |Selected(w, store)| == 25
    ensures PageOf(w, 1, 12, store).Listing? && |PageOf(w, 1, 12, store).sites| == 12
    ensures PageOf(w, 1, 12, store).pagination.hasMore && PageOf(w, 1, 12, store).pagination.totalPages == Some(3)
    ensures PageOf(w, 2, 12, store).Listing? && |PageOf(w, 2, 12, store).sites| == 12
    ensures PageOf(w, 2, 12, store).pagination.hasMore
    ensures PageOf(w, 3, 12, store).Listing? && |PageOf(w, 3, 12, store).sites| == 1
    ensures !PageOf(w, 3, 12, store).pagination.hasMore
  {
  }
}
