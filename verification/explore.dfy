/**
 * The explore page: the slug it links each site card to, the difficulty
 * badge (label and colour), the per-difficulty sections, and the query string
 * it sends to the listing endpoint together with the page state that the
 * reply updates.
 */
module Explore {
  import opened Wrappers
  import opened Text
  import opened Seqs
  import opened Catalog

  // ---------------------------------------------------------------- slugs

  /** The characters a slug keeps: `[a-z0-9]`. */
  predicate IsSlugChar(c: char) { 'a' <= c <= 'z' || IsDigit(c) }

  /** A well-formed slug: lower-case letters and digits in hyphen-separated words, no empty word. */
  predicate IsSlug(t: string) {
    && (forall i :: 0 <= i < |t| ==> IsSlugChar(t[i]) || t[i] == '-')
    && (t != [] ==> t[0] != '-' && t[|t| - 1] != '-')
    && (forall i :: 0 <= i < |t| - 1 ==> t[i] == '-' ==> t[i + 1] != '-')
  }

  /** Drops the characters outside `[a-z0-9]` at the front of `s`. */
  function DropSeparators(s: string): (r: string)
    ensures |r| <= |s| && r == s[|s| - |r|..]
    ensures r != [] ==> IsSlugChar(r[0])
  {
    if s != [] && !IsSlugChar(s[0]) then DropSeparators(s[1..]) else s
  }

  /** `.replace(/[^a-z0-9]+/g, '-')`: every maximal run of other characters becomes one hyphen. */
  function CollapseRuns(s: string): (r: string)
    ensures s == [] <==> r == []
    ensures s != [] ==> r[0] == (if IsSlugChar(s[0]) then s[0] else '-')
    ensures forall i :: 0 <= i < |r| ==> IsSlugChar(r[i]) || r[i] == '-'
    ensures forall i :: 0 <= i < |r| - 1 ==> r[i] == '-' ==> r[i + 1] != '-'
    decreases |s|
  {
    if s == [] then []
    else if IsSlugChar(s[0]) then [s[0]] + CollapseRuns(s[1..])
    else ['-'] + CollapseRuns(DropSeparators(s[1..]))
  }

  /** `.replace(/^-|-$/g, '')`: one hyphen is removed from each end. */
  function TrimHyphens(s: string): string {
    var a := if s != [] && s[0] == '-' then s[1..] else s;
    if a != [] && a[|a| - 1] == '-' then a[..|a| - 1] else a
  }

  /** `generateSlug`: the URL segment of a site's detail page. */
  function GenerateSlug(name: string): string {
    TrimHyphens(CollapseRuns(Lower(name)))
  }

  /** A slug holds only `a-z`, `0-9` and `-`, never starts or ends with `-` and never holds `--`. */
  lemma SlugIsWellFormed(name: string)
    ensures IsSlug(GenerateSlug(name))
  {
    var c := CollapseRuns(Lower(name));
    var a := if c != [] && c[0] == '-' then c[1..] else c;
    assert a != [] ==> a[0] != '-';
  }

  /** Lower-casing leaves a slug as it is. */
  lemma LowerKeepsSlug(t: string)
    requires IsSlug(t)
    ensures Lower(t) == t
  {
  }

  /** A string with no doubled hyphen and nothing but slug characters and hyphens is its own collapse. */
  lemma {:induction false} CollapseKeepsSlug(t: string)
    requires forall i :: 0 <= i < |t| ==> IsSlugChar(t[i]) || t[i] == '-'
    requires forall i :: 0 <= i < |t| - 1 ==> t[i] == '-' ==> t[i + 1] != '-'
    ensures CollapseRuns(t) == t
    decreases |t|
  {
    if t != [] {
      var rest := t[1..];
      CollapseKeepsSlug(rest);
      if !IsSlugChar(t[0]) {
        assert DropSeparators(rest) == rest;
      }
    }
  }

  /** A well-formed slug is its own slug. */
  lemma SlugOfSlug(t: string)
    requires IsSlug(t)
    ensures GenerateSlug(t) == t
  {
    LowerKeepsSlug(t);
    CollapseKeepsSlug(t);
    assert TrimHyphens(t) == t;
  }

  /** `generateSlug` is idempotent. */
  lemma SlugIdempotent(name: string)
    ensures GenerateSlug(GenerateSlug(name)) == GenerateSlug(name)
  {
    SlugIsWellFormed(name);
    SlugOfSlug(GenerateSlug(name));
  }

  /** A word of slug characters passes through the collapse unchanged. */
  lemma {:induction false} CollapseOverWord(w: string, rest: string)
    requires forall i :: 0 <= i < |w| ==> IsSlugChar(w[i])
    ensures CollapseRuns(w + rest) == w + CollapseRuns(rest)
    decreases |w|
  {
    if w == [] {
      assert w + rest == rest;
    } else {
      assert (w + rest)[1..] == w[1..] + rest;
      CollapseOverWord(w[1..], rest);
      assert [w[0]] + w[1..] == w;
    }
  }

  /** A gap without slug characters before a word becomes one hyphen. */
  lemma {:induction false} CollapseOverGap(g: string, rest: string)
    requires g != [] && forall i :: 0 <= i < |g| ==> !IsSlugChar(g[i])
    requires rest != [] && IsSlugChar(rest[0])
    ensures CollapseRuns(g + rest) == "-" + CollapseRuns(rest)
  {
    assert (g + rest)[1..] == g[1..] + rest;
    DropOverGap(g[1..], rest);
  }

  lemma {:induction false} DropOverGap(g: string, rest: string)
    requires forall i :: 0 <= i < |g| ==> !IsSlugChar(g[i])
    requires rest != [] && IsSlugChar(rest[0])
    ensures DropSeparators(g + rest) == rest
    decreases |g|
  {
    if g == [] {
      assert g + rest == rest;
    } else {
      assert (g + rest)[1..] == g[1..] + rest;
      DropOverGap(g[1..], rest);
    }
  }

  /** Words whose letters fold to `[a-z0-9]`. */
  predicate IsWord(w: string) {
    w != [] && forall i :: 0 <= i < |w| ==> IsSlugChar(LowerChar(w[i]))
  }

  /** A gap: characters that are neither upper-case letters nor slug characters. */
  predicate IsGap(g: string) {
    g != [] && forall i :: 0 <= i < |g| ==> !IsUpper(g[i]) && !IsSlugChar(g[i])
  }

  /**
   * Two words around any gap (`"Blue Hole"`, `"Reef - Flynn"`) become the two
   * lower-cased words joined by one hyphen.
   */
  lemma SlugOfTwoWords(w1: string, g: string, w2: string)
    requires IsWord(w1) && IsGap(g) && IsWord(w2)
    ensures GenerateSlug(w1 + g + w2) == Lower(w1) + "-" + Lower(w2)
  {
    var l1, l2 := Lower(w1), Lower(w2);
    LowerOfTwoWords(w1, g, w2);
    CollapseOfTwoWords(l1, g, l2);
    var c := l1 + ("-" + l2);
    assert c[0] == l1[0] && c[|c| - 1] == l2[|l2| - 1];
    assert TrimHyphens(c) == c;
    assert c == l1 + "-" + l2;
  }

  lemma LowerOfTwoWords(w1: string, g: string, w2: string)
    requires IsGap(g)
    ensures Lower(w1 + g + w2) == Lower(w1) + (g + Lower(w2))
  {
    LowerAppend(w1 + g, w2);
    LowerAppend(w1, g);
    assert Lower(g) == g;
  }

  lemma CollapseOfTwoWords(l1: string, g: string, l2: string)
    requires forall i :: 0 <= i < |l1| ==> IsSlugChar(l1[i])
    requires forall i :: 0 <= i < |l2| ==> IsSlugChar(l2[i])
    requires IsGap(g) && l2 != []
    ensures CollapseRuns(l1 + (g + l2)) == l1 + ("-" + l2)
  {
    CollapseOverWord(l2, []);
    assert l2 + [] == l2;
    CollapseOverGap(g, l2);
    CollapseOverWord(l1, g + l2);
  }

  // ---------------------------------------------------------------- difficulty badge

  /** `formatDifficulty`: the first character as it is, the rest lower-cased. */
  function FormatDifficulty(d: string): (r: string)
    ensures |r| == |d|
    ensures d != [] ==> r[0] == d[0]
    ensures forall i :: 1 <= i < |d| ==> r[i] == LowerChar(d[i])
  {
    if d == [] then [] else [d[0]] + Lower(d[1..])
  }

  /** Formatting a label again changes nothing, and a label never has a capital after its first character. */
  lemma FormatDifficultyIdempotent(d: string)
    ensures FormatDifficulty(FormatDifficulty(d)) == FormatDifficulty(d)
    ensures forall i :: 1 <= i < |d| ==> !IsUpper(FormatDifficulty(d)[i])
  {
  }

  const GreenBadge := "bg-green-100 text-green-800 border-green-200"
  const YellowBadge := "bg-yellow-100 text-yellow-800 border-yellow-200"
  const RedBadge := "bg-red-100 text-red-800 border-red-200"
  const PurpleBadge := "bg-purple-100 text-purple-800 border-purple-200"
  const GrayBadge := "bg-gray-100 text-gray-800 border-gray-200"

  /** `getDifficultyColor`: a colour per named level, gray for every other value. */
  function DifficultyColor(d: string): (r: string)
    ensures d !in ["BEGINNER", "INTERMEDIATE", "ADVANCED", "EXPERT"] ==> r == GrayBadge
  {
    match d
    case "BEGINNER" => GreenBadge
    case "INTERMEDIATE" => YellowBadge
    case "ADVANCED" => RedBadge
    case "EXPERT" => PurpleBadge
    case _ => GrayBadge
  }

  /**
   * The four named levels get four different colours, none of them gray; the
   * stored level `TECHNICAL` is not among them and gets gray.
   */
  lemma DifficultyColorsDistinct()
    ensures var cs := [DifficultyColor("BEGINNER"), DifficultyColor("INTERMEDIATE"),
                       DifficultyColor("ADVANCED"), DifficultyColor("EXPERT"), GrayBadge];
      forall i, j :: 0 <= i < j < |cs| ==> cs[i] != cs[j]
    ensures DifficultyColor(DifficultyName(Technical)) == GrayBadge
  {
    DifficultyColorTable();
    // the sixth character tells the colours apart
    assert GreenBadge[5] == 'e';
    assert YellowBadge[5] == 'l';
    assert RedBadge[5] == 'd';
    assert PurpleBadge[5] == 'r';
    assert GrayBadge[5] == 'a';
  }

  lemma DifficultyColorTable()
    ensures DifficultyColor("BEGINNER") == GreenBadge && DifficultyColor("INTERMEDIATE") == YellowBadge
    ensures DifficultyColor("ADVANCED") == RedBadge && DifficultyColor("EXPERT") == PurpleBadge
    ensures DifficultyColor(DifficultyName(Technical)) == GrayBadge
  {
  }

  // ---------------------------------------------------------------- sections by difficulty

  /** `filteredSitesByDifficulty`: the loaded sites whose level is spelt `d`, in page order. */
  function FilteredByDifficulty(sites: seq<Site>, d: string): seq<Site> {
    Filter((x: Site) => DifficultyName(x.difficulty) == d, sites)
  }

  /**
   * The section for `d` holds every loaded site of that level as often as it
   * was loaded and nothing else, and the sections of two runs of sites
   * loaded one after the other are the two sections one after the other.
   */
  lemma FilteredByDifficultyExact(sites: seq<Site>, more: seq<Site>, d: string, s: Site)
    ensures multiset(FilteredByDifficulty(sites, d))[s] ==
      if DifficultyName(s.difficulty) == d then multiset(sites)[s] else 0
    ensures FilteredByDifficulty(sites + more, d) ==
      FilteredByDifficulty(sites, d) + FilteredByDifficulty(more, d)
  {
    FilterMultiplicity((x: Site) => DifficultyName(x.difficulty) == d, sites, s);
    FilterAppend((x: Site) => DifficultyName(x.difficulty) == d, sites, more);
  }

  /** No stored site is at level `EXPERT`, so a section for it is always empty. */
  lemma {:induction false} ExpertSectionEmpty(sites: seq<Site>)
    ensures FilteredByDifficulty(sites, "EXPERT") == []
  {
    if sites != [] {
      ExpertSectionEmpty(sites[1..]);
    }
  }

  // ---------------------------------------------------------------- the request

  /** The query string `fetchSites` sends for a debounced search and a selected level. */
  function SearchParams(query: string, difficulty: string): Params {
    (if query != "" then [("search", query)] else [])
    + (if difficulty != "all" then [("difficulty", difficulty)] else [])
    + [("limit", "12")]
  }

  /** Appends the parameters one by one, as `fetchSites` does with its `URLSearchParams`. */
  method BuildSearchParams(query: string, difficulty: string) returns (params: Params)
    ensures params == SearchParams(query, difficulty)
  {
    params := [];
    if query != "" {
      params := params + [("search", query)];
    }
    if difficulty != "all" {
      params := params + [("difficulty", difficulty)];
    }
    params := params + [("limit", "12")];
  }

  /**
   * What the listing endpoint reads from that query string: the search only
   * when it is non-empty, the level only when it is not `all`, no dive type,
   * no page, and a limit of `"12"`.
   */
  lemma SearchParamsRead(query: string, difficulty: string)
    ensures Param(SearchParams(query, difficulty), "search") == if query != "" then Some(query) else None
    ensures Param(SearchParams(query, difficulty), "difficulty") == if difficulty != "all" then Some(difficulty) else None
    ensures Param(SearchParams(query, difficulty), "diveType") == None
    ensures Param(SearchParams(query, difficulty), "page") == None
    ensures Param(SearchParams(query, difficulty), "limit") == Some("12")
  {
    var s: Params := if query != "" then [("search", query)] else [];
    var d: Params := if difficulty != "all" then [("difficulty", difficulty)] else [];
    var l: Params := [("limit", "12")];
    ConcatAssoc(s, d, l);
    ParamSkips(s + d, l, "limit");
    ParamSkips(s + d, l, "diveType");
    ParamSkips(s + d, l, "page");
    ParamSkips(s, d + l, "difficulty");
    if query == "" {
      ParamSkips(d, l, "search");
    }
  }

  /** The page always asks for the first page of twelve. */
  lemma SearchParamsPaging(query: string, difficulty: string)
    ensures PageNumber(SearchParams(query, difficulty)) == Some(1)
    ensures PageSize(SearchParams(query, difficulty)) == Some(12)
  {
    SearchParamsRead(query, difficulty);
    DecimalLiterals();
    ParseIntRoundTrip(12);
    ParseIntRoundTrip(1);
  }

  /** The page shows at most twelve sites, the newest matching ones. */
  lemma AtMostTwelve(query: string, difficulty: string, store: seq<Site>, storeFails: bool)
    requires Respond(SearchParams(query, difficulty), store, storeFails).Listing?
    ensures |Respond(SearchParams(query, difficulty), store, storeFails).sites| <= 12
  {
    SearchParamsPaging(query, difficulty);
  }

  /**
   * Choosing "Expert" on the page lists exactly what "All Levels" lists: the
   * endpoint's whitelist has `TECHNICAL` where the page offers `EXPERT`.
   */
  lemma ExpertSelectionIsUnfiltered(query: string, store: seq<Site>, storeFails: bool)
    ensures Respond(SearchParams(query, "EXPERT"), store, storeFails) ==
            Respond(SearchParams(query, "all"), store, storeFails)
  {
    SearchParamsRead(query, "EXPERT");
    SearchParamsRead(query, "all");
    assert ParseRequest(SearchParams(query, "EXPERT")) == ParseRequest(SearchParams(query, "all"));
  }

  // ---------------------------------------------------------------- page state

  /** What `fetch` brought back: the sites of an OK reply, a non-OK status, or a thrown error. */
  datatype FetchReply = Loaded(sites: seq<Site>) | NotOk | Thrown(message: string)

  /** The reply the page receives for a response of the listing endpoint. */
  function ReplyTo(r: Response): FetchReply {
    match r
    case Listing(sites, _) => Loaded(sites)
    case Failure(_, _) => NotOk
  }

  /**
   * What the page receives for its own request: sites exactly when the store
   * does not fail, and then the first twelve matches, newest first.
   */
  lemma PageReceivesFirstTwelve(query: string, difficulty: string, store: seq<Site>, storeFails: bool)
    ensures var reply := ReplyTo(Respond(SearchParams(query, difficulty), store, storeFails));
      && (reply.Loaded? <==> !storeFails)
      && (reply.Loaded? ==>
            reply.sites == Window(NewestFirst(Selected(QueryWhere(SearchParams(query, difficulty)), store)), 0, 12))
  {
    SearchParamsPaging(query, difficulty);
  }

  class ExplorePage {
    var sites: seq<Site>
    var loading: bool
    var error: Option<string>
    var searchTerm: string
    var selectedDifficulty: string
    var debouncedQuery: string

    /** The page as first rendered: no sites, loading, no error, no search, all levels. */
    constructor ()
      ensures sites == [] && loading && error == None
      ensures searchTerm == "" && selectedDifficulty == "all" && debouncedQuery == ""
    {
      sites := [];
      loading := true;
      error := None;
      searchTerm := "";
      selectedDifficulty := "all";
      debouncedQuery := "";
    }

    /**
     * `fetchSites`: sends the query string for the current search and level;
     * an OK reply replaces the sites and clears the error, a failure keeps
     * the sites and sets the error; loading ends either way.
     */
    method FetchSites(reply: FetchReply) returns (sent: Params)
      modifies this
      ensures sent == SearchParams(debouncedQuery, selectedDifficulty)
      ensures !loading
      ensures searchTerm == old(searchTerm) && selectedDifficulty == old(selectedDifficulty)
      ensures debouncedQuery == old(debouncedQuery)
      ensures reply.Loaded? ==> sites == reply.sites && error == None
      ensures reply.NotOk? ==> sites == old(sites) && error == Some("Failed to fetch dive sites")
      ensures reply.Thrown? ==> sites == old(sites) && error == Some(reply.message)
    {
      loading := true;
      error := None;
      sent := BuildSearchParams(debouncedQuery, selectedDifficulty);
      match reply {
        case Loaded(loaded) =>
          sites := loaded;
        case NotOk =>
          error := Some("Failed to fetch dive sites");
        case Thrown(message) =>
          error := Some(message);
      }
      loading := false;
    }
  }
}
