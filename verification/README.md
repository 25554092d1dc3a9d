# Diving sites: a verified model of the listing, explore page, review form and seed script

This project is a Dafny model of the core of a Next.js and Prisma web application for cataloguing dive sites. It covers seven parts of the application.

- The dive-site listing endpoint `GET /api/sites` (module `Catalog`). It does the following:
  - reads `search`, `difficulty`, `diveType`, `page` and `limit` from the query string;
  - builds the where clause, with only active sites, an optional case-insensitive text match, and the whitelisted difficulty and dive type;
  - counts the matches and returns one window of them, newest first;
  - reports `page`, `limit`, `total`, `totalPages` and `hasMore`;
  - turns any store failure into a 500 response.
- The explore page (module `Explore`). It covers:
  - the slug each site card links to;
  - the difficulty badge: its label and colour;
  - the per-difficulty sections;
  - the query string `fetchSites` sends;
  - how the reply updates the page state.
- The `useAuth` hook (module `Auth`): the role hierarchy `GUEST < USER < GUIDE < ADMIN`, `hasRole`, and the derived flags.
- The review form (module `ReviewForm`). It covers:
  - the initial state;
  - the two validation guards;
  - the create (`POST`) or update (`PUT`) request with the trimmed body;
  - the error and submitting state the reply leaves;
  - the submit button's disabled condition;
  - the sign-in prompt.
- The ten-star rating widget (module `StarRating`): click, hover and mouse-leave handlers, the displayed rating, which stars are filled, and the `n/10` label.
- The marine-life panel (module `MarineLife`). It covers:
  - the fetch effect;
  - loading, error and empty states;
  - grouping species by type in order of first appearance;
  - each group's icon, badge colour and heading.
- The seed script (module `Seed`). It covers:
  - the three user upserts;
  - creating only the sites, reviews, species and site–species links that are missing;
  - the review step, which aborts when one to three sites are stored;
  - linking each of the first ten sites to the first 3–8 species of a shuffled list.

Supporting modules:
- `Wrappers` holds `Option`.
- `Seqs` holds order-preserving filtering and small sequence facts.
- `Text` holds the JavaScript string operations the core relies on: ASCII `toLowerCase`, `includes`, `trim` with the JavaScript whitespace set, decimal rendering, and `parseInt` with base detection.

How things are modelled:
- Stateful parts are classes whose fields the methods update: `ExplorePage`, `ReviewFormState`, `StarRatingWidget`, `MarineLifeDisplay` and the seed `Database`.
- Loops are methods with invariants: the where-clause builder, the `URLSearchParams` builder, the grouping `reduce`, and the seed loops.
- Each method is proved against a specification function. The application's promises are proved as lemmas about those functions.

Inputs that stand in for the outside world:
- Network replies and store failures are parameters.
- In the seed script, the random species count is a function `count` into `3..8`.
- In the seed script, the random shuffle is a function `shuffle` that returns a permutation.

## Model

| member | source | states |
|---|---|---|
| Catalog.ParseDifficulty | src/app/api/sites/route.ts:28-30 | a difficulty is accepted exactly when it is one of the four whitelisted names, and the level it yields is spelt that name |
| Catalog.ParseDiveType | src/app/api/sites/route.ts:32-36 | a dive type is accepted exactly when it is one of the nine whitelisted names, and the type it yields is spelt that name |
| Catalog.ParseDifficultyName | src/app/api/sites/route.ts:28-30 | every stored difficulty level is accepted back under its own name |
| Catalog.ParseDiveTypeName | src/app/api/sites/route.ts:32-36 | every stored dive type is accepted back under its own name |
| Catalog.Param | src/app/api/sites/route.ts:8-12 | `get` returns a value paired with the key in the query, and returns nothing only when no pair has that key |
| Catalog.ParamIsFirst | src/app/api/sites/route.ts:8-12 | when a key is repeated, `get` returns the value of its first pair |
| Catalog.QueryWhere | src/app/api/sites/route.ts:16-18 | the where clause always requires `isActive` |
| Catalog.BuildWhere | src/app/api/sites/route.ts:16-36 | building the clause part by part yields the where clause of the query string |
| Catalog.QueryWhereSelects | src/app/api/sites/route.ts:16-36 | a site is selected iff it is active, mentions a non-empty `search` in its name, location or description (ignoring case), has the whitelisted `difficulty`, and lists the whitelisted `diveType` |
| Catalog.UnknownDifficultyIgnored | src/app/api/sites/route.ts:28-30 | a `difficulty` outside the whitelist (such as `EXPERT`) leaves the clause without a difficulty constraint |
| Catalog.OrDefault | src/app/api/sites/route.ts:11-12 | `x \|\| d`: a missing or empty value takes the default, and any other value is kept |
| Catalog.DefaultPaging | src/app/api/sites/route.ts:11-12 | without `page` and `limit` the first page of twelve is requested |
| Catalog.TotalPages | src/app/api/sites/route.ts:72 | for a positive limit, the page count is the least number of pages that holds all matches; for a zero limit it is `null` |
| Catalog.InsertNewest | src/app/api/sites/route.ts:59-61 | inserting a site yields a permutation of the sorted run plus that site |
| Catalog.InsertNewestKeepsOrder | src/app/api/sites/route.ts:59-61 | inserting a site into a newest-first run keeps it newest first |
| Catalog.NewestFirst | src/app/api/sites/route.ts:59-61 | ordering by `createdAt desc` gives a permutation of the matches that is newest first |
| Catalog.NewestFirstPairs | src/app/api/sites/route.ts:59-61 | in a newest-first sequence no later site is newer than an earlier one |
| Catalog.Window | src/app/api/sites/route.ts:62-63 | `skip`/`take` returns the run of at most `take` items starting at `skip`, and a full run when enough items remain |
| Catalog.Serve | src/app/api/sites/route.ts:39-83 | the response is the 500 failure exactly when the store fails or rejects the window. Otherwise the sites are the `limit` matches after the first `(page - 1) * limit` in newest-first order, and the pagination reports the page, the limit, the count of every match, the page count and whether `page * limit` falls short of that count |
| Catalog.ListedSitesMatch | src/app/api/sites/route.ts:39-64 | every listed site satisfies the where clause the total was counted with |
| Catalog.ListingIsActiveOnly | src/app/api/sites/route.ts:16-18 | every listed site is active |
| Catalog.HasMoreIffNotLastPage | src/app/api/sites/route.ts:72-73 | in every listing with a limit of at least one, the page is at least 1 and `hasMore` holds exactly when the page is before the last one reported by `totalPages` |
| Catalog.SiteOfPage | src/app/api/sites/route.ts:59-63 | the site at position `i` of a page is the match at position `(page - 1) * limit + i` of the newest-first order |
| Catalog.ListingIsNewestFirst | src/app/api/sites/route.ts:59-63 | every page is ordered newest first |
| Catalog.LaterPagesAreNoNewer | src/app/api/sites/route.ts:59-63 | for the same filters and limit, no site on a later page's listing is newer than any site on an earlier page's listing |
| Catalog.PageOfMatch | src/app/api/sites/route.ts:13 | the listing of page `i / limit + 1` succeeds and holds the match at position `i` of the newest-first order at position `i % limit`, so no match is left off every page |
| Catalog.TwentyFiveInPagesOfTwelve | src/app/api/sites/route.ts:62-73 | with 25 matches and a limit of 12, the listings of pages 1, 2 and 3 hold 12, 12 and 1 sites, `hasMore` is true, true and false, and there are 3 pages |
| Text.ParseIntRoundTrip | src/app/api/sites/route.ts:11-12 | `parseInt` reads back every integer written in decimal |
| Text.Lower | src/app/explore/page.tsx:59 | lower-casing keeps the length and maps each character to its lower-case form; digits stay digits |
| Text.Trim | src/components/ReviewForm.tsx:67 | the trimmed string is the original without its leading and trailing whitespace: a substring with only whitespace before and after it, which neither starts nor ends with whitespace and is empty only when the original is all whitespace |
| Text.TrimPadded | src/components/ReviewForm.tsx:86-87 | surrounding whitespace does not change what `trim` returns |
| Explore.SlugIsWellFormed | src/app/explore/page.tsx:58-60 | a slug holds only `[a-z0-9]` and single hyphens, and never starts or ends with a hyphen |
| Explore.SlugIdempotent | src/app/explore/page.tsx:58-60 | slugging a slug leaves it unchanged |
| Explore.SlugOfTwoWords | src/app/explore/page.tsx:58-60 | two alphanumeric words with any run of separators between them become the lower-cased words joined by one hyphen |
| Explore.FormatDifficulty | src/app/explore/page.tsx:54-56 | the label keeps the length and the first character, and lower-cases every later character |
| Explore.FormatDifficultyIdempotent | src/app/explore/page.tsx:54-56 | formatting a label again changes nothing, and a label has no capital after its first character |
| Explore.DifficultyColor | src/app/explore/page.tsx:39-52 | any value other than the four named levels gets the gray badge |
| Explore.DifficultyColorsDistinct | src/app/explore/page.tsx:39-52 | the four named levels get four different colours, none of them gray, and the stored level `TECHNICAL` gets gray |
| Explore.FilteredByDifficultyExact | src/app/explore/page.tsx:228-230 | a section holds every loaded site of its level, as often as it was loaded and nothing else, in page order |
| Explore.ExpertSectionEmpty | src/app/explore/page.tsx:228-230 | filtering on `EXPERT` never matches a stored site |
| Explore.BuildSearchParams | src/app/explore/page.tsx:201-208 | appending the parameters one by one yields the query string for the search and the selected level |
| Explore.SearchParamsRead | src/app/explore/page.tsx:201-208 | the endpoint reads `search` only for a non-empty query, `difficulty` only for a level other than `all`, no `diveType`, no `page`, and a `limit` of `12` |
| Explore.SearchParamsPaging | src/app/explore/page.tsx:208 | the page always asks for page 1 with 12 sites |
| Explore.PageReceivesFirstTwelve | src/app/explore/page.tsx:210-217 | the page receives sites exactly when the store does not fail, and then they are the first twelve matches of its search and level, newest first |
| Explore.AtMostTwelve | src/app/explore/page.tsx:208 | a listing the page receives holds at most twelve sites |
| Explore.ExpertSelectionIsUnfiltered | src/app/explore/page.tsx:205-207 | choosing `EXPERT` gets the same response as choosing all levels, because the endpoint's whitelist names `TECHNICAL` instead |
| Explore.ExplorePage.constructor | src/app/explore/page.tsx:178-183 | the page starts with no sites, loading, no error, an empty search, and all levels |
| Explore.ExplorePage.FetchSites | src/app/explore/page.tsx:195-226 | the page sends the query string for the debounced search and the level. An OK reply replaces the sites and clears the error; a non-OK or thrown reply keeps the sites and sets the error; loading ends either way |
| Auth.Level | src/hooks/useAuth.ts:15-20 | role levels run from 0 to 3 |
| Auth.LevelInjective | src/hooks/useAuth.ts:15-20 | two roles have the same level exactly when they are the same role |
| Auth.HasRole | src/hooks/useAuth.ts:11-12 | without a user, no role is held |
| Auth.HasRoleIsLevelOrder | src/hooks/useAuth.ts:22-25 | a user holds a role iff the user's level is at least that role's level, and of two roles one always covers the other |
| Auth.HasOwnRole | src/hooks/useAuth.ts:11-26 | every user holds their own role, and an admin holds every role |
| Auth.HasRoleUpwardClosed | src/hooks/useAuth.ts:14-25 | holding a role implies holding every lower one |
| Auth.UseAuth | src/hooks/useAuth.ts:4-43 | the hook passes the session user through, derives `isLoading` and `isAuthenticated` from the status, sets `isGuest` for a `GUEST` user, and sets the other flags through `hasRole` |
| Auth.RoleFlagsNested | src/hooks/useAuth.ts:28-31 | admin implies guide and guide implies user; without a user every role flag is false; a signed-in user is a guest or a user but not both |
| Auth.StatusFlagsExclusive | src/hooks/useAuth.ts:8-9 | loading and authenticated never hold together, and neither depends on the user |
| ReviewForm.Validate | src/components/ReviewForm.tsx:62-70 | a zero rating fails first with its message; otherwise the form fails exactly when the trimmed content has fewer than 10 characters |
| ReviewForm.ValidateIgnoresPadding | src/components/ReviewForm.tsx:67 | whitespace around the content never changes the validation outcome |
| ReviewForm.ReviewsUrl | src/components/ReviewForm.tsx:76 | the URL starts with `/api/sites/`, continues with the site id and ends with `/reviews` |
| ReviewForm.RequestFor | src/components/ReviewForm.tsx:76-88 | the request uses `PUT` exactly when editing and carries the rating and the trimmed content; the trimmed title is present exactly when it is non-empty |
| ReviewForm.SentContentIsLongEnough | src/components/ReviewForm.tsx:62-88 | a request that is sent has a non-zero rating and content of at least 10 characters |
| ReviewForm.ErrorAfter | src/components/ReviewForm.tsx:91-98 | the error is cleared exactly when the reply is OK. A rejected reply shows its `error` field, or the fixed message when that field is absent or empty. A thrown value shows its message, or the generic one |
| ReviewForm.SubmitDisabledMirrorsGuards | src/components/ReviewForm.tsx:185 | the submit button is disabled exactly while submitting or when a validation guard would fail |
| ReviewForm.ReviewFormState.constructor | src/components/ReviewForm.tsx:36-40 | the form starts from the existing review's rating, title and content, each falling back to `0` or empty, not submitting, with no error |
| ReviewForm.ReviewFormState.HandleSubmit | src/components/ReviewForm.tsx:59-102 | a failing guard sets its message and sends nothing. Otherwise the request is sent, `onSuccess` runs exactly on an OK reply, the error reflects the reply, and submitting ends. The form fields never change |
| ReviewForm.ReviewFormState.Settle | src/components/ReviewForm.tsx:75-101 | `onSuccess` runs exactly on an OK reply, the error reflects the reply, and submitting ends false |
| ReviewForm.ReviewFormState.Render | src/components/ReviewForm.tsx:44-57 | without a session only the sign-in prompt is shown. With one, the heading shows whether an existing review is being edited, and submit is disabled as the guards say. Cancel is disabled while submitting |
| StarRating.FillPattern | src/components/ui/star-rating.tsx:58-59 | star `i + 1` is filled exactly when it is at most the displayed rating |
| StarRating.FilledStarsArePrefix | src/components/ui/star-rating.tsx:58-59 | the filled stars form a prefix of the row |
| StarRating.CountFilledIsClamp | src/components/ui/star-rating.tsx:58-59 | the number of filled stars is the displayed rating clamped to `0..count` |
| StarRating.StarRatingWidget.constructor | src/components/ui/star-rating.tsx:16-24 | the widget starts with no hover |
| StarRating.StarRatingWidget.HandleStarClick | src/components/ui/star-rating.tsx:32-36 | `onChange` is called, with the clicked star, exactly when the widget is not read-only and has a handler |
| StarRating.StarRatingWidget.HandleStarHover | src/components/ui/star-rating.tsx:38-42 | hovering sets the hover rating unless the widget is read-only |
| StarRating.StarRatingWidget.HandleMouseLeave | src/components/ui/star-rating.tsx:44-48 | leaving clears the hover rating unless the widget is read-only |
| StarRating.StarRatingWidget.DisplayRating | src/components/ui/star-rating.tsx:50 | a non-zero hover rating is displayed, otherwise the rating; a read-only widget always displays its rating |
| StarRating.StarRatingWidget.Stars | src/components/ui/star-rating.tsx:58-82 | ten stars, each filled exactly when at or below the displayed rating; their count is the displayed rating clamped to `0..10` |
| StarRating.StarRatingWidget.ValueLabel | src/components/ui/star-rating.tsx:85-89 | the label is shown exactly when `showValue` is set, and it is the displayed rating in decimal followed by `/10`, whose number reads back as that rating |
| MarineLife.TypeIcon | src/components/MarineLifeDisplay.tsx:21-35 | plants, and only plants, get the leaf; corals and invertebrates, and only those, get the waves |
| MarineLife.TypeColor | src/components/MarineLifeDisplay.tsx:37-54 | an unknown type gets the slate badge |
| MarineLife.TypeColorsDistinct | src/components/MarineLifeDisplay.tsx:37-54 | the six known types get six different colours, none of them slate |
| MarineLife.Kinds | src/components/MarineLifeDisplay.tsx:125-131 | the types present, each once, and no others |
| MarineLife.KindsFirstAppearance | src/components/MarineLifeDisplay.tsx:125-135 | the types are listed in order of first appearance: of any two listed types, the earlier one occurs in the list before the later one first does |
| MarineLife.GroupAppend | src/components/MarineLifeDisplay.tsx:129 | an item is pushed onto the end of its own type's group only |
| MarineLife.GroupIsExact | src/components/MarineLifeDisplay.tsx:125-131 | a group holds every item of its type, as often as it occurs, and only items of that type |
| MarineLife.AbsentKindHasNoGroup | src/components/MarineLifeDisplay.tsx:125-131 | a type that never occurs has an empty group |
| MarineLife.GroupsPartition | src/components/MarineLifeDisplay.tsx:125-131 | the group sizes add up to the number of items |
| MarineLife.GroupsStep | src/components/MarineLifeDisplay.tsx:125-131 | one reducer step keeps the accumulator equal to the grouping of the items seen so far |
| MarineLife.AddToGroup | src/components/MarineLifeDisplay.tsx:126-130 | the reducer body turns the grouping of the items seen into the grouping with one more item |
| MarineLife.GroupByKind | src/components/MarineLifeDisplay.tsx:125-131 | the reduce yields one key per type present, in order of first appearance, each mapped to that type's items in list order |
| MarineLife.ReplaceFirstUnderscore | src/components/MarineLifeDisplay.tsx:140 | the first underscore becomes a space and every other character, later underscores included, is kept in place |
| MarineLife.SectionsOf | src/components/MarineLifeDisplay.tsx:135-140 | one section per type present, in order of first appearance, each holding that type's group |
| MarineLife.SectionsPartition | src/components/MarineLifeDisplay.tsx:135-140 | every section is non-empty, and between them the sections show every species exactly once |
| MarineLife.PresentKindHasGroup | src/components/MarineLifeDisplay.tsx:125-131 | a type that occurs has a non-empty group |
| MarineLife.MarineLifeDisplay.constructor | src/components/MarineLifeDisplay.tsx:57-59 | the panel starts with no species, loading, and no error |
| MarineLife.MarineLifeDisplay.FetchMarineLife | src/components/MarineLifeDisplay.tsx:61-85 | for an empty site id nothing is fetched and nothing changes. Otherwise the panel fetches its URL: an OK reply replaces the list, a non-OK or thrown reply keeps it and sets the error, and loading ends |
| MarineLife.MarineLifeDisplay.Render | src/components/MarineLifeDisplay.tsx:87-140 | the panel shows six skeletons while loading, then the error, then the empty notice; otherwise it shows exactly the sections of the grouped species, one per type present |
| Seed.Added | prisma/seed.ts:866-876 | create-if-missing adds only keys not already stored, each at most once, and after it every seeded key is stored |
| Seed.AddedConcat | prisma/seed.ts:866-876 | seeding two runs one after the other adds what seeding them together adds |
| Seed.AddedNothing | prisma/seed.ts:866-876 | seeding keys that are all stored adds nothing |
| Seed.AddedIdempotent | prisma/seed.ts:866-876 | running a seeding step a second time adds nothing |
| Seed.AddedKeepsDistinct | prisma/seed.ts:866-876 | seeding keeps stored keys free of duplicates |
| Seed.UserWithEmail | prisma/seed.ts:887-889 | the lookup by email finds a stored user with that email, and finds none exactly when no user has it |
| Seed.Database.CreateSite | prisma/seed.ts:872-874 | creating a site appends one row with a fresh id and leaves the other tables alone |
| Seed.Database.CreateReview | prisma/seed.ts:934-937 | creating a review whose user–site key is absent appends one row and leaves the other tables alone |
| Seed.Database.CreateSpecies | prisma/seed.ts:979-983 | creating a species appends one row with a fresh id and leaves the other tables alone |
| Seed.Database.CreateLink | prisma/seed.ts:1014-1021 | creating an absent site–species link appends it and leaves the other tables alone |
| Seed.UpsertUser | prisma/seed.ts:10-50 | an upsert keeps an existing user with that email untouched and returns its id, or else appends a new user. Either way a user with that email exists afterwards, every email found before is found on the same user, and no other table changes |
| Seed.UserWithEmailAppend | prisma/seed.ts:12-22 | a user appended under a new email is the one the lookup finds |
| Seed.SeedSites | prisma/seed.ts:866-876 | the site loop creates exactly the seed names not yet stored, in seed order, and keeps every stored site. Each new row has the name and the creator of the first seed entry with that name |
| Seed.SeedSpecies | prisma/seed.ts:973-985 | the species loop creates exactly the seed names not yet stored, in seed order, and keeps every stored species |
| Seed.SampleReviews | prisma/seed.ts:892-921 | the four sample reviews go to the first four of the fetched sites, written by the user, the guide, the user and the admin, rated 9, 8, 7 and 10 |
| Seed.SeedReviews | prisma/seed.ts:881-940 | the review step aborts exactly when the reviewer exists and one to three sites are stored, leaving the reviews unchanged. Otherwise it creates exactly the planned reviews whose user–site key is absent |
| Seed.InsertReviews | prisma/seed.ts:923-939 | the review loop creates exactly the planned reviews whose key is not yet stored, in order |
| Seed.LinksTo | prisma/seed.ts:1002-1023 | the links of a site pair it with each picked species, in order |
| Seed.SiteIds | prisma/seed.ts:992-995 | the ids of the stored sites in store order |
| Seed.SeedLinks | prisma/seed.ts:990-1024 | the association step adds exactly the planned links not yet stored: the first 3–8 species of a fresh shuffle for each of the first ten sites |
| Seed.LinkSite | prisma/seed.ts:995-1023 | one site's iteration shuffles the species list and adds that site's planned links that are missing |
| Seed.InsertLinks | prisma/seed.ts:1002-1023 | the inner loop adds exactly the planned links not yet stored, in order |
| Seed.PlannedLinksAreWellFormed | prisma/seed.ts:995-1023 | every planned link joins one of the first ten sites to a stored species |
| Seed.PlannedLinksPerSite | prisma/seed.ts:996-1000 | each site's links are the first `numSpecies` species of its shuffle, or all species when there are fewer |
| Seed.SitesBy | prisma/seed.ts:53-864 | the sample sites keep their order and names, and each is credited to the guide or to the admin as its entry says |
| Seed.RunSeed | prisma/seed.ts:7-1025 | after `main`, the admin, guide and regular user exist and the missing site names are added. The reviews planned for the stored accounts and sites are added where their key is absent. The script aborts at the reviews exactly when one to three sites are stored, leaving reviews, species and links untouched; otherwise the missing species names and the planned links of the first ten sites are added too. Stored sites are kept, and each new site is credited to the guide or the admin as its sample entry says |

## Left out

- Text.Lower: only ASCII `A`–`Z` are case-folded. JavaScript's full Unicode `toLowerCase` and Prisma's collation-dependent `mode: 'insensitive'` are not modelled.
- Lengths are counted in characters of the model's strings, not in UTF-16 code units as in JavaScript. This matters for the 10-character minimum of the review content.
- Catalog.Serve: Prisma accepts a negative `take` by reading backwards from the end. The model treats a negative `limit`, a negative `skip` or a `NaN` page or limit as the store rejecting the query (the 500 response).
- Catalog.NewestFirst: the order among sites with the same `createdAt` is the store's own. The model fixes one order and proves only that `createdAt` never increases.
- JavaScript numbers are modelled as unbounded integers. `parseInt` results beyond 2^53, and the floating-point division inside `Math.ceil`, are exact here.
- Fractional ratings and star values are not modelled. Ratings are integers.
- The explore page's 300 ms debounce and the timers around it are not modelled: `debouncedQuery` is a field that `FetchSites` reads. Loading skeletons and other JSX layout are not modelled.
- Explore.FormatDifficulty: the literal labels such as `Beginner` are not stated one by one. The model states the general rule and its idempotence.
- `encodeURIComponent` / `URLSearchParams` percent-encoding is not modelled. Parameters are name/value pairs.
- ReviewForm.ReviewFormState.HandleSubmit: an exception thrown by `onSuccess` itself, which the same `catch` would turn into an error message, is not modelled.
- ReviewForm: the session lookup (`useSession`) is an input (`hasSession`), and the `onCancel` callback is a button in the view.
- MarineLife.MarineLifeDisplay.FetchMarineLife: for an empty site id the effect does nothing, so the panel keeps showing the loading skeletons. The model reproduces this and does not state it as a separate property.
- Seed.RunSeed: the literal sample data is abstracted. The sample sites (name and creating account) and the species seeds are parameters, and site rows keep only the name and the creator.
- Seed.RunSeed: `bcrypt` password hashing, `console.log` output, `process.exit` and `$disconnect` are not modelled.
- Seed.SeedLinks: `Math.random` is replaced by two parameters. `count` returns 3–8 species per site; `shuffle` returns a permutation of the species list for each site. The bias of `sort(() => 0.5 - Math.random())` is not modelled.
- MarineLife.GroupByKind: species types are assumed to be the six stored type names. A type such as `constructor` would find an inherited member of the accumulator object in the source, and the `push` would throw; the model keys a map by any string instead.
- MarineLife.GroupByKind: the groups are listed in order of first appearance. JavaScript lists integer-like object keys first, but the six species types are not integer-like, so this does not arise for them.
- The site detail and review routes under `[slug]` and the debug route are not part of this model.
