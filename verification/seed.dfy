/**
 * The seeding script over an in-memory database: the three account
 * upserts, then insert-if-absent loops for the dive sites (keyed by name),
 * the sample reviews (keyed by user and site), the marine-life species
 * (keyed by name) and the site/species associations (keyed by the pair).
 */
module Seed {
  import opened Wrappers
  import opened Seqs
  import Auth

  // ---------------------------------------------------------------- insert-if-absent

  predicate Distinct<K(==)>(s: seq<K>) {
    forall i, j :: 0 <= i < j < |s| ==> s[i] != s[j]
  }

  /**
   * The keys an insert-if-absent loop over `seed` adds to a table holding
   * `existing`: each seed key not yet present, the first time it is met.
   */
  function Added<K(==)>(existing: seq<K>, seed: seq<K>): (r: seq<K>)
    ensures |r| <= |seed|
    ensures forall i :: 0 <= i < |r| ==> r[i] !in existing
    ensures forall i :: 0 <= i < |r| ==> r[i] in seed
    ensures forall i :: 0 <= i < |seed| ==> seed[i] in existing || seed[i] in r
    ensures Distinct(r)
    decreases |seed|
  {
    if seed == [] then []
    else if seed[0] in existing then Added(existing, seed[1..])
    else [seed[0]] + Added(existing + [seed[0]], seed[1..])
  }

  /** One more seed key is added exactly when it is neither present nor added before. */
  lemma {:induction false} AddedAppend<K>(existing: seq<K>, seed: seq<K>, x: K)
    ensures Added(existing, seed + [x]) ==
      Added(existing, seed) + (if x in existing + Added(existing, seed) then [] else [x])
    decreases |seed|
  {
    if seed == [] {
      assert seed + [x] == [x];
    } else {
      TailOfConcat(seed, [x]);
      if seed[0] in existing {
        AddedAppend(existing, seed[1..], x);
      } else {
        var e := existing + [seed[0]];
        AddedAppend(e, seed[1..], x);
        ConcatAssoc(existing, [seed[0]], Added(e, seed[1..]));
      }
    }
  }

  /** Two loops one after the other add what one loop over both seeds adds. */
  lemma {:induction false} AddedConcat<K>(existing: seq<K>, first: seq<K>, second: seq<K>)
    ensures Added(existing, first + second) ==
      Added(existing, first) + Added(existing + Added(existing, first), second)
    decreases |first|
  {
    if first == [] {
      assert first + second == second;
      assert existing + [] == existing;
    } else {
      var a := first[0];
      TailOfConcat(first, second);
      if a in existing {
        AddedConcat(existing, first[1..], second);
      } else {
        var e := existing + [a];
        AddedConcat(e, first[1..], second);
        ConcatAssoc(existing, [a], Added(e, first[1..]));
        ConcatAssoc([a], Added(e, first[1..]), Added(e + Added(e, first[1..]), second));
      }
    }
  }

  /** A table filled from `start` by a first loop, then by a second, holds what one loop over both seeds adds. */
  lemma AddedThenMore<K>(start: seq<K>, first: seq<K>, second: seq<K>)
    ensures var filled := start + Added(start, first);
      filled + Added(filled, second) == start + Added(start, first + second)
  {
    AddedConcat(start, first, second);
    var a := Added(start, first);
    ConcatAssoc(start, a, Added(start + a, second));
  }

  /** A loop whose keys are all present adds nothing. */
  lemma {:induction false} AddedNothing<K>(existing: seq<K>, seed: seq<K>)
    requires forall i :: 0 <= i < |seed| ==> seed[i] in existing
    ensures Added(existing, seed) == []
  {
    if seed != [] {
      AddedNothing(existing, seed[1..]);
    }
  }

  /** Running the same loop a second time adds nothing. */
  lemma AddedIdempotent<K>(existing: seq<K>, seed: seq<K>)
    ensures Added(existing + Added(existing, seed), seed) == []
  {
    AddedNothing(existing + Added(existing, seed), seed);
  }

  /** A table whose keys were distinct still has distinct keys afterwards. */
  lemma AddedKeepsDistinct<K>(existing: seq<K>, seed: seq<K>)
    requires Distinct(existing)
    ensures Distinct(existing + Added(existing, seed))
  {
    var r := existing + Added(existing, seed);
    forall i, j | 0 <= i < j < |r|
      ensures r[i] != r[j]
    {
      if j >= |existing| && i < |existing| {
        assert r[j] == Added(existing, seed)[j - |existing|];
      }
    }
  }

  // ---------------------------------------------------------------- rows

  datatype UserRow = UserRow(id: nat, email: string, name: string, role: Auth.Role)
  datatype SiteRow = SiteRow(id: nat, name: string, createdById: nat)
  datatype ReviewRow = ReviewRow(id: nat, userId: nat, siteId: nat, rating: int, title: string)
  datatype SpeciesRow = SpeciesRow(id: nat, name: string, kind: string)
  /** `DiveSiteMarineLife`, keyed by `(diveSiteId, marineLifeId)`. */
  datatype LinkRow = LinkRow(siteId: nat, speciesId: nat)
  /** The compound key `userId_diveSiteId` of a review. */
  datatype ReviewKey = ReviewKey(userId: nat, siteId: nat)

  datatype SiteSeed = SiteSeed(name: string, createdById: nat)
  datatype SpeciesSeed = SpeciesSeed(name: string, kind: string)
  datatype ReviewSeed = ReviewSeed(userId: nat, siteId: nat, rating: int, title: string)

  function Emails(users: seq<UserRow>): (r: seq<string>)
    ensures |r| == |users| && forall i :: 0 <= i < |users| ==> r[i] == users[i].email
  {
    Map((x: UserRow) => x.email, users)
  }

  function SiteNames(sites: seq<SiteRow>): (r: seq<string>)
    ensures |r| == |sites| && forall i :: 0 <= i < |sites| ==> r[i] == sites[i].name
  {
    Map((x: SiteRow) => x.name, sites)
  }

  function SeedNames(seeds: seq<SiteSeed>): (r: seq<string>)
    ensures |r| == |seeds| && forall i :: 0 <= i < |seeds| ==> r[i] == seeds[i].name
  {
    Map((x: SiteSeed) => x.name, seeds)
  }

  function SpeciesNames(species: seq<SpeciesRow>): (r: seq<string>)
    ensures |r| == |species| && forall i :: 0 <= i < |species| ==> r[i] == species[i].name
  {
    Map((x: SpeciesRow) => x.name, species)
  }

  function SpeciesSeedNames(seeds: seq<SpeciesSeed>): (r: seq<string>)
    ensures |r| == |seeds| && forall i :: 0 <= i < |seeds| ==> r[i] == seeds[i].name
  {
    Map((x: SpeciesSeed) => x.name, seeds)
  }

  function SpeciesIds(species: seq<SpeciesRow>): (r: seq<nat>)
    ensures |r| == |species| && forall i :: 0 <= i < |species| ==> r[i] == species[i].id
  {
    Map((x: SpeciesRow) => x.id, species)
  }

  function ReviewKeys(reviews: seq<ReviewRow>): (r: seq<ReviewKey>)
    ensures |r| == |reviews| && forall i :: 0 <= i < |reviews| ==> r[i] == ReviewKey(reviews[i].userId, reviews[i].siteId)
  {
    Map((x: ReviewRow) => ReviewKey(x.userId, x.siteId), reviews)
  }

  function SeedKeys(seeds: seq<ReviewSeed>): (r: seq<ReviewKey>)
    ensures |r| == |seeds| && forall i :: 0 <= i < |seeds| ==> r[i] == ReviewKey(seeds[i].userId, seeds[i].siteId)
  {
    Map((x: ReviewSeed) => ReviewKey(x.userId, x.siteId), seeds)
  }

  lemma SeedNamesTake(seeds: seq<SiteSeed>, i: nat)
    requires i < |seeds|
    ensures SeedNames(seeds[..i + 1]) == SeedNames(seeds[..i]) + [seeds[i].name]
  {
    TakeOneMore(seeds, i);
  }

  lemma SpeciesSeedNamesTake(seeds: seq<SpeciesSeed>, i: nat)
    requires i < |seeds|
    ensures SpeciesSeedNames(seeds[..i + 1]) == SpeciesSeedNames(seeds[..i]) + [seeds[i].name]
  {
    TakeOneMore(seeds, i);
  }

  lemma SeedKeysTake(seeds: seq<ReviewSeed>, i: nat)
    requires i < |seeds|
    ensures SeedKeys(seeds[..i + 1]) == SeedKeys(seeds[..i]) + [ReviewKey(seeds[i].userId, seeds[i].siteId)]
  {
    TakeOneMore(seeds, i);
  }

  /** `findUnique({ where: { email } })`. */
  function UserWithEmail(users: seq<UserRow>, email: string): (r: Option<UserRow>)
    ensures r.Some? ==> r.value in users && r.value.email == email
    ensures r.None? <==> email !in Emails(users)
  {
    if users == [] then None
    else if users[0].email == email then Some(users[0])
    else UserWithEmail(users[1..], email)
  }

  function Min(a: int, b: int): int { if a < b then a else b }

  // ---------------------------------------------------------------- the database

  class Database {
    var users: seq<UserRow>
    var sites: seq<SiteRow>
    var reviews: seq<ReviewRow>
    var species: seq<SpeciesRow>
    var links: seq<LinkRow>
    /** The next identifier handed out; every stored identifier is below it. */
    var nextId: nat

    /**
     * The unique constraints of the schema, and fresh identifiers: each
     * table's identifiers rise in insertion order, so no two rows share one.
     */
    predicate Valid()
      reads this
    {
      && Distinct(Emails(users))
      && Distinct(ReviewKeys(reviews))
      && Distinct(links)
      && (forall i :: 0 <= i < |users| ==> users[i].id < nextId)
      && (forall i :: 0 <= i < |sites| ==> sites[i].id < nextId)
      && (forall i :: 0 <= i < |reviews| ==> reviews[i].id < nextId)
      && (forall i :: 0 <= i < |species| ==> species[i].id < nextId)
      && (forall i, j :: 0 <= i < j < |users| ==> users[i].id < users[j].id)
      && (forall i, j :: 0 <= i < j < |sites| ==> sites[i].id < sites[j].id)
      && (forall i, j :: 0 <= i < j < |reviews| ==> reviews[i].id < reviews[j].id)
      && (forall i, j :: 0 <= i < j < |species| ==> species[i].id < species[j].id)
    }

    constructor ()
      ensures users == [] && sites == [] && reviews == [] && species == [] && links == []
      ensures Valid()
    {
      users, sites, reviews, species, links := [], [], [], [], [];
      nextId := 0;
    }

    /** `prisma.diveSite.create`: the site gets the next identifier. */
    method CreateSite(name: string, createdById: nat)
      requires Valid()
      modifies this
      ensures Valid() && nextId == old(nextId) + 1
      ensures sites == old(sites) + [SiteRow(old(nextId), name, createdById)]
      ensures SiteNames(sites) == SiteNames(old(sites)) + [name]
      ensures users == old(users) && reviews == old(reviews) && species == old(species) && links == old(links)
    {
      sites := sites + [SiteRow(nextId, name, createdById)];
      nextId := nextId + 1;
      assert SiteNames(sites) == SiteNames(old(sites)) + [name];
    }

    /** `prisma.review.create`: refused by the schema when the `(userId, diveSiteId)` key is taken. */
    method CreateReview(userId: nat, siteId: nat, rating: int, title: string)
      requires Valid() && ReviewKey(userId, siteId) !in ReviewKeys(reviews)
      modifies this
      ensures Valid() && nextId == old(nextId) + 1
      ensures reviews == old(reviews) + [ReviewRow(old(nextId), userId, siteId, rating, title)]
      ensures ReviewKeys(reviews) == ReviewKeys(old(reviews)) + [ReviewKey(userId, siteId)]
      ensures users == old(users) && sites == old(sites) && species == old(species) && links == old(links)
    {
      reviews := reviews + [ReviewRow(nextId, userId, siteId, rating, title)];
      nextId := nextId + 1;
      assert ReviewKeys(reviews) == ReviewKeys(old(reviews)) + [ReviewKey(userId, siteId)];
    }

    /** `marineLife.create`. */
    method CreateSpecies(name: string, kind: string)
      requires Valid()
      modifies this
      ensures Valid() && nextId == old(nextId) + 1
      ensures species == old(species) + [SpeciesRow(old(nextId), name, kind)]
      ensures SpeciesNames(species) == SpeciesNames(old(species)) + [name]
      ensures users == old(users) && sites == old(sites) && reviews == old(reviews) && links == old(links)
    {
      species := species + [SpeciesRow(nextId, name, kind)];
      nextId := nextId + 1;
      assert SpeciesNames(species) == SpeciesNames(old(species)) + [name];
    }

    /** `diveSiteMarineLife.create`: refused by the schema when the pair is taken. */
    method CreateLink(link: LinkRow)
      requires Valid() && link !in links
      modifies this
      ensures Valid() && nextId == old(nextId)
      ensures links == old(links) + [link]
      ensures users == old(users) && sites == old(sites) && reviews == old(reviews) && species == old(species)
    {
      links := links + [link];
    }
  }

  // ---------------------------------------------------------------- the steps of `main`

  /**
   * `prisma.user.upsert` with an empty `update`: an account with the email
   * is returned unchanged, otherwise one is created.
   */
  method UpsertUser(db: Database, email: string, name: string, role: Auth.Role) returns (id: nat)
    requires db.Valid()
    modifies db
    ensures db.Valid()
    ensures db.sites == old(db.sites) && db.reviews == old(db.reviews)
    ensures db.species == old(db.species) && db.links == old(db.links)
    ensures email in Emails(old(db.users)) ==>
      db.users == old(db.users) && id == UserWithEmail(db.users, email).value.id
    ensures email !in Emails(old(db.users)) ==>
      db.users == old(db.users) + [UserRow(old(db.nextId), email, name, role)] && id == old(db.nextId)
    ensures UserWithEmail(db.users, email).Some? && UserWithEmail(db.users, email).value.id == id
    ensures forall e :: e in Emails(old(db.users)) ==> e in Emails(db.users)
    ensures forall e :: e in Emails(old(db.users)) ==> UserWithEmail(db.users, e) == UserWithEmail(old(db.users), e)
  {
    var found := UserWithEmail(db.users, email);
    if found.Some? {
      return found.value.id;
    }
    id := db.nextId;
    ghost var before := db.users;
    db.users := db.users + [UserRow(id, email, name, role)];
    db.nextId := db.nextId + 1;
    assert Emails(db.users) == Emails(before) + [email];
    UserWithEmailAppend(before, UserRow(id, email, name, role));
    forall e | e in Emails(before)
      ensures UserWithEmail(db.users, e) == UserWithEmail(before, e)
    {
      UserWithEmailKeeps(before, UserRow(id, email, name, role), e);
    }
  }

  /** Appending an account leaves the lookup of an email already present unchanged. */
  lemma {:induction false} UserWithEmailKeeps(users: seq<UserRow>, u: UserRow, e: string)
    requires e in Emails(users)
    ensures UserWithEmail(users + [u], e) == UserWithEmail(users, e)
  {
    if users[0].email != e {
      assert (users + [u])[1..] == users[1..] + [u];
      assert Emails(users[1..]) == Emails(users)[1..];
      UserWithEmailKeeps(users[1..], u, e);
    }
  }

  lemma {:induction false} UserWithEmailAppend(users: seq<UserRow>, u: UserRow)
    requires u.email !in Emails(users)
    ensures UserWithEmail(users + [u], u.email) == Some(u)
  {
    if users != [] {
      assert (users + [u])[1..] == users[1..] + [u];
      assert Emails(users[1..]) == Emails(users)[1..];
      UserWithEmailAppend(users[1..], u);
    }
  }

  /** Entry `k` is the first of `seeds` with its name. */
  predicate FirstWithName(seeds: seq<SiteSeed>, k: nat)
    requires k < |seeds|
  {
    forall m :: 0 <= m < k ==> seeds[m].name != seeds[k].name
  }

  /** `row` has the name and the creator of the first entry of `seeds[..upto]` with that name. */
  predicate RowFromSeed(row: SiteRow, seeds: seq<SiteSeed>, upto: nat)
    requires upto <= |seeds|
  {
    exists k :: 0 <= k < upto && FirstWithName(seeds, k) && seeds[k] == SiteSeed(row.name, row.createdById)
  }

  /** Every row of `sites` from position `from` on was created from a seed entry, as `RowFromSeed` says. */
  predicate RowsFromSeeds(sites: seq<SiteRow>, from: nat, seeds: seq<SiteSeed>, upto: nat)
    requires upto <= |seeds|
  {
    forall j :: from <= j < |sites| ==> RowFromSeed(sites[j], seeds, upto)
  }

  lemma RowsFromSeedsMore(sites: seq<SiteRow>, from: nat, seeds: seq<SiteSeed>, i: nat)
    requires i < |seeds| && RowsFromSeeds(sites, from, seeds, i)
    ensures RowsFromSeeds(sites, from, seeds, i + 1)
  {
  }

  lemma RowsFromSeedsCreate(sites: seq<SiteRow>, from: nat, seeds: seq<SiteSeed>, i: nat, row: SiteRow)
    requires from <= |sites| && i < |seeds| && RowsFromSeeds(sites, from, seeds, i)
    requires FirstWithName(seeds, i) && seeds[i] == SiteSeed(row.name, row.createdById)
    ensures RowsFromSeeds(sites + [row], from, seeds, i + 1)
  {
    var all := sites + [row];
    forall j | from <= j < |all|
      ensures RowFromSeed(all[j], seeds, i + 1)
    {
      if j == |sites| {
        assert all[j] == row;
      } else {
        assert all[j] == sites[j];
      }
    }
  }

  /** Once the first `i` seeds are processed, each of their names is stored. */
  lemma SeenNamesStored(start: seq<string>, seeds: seq<SiteSeed>, i: nat, m: nat)
    requires m < i <= |seeds|
    ensures seeds[m].name in start + Added(start, SeedNames(seeds[..i]))
  {
    assert SeedNames(seeds[..i])[m] == seeds[m].name;
  }

  /**
   * The loop over the dive sites: a site is created only when no site has
   * its name; the names added are exactly `Added` of the seed names, and
   * each new row carries the creator of the first seed entry with its name.
   */
  method SeedSites(db: Database, seeds: seq<SiteSeed>)
    requires db.Valid()
    modifies db
    ensures db.Valid()
    ensures db.users == old(db.users) && db.reviews == old(db.reviews)
    ensures db.species == old(db.species) && db.links == old(db.links)
    ensures |db.sites| >= |old(db.sites)| && db.sites[..|old(db.sites)|] == old(db.sites)
    ensures SiteNames(db.sites) == SiteNames(old(db.sites)) + Added(SiteNames(old(db.sites)), SeedNames(seeds))
    ensures RowsFromSeeds(db.sites, |old(db.sites)|, seeds, |seeds|)
  {
    ghost var start := SiteNames(db.sites);
    var i := 0;
    while i < |seeds|
      invariant 0 <= i <= |seeds|
      invariant db.Valid()
      invariant db.users == old(db.users) && db.reviews == old(db.reviews)
      invariant db.species == old(db.species) && db.links == old(db.links)
      invariant |db.sites| >= |old(db.sites)| && db.sites[..|old(db.sites)|] == old(db.sites)
      invariant SiteNames(db.sites) == start + Added(start, SeedNames(seeds[..i]))
      invariant RowsFromSeeds(db.sites, |old(db.sites)|, seeds, i)
    {
      var s := seeds[i];
      SeedNamesTake(seeds, i);
      AddedAppend(start, SeedNames(seeds[..i]), s.name);
      if s.name !in SiteNames(db.sites) {
        forall m | 0 <= m < i
          ensures seeds[m].name != s.name
        {
          SeenNamesStored(start, seeds, i, m);
        }
        ghost var before := db.sites;
        db.CreateSite(s.name, s.createdById);
        PrefixOfAppend(before, db.sites[|before|], |old(db.sites)|);
        ConcatAssoc(start, Added(start, SeedNames(seeds[..i])), [s.name]);
        RowsFromSeedsCreate(before, |old(db.sites)|, seeds, i, db.sites[|before|]);
      } else {
        RowsFromSeedsMore(db.sites, |old(db.sites)|, seeds, i);
      }
      i := i + 1;
    }
    TakeAll(seeds);
  }

  /** The loop over the species: the same insert-if-absent by name. */
  method SeedSpecies(db: Database, seeds: seq<SpeciesSeed>)
    requires db.Valid()
    modifies db
    ensures db.Valid()
    ensures db.users == old(db.users) && db.sites == old(db.sites)
    ensures db.reviews == old(db.reviews) && db.links == old(db.links)
    ensures |db.species| >= |old(db.species)| && db.species[..|old(db.species)|] == old(db.species)
    ensures SpeciesNames(db.species) ==
      SpeciesNames(old(db.species)) + Added(SpeciesNames(old(db.species)), SpeciesSeedNames(seeds))
  {
    ghost var start := SpeciesNames(db.species);
    var i := 0;
    while i < |seeds|
      invariant 0 <= i <= |seeds|
      invariant db.Valid()
      invariant db.users == old(db.users) && db.sites == old(db.sites)
      invariant db.reviews == old(db.reviews) && db.links == old(db.links)
      invariant |db.species| >= |old(db.species)| && db.species[..|old(db.species)|] == old(db.species)
      invariant SpeciesNames(db.species) == start + Added(start, SpeciesSeedNames(seeds[..i]))
    {
      var s := seeds[i];
      SpeciesSeedNamesTake(seeds, i);
      AddedAppend(start, SpeciesSeedNames(seeds[..i]), s.name);
      if s.name !in SpeciesNames(db.species) {
        ghost var before := db.species;
        db.CreateSpecies(s.name, s.kind);
        PrefixOfAppend(before, db.species[|before|], |old(db.species)|);
        ConcatAssoc(start, Added(start, SpeciesSeedNames(seeds[..i])), [s.name]);
      }
      i := i + 1;
    }
    TakeAll(seeds);
  }

  const AdminEmail := "admin@divingsites.com"
  const GuideEmail := "guide@divingsites.com"
  const ReviewerEmail := "user@divingsites.com"

  /**
   * The four sample reviews: by the regular user on the first and third of
   * the sites, by the guide on the second and by the administrator on the
   * fourth.
   */
  function SampleReviews(userId: nat, guideId: nat, adminId: nat, diveSites: seq<SiteRow>): (r: seq<ReviewSeed>)
    requires |diveSites| >= 4
    ensures |r| == 4
    ensures forall i :: 0 <= i < 4 ==> r[i].siteId == diveSites[i].id
    ensures r[0].userId == userId && r[1].userId == guideId && r[2].userId == userId && r[3].userId == adminId
    ensures r[0].rating == 9 && r[1].rating == 8 && r[2].rating == 7 && r[3].rating == 10
  {
    [ReviewSeed(userId, diveSites[0].id, 9, "Incredible visibility!"),
     ReviewSeed(guideId, diveSites[1].id, 8, "Great wreck dive"),
     ReviewSeed(userId, diveSites[2].id, 7, "Good for beginners"),
     ReviewSeed(adminId, diveSites[3].id, 10, "World-class diving!")]
  }

  datatype Outcome = Completed | Crashed

  /**
   * Whether the review step aborts the script: the reviewer exists and
   * between one and three sites are stored, so the fourth sample review
   * reads a site that `findMany({ take: 5 })` did not return.
   */
  predicate ReviewStepCrashes(users: seq<UserRow>, sites: seq<SiteRow>) {
    UserWithEmail(users, ReviewerEmail).Some? && 1 <= |sites| <= 3
  }

  /** The reviews the step plans: none without the reviewer or without sites. */
  function PlannedReviews(users: seq<UserRow>, sites: seq<SiteRow>, guideId: nat, adminId: nat): seq<ReviewSeed>
  {
    var user := UserWithEmail(users, ReviewerEmail);
    if user.None? || |sites| < 4 then []
    else SampleReviews(user.value.id, guideId, adminId, sites[..Min(5, |sites|)])
  }

  /**
   * The review step: the first five sites (store order) and the reviewer
   * are looked up; each sample review is created only when its
   * `(userId, diveSiteId)` key is absent.
   */
  method SeedReviews(db: Database, guideId: nat, adminId: nat) returns (outcome: Outcome)
    requires db.Valid()
    modifies db
    ensures db.Valid()
    ensures outcome == Crashed <==> ReviewStepCrashes(old(db.users), old(db.sites))
    ensures db.users == old(db.users) && db.sites == old(db.sites)
    ensures db.species == old(db.species) && db.links == old(db.links)
    ensures outcome == Crashed ==> db.reviews == old(db.reviews)
    ensures |db.reviews| >= |old(db.reviews)| && db.reviews[..|old(db.reviews)|] == old(db.reviews)
    ensures ReviewKeys(db.reviews) == ReviewKeys(old(db.reviews)) +
      Added(ReviewKeys(old(db.reviews)), SeedKeys(PlannedReviews(old(db.users), old(db.sites), guideId, adminId)))
  {
    var diveSites := db.sites[..Min(5, |db.sites|)];
    var user := UserWithEmail(db.users, ReviewerEmail);
    if user.None? || |diveSites| == 0 {
      assert ReviewKeys(db.reviews) + [] == ReviewKeys(db.reviews);
      return Completed;
    }
    if |diveSites| < 4 {
      assert ReviewKeys(db.reviews) + [] == ReviewKeys(db.reviews);
      return Crashed;
    }
    outcome := Completed;
    var planned := SampleReviews(user.value.id, guideId, adminId, diveSites);
    InsertReviews(db, planned);
  }

  /** The loop over the sample reviews: a review is created only when its key is absent. */
  method InsertReviews(db: Database, planned: seq<ReviewSeed>)
    requires db.Valid()
    modifies db
    ensures db.Valid()
    ensures db.users == old(db.users) && db.sites == old(db.sites)
    ensures db.species == old(db.species) && db.links == old(db.links)
    ensures |db.reviews| >= |old(db.reviews)| && db.reviews[..|old(db.reviews)|] == old(db.reviews)
    ensures ReviewKeys(db.reviews) == ReviewKeys(old(db.reviews)) + Added(ReviewKeys(old(db.reviews)), SeedKeys(planned))
  {
    ghost var start := ReviewKeys(db.reviews);
    var i := 0;
    while i < |planned|
      invariant 0 <= i <= |planned|
      invariant db.Valid()
      invariant db.users == old(db.users) && db.sites == old(db.sites)
      invariant db.species == old(db.species) && db.links == old(db.links)
      invariant |db.reviews| >= |old(db.reviews)| && db.reviews[..|old(db.reviews)|] == old(db.reviews)
      invariant ReviewKeys(db.reviews) == start + Added(start, SeedKeys(planned[..i]))
    {
      var r := planned[i];
      var key := ReviewKey(r.userId, r.siteId);
      SeedKeysTake(planned, i);
      AddedAppend(start, SeedKeys(planned[..i]), key);
      if key !in ReviewKeys(db.reviews) {
        ghost var before := db.reviews;
        db.CreateReview(r.userId, r.siteId, r.rating, r.title);
        PrefixOfAppend(before, db.reviews[|before|], |old(db.reviews)|);
        ConcatAssoc(start, Added(start, SeedKeys(planned[..i])), [key]);
      }
      i := i + 1;
    }
    TakeAll(planned);
  }

  /** The associations planned for `diveSite`: one per selected species. */
  function LinksTo(siteId: nat, picked: seq<nat>): (r: seq<LinkRow>)
    ensures |r| == |picked|
    ensures forall i :: 0 <= i < |r| ==> r[i] == LinkRow(siteId, picked[i])
  {
    seq(|picked|, i requires 0 <= i < |picked| => LinkRow(siteId, picked[i]))
  }

  /**
   * The associations the loop plans for the sites `siteIds`, the `k`-th of
   * the first ten onwards: the species order is shuffled in place before
   * each site, and the first `count(k)` species of it are picked.
   */
  function PlannedLinks(siteIds: seq<nat>, order: seq<nat>, k: nat,
                        count: nat -> nat, shuffle: (nat, seq<nat>) -> seq<nat>): seq<LinkRow>
    decreases |siteIds|
  {
    if siteIds == [] then []
    else
      var shuffled := shuffle(k, order);
      LinksTo(siteIds[0], shuffled[..Min(count(k), |shuffled|)])
      + PlannedLinks(siteIds[1..], shuffled, k + 1, count, shuffle)
  }

  function SiteIds(sites: seq<SiteRow>): (r: seq<nat>)
    ensures |r| == |sites| && forall i :: 0 <= i < |sites| ==> r[i] == sites[i].id
  {
    Map((x: SiteRow) => x.id, sites)
  }

  /**
   * The association step over the first ten sites. `count(k)` is the number
   * of species drawn for the `k`-th site, `Math.floor(Math.random() * 6) + 3`,
   * and `shuffle(k, order)` the order the random comparator leaves; both are
   * inputs here.
   */
  method SeedLinks(db: Database, count: nat -> nat, shuffle: (nat, seq<nat>) -> seq<nat>)
    requires db.Valid()
    requires forall k :: 3 <= count(k) <= 8
    requires forall k: nat, order: seq<nat> :: multiset(shuffle(k, order)) == multiset(order)
    modifies db
    ensures db.Valid()
    ensures db.users == old(db.users) && db.sites == old(db.sites)
    ensures db.reviews == old(db.reviews) && db.species == old(db.species)
    ensures db.links == old(db.links) + Added(old(db.links),
      PlannedLinks(SiteIds(old(db.sites))[..Min(10, |old(db.sites)|)], SpeciesIds(old(db.species)), 0, count, shuffle))
  {
    var order := SpeciesIds(db.species);
    var ids := SiteIds(db.sites[..Min(10, |db.sites|)]);
    assert ids == SiteIds(db.sites)[..Min(10, |db.sites|)];
    ghost var planned := PlannedLinks(ids, order, 0, count, shuffle);
    ghost var start := db.links;
    ghost var done: seq<LinkRow> := [];
    var k := 0;
    while k < |ids|
      invariant 0 <= k <= |ids|
      invariant db.Valid()
      invariant db.users == old(db.users) && db.sites == old(db.sites)
      invariant db.reviews == old(db.reviews) && db.species == old(db.species)
      invariant db.links == start + Added(start, done)
      invariant done + PlannedLinks(ids[k..], order, k, count, shuffle) == planned
    {
      order, done := LinkSite(db, ids, k, order, count, shuffle, start, done);
      k := k + 1;
    }
    assert ids[k..] == [];
    assert done + [] == done;
  }

  /**
   * One turn of the association loop: the species order is shuffled, the
   * first `count(k)` species are picked, and `ids[k]` is joined to each of
   * them that it is not joined to yet.
   */
  method LinkSite(db: Database, ids: seq<nat>, k: nat, order: seq<nat>,
                  count: nat -> nat, shuffle: (nat, seq<nat>) -> seq<nat>,
                  ghost start: seq<LinkRow>, ghost done: seq<LinkRow>)
    returns (shuffled: seq<nat>, ghost doneNext: seq<LinkRow>)
    requires db.Valid() && k < |ids|
    requires db.links == start + Added(start, done)
    modifies db
    ensures db.Valid()
    ensures db.users == old(db.users) && db.sites == old(db.sites)
    ensures db.reviews == old(db.reviews) && db.species == old(db.species)
    ensures shuffled == shuffle(k, order)
    ensures db.links == start + Added(start, doneNext)
    ensures doneNext + PlannedLinks(ids[k + 1..], shuffled, k + 1, count, shuffle) ==
      done + PlannedLinks(ids[k..], order, k, count, shuffle)
  {
    PlannedLinksStep(ids, k, order, count, shuffle);
    shuffled := shuffle(k, order);
    var step := LinksTo(ids[k], shuffled[..Min(count(k), |shuffled|)]);
    InsertLinks(db, step);
    AddedThenMore(start, done, step);
    doneNext := done + step;
  }

  lemma PlannedLinksStep(ids: seq<nat>, k: nat, order: seq<nat>,
                         count: nat -> nat, shuffle: (nat, seq<nat>) -> seq<nat>)
    requires k < |ids|
    ensures var shuffled := shuffle(k, order);
      PlannedLinks(ids[k..], order, k, count, shuffle) ==
      LinksTo(ids[k], shuffled[..Min(count(k), |shuffled|)]) + PlannedLinks(ids[k + 1..], shuffled, k + 1, count, shuffle)
  {
    assert ids[k..][1..] == ids[k + 1..];
  }

  /** The loop over the selected species of one site: an association is created only when the pair is absent. */
  method InsertLinks(db: Database, planned: seq<LinkRow>)
    requires db.Valid()
    modifies db
    ensures db.Valid()
    ensures db.users == old(db.users) && db.sites == old(db.sites)
    ensures db.reviews == old(db.reviews) && db.species == old(db.species)
    ensures db.links == old(db.links) + Added(old(db.links), planned)
  {
    ghost var start := db.links;
    var j := 0;
    while j < |planned|
      invariant 0 <= j <= |planned|
      invariant db.Valid()
      invariant db.users == old(db.users) && db.sites == old(db.sites)
      invariant db.reviews == old(db.reviews) && db.species == old(db.species)
      invariant db.links == start + Added(start, planned[..j])
    {
      var link := planned[j];
      TakeOneMore(planned, j);
      AddedAppend(start, planned[..j], link);
      if link !in db.links {
        db.CreateLink(link);
        ConcatAssoc(start, Added(start, planned[..j]), [link]);
      }
      j := j + 1;
    }
    TakeAll(planned);
  }

  /** Every planned association joins one of the given sites to a species of the given order. */
  lemma {:induction false} PlannedLinksAreWellFormed(siteIds: seq<nat>, order: seq<nat>, k: nat,
                                                       count: nat -> nat, shuffle: (nat, seq<nat>) -> seq<nat>, i: nat)
    requires forall k: nat, o: seq<nat> :: multiset(shuffle(k, o)) == multiset(o)
    requires i < |PlannedLinks(siteIds, order, k, count, shuffle)|
    ensures PlannedLinks(siteIds, order, k, count, shuffle)[i].siteId in siteIds
    ensures PlannedLinks(siteIds, order, k, count, shuffle)[i].speciesId in order
    decreases |siteIds|
  {
    var shuffled := shuffle(k, order);
    var head := LinksTo(siteIds[0], shuffled[..Min(count(k), |shuffled|)]);
    if i < |head| {
      var s := shuffled[i];
      assert s in multiset(shuffled);
    } else {
      PlannedLinksAreWellFormed(siteIds[1..], shuffled, k + 1, count, shuffle, i - |head|);
      var s := PlannedLinks(siteIds[1..], shuffled, k + 1, count, shuffle)[i - |head|].speciesId;
      assert s in multiset(shuffled);
    }
  }

  /** A site gets at most as many new associations as species were drawn for it, and never more than there are species. */
  lemma PlannedLinksPerSite(siteIds: seq<nat>, order: seq<nat>, k: nat,
                            count: nat -> nat, shuffle: (nat, seq<nat>) -> seq<nat>)
    requires forall k: nat, o: seq<nat> :: multiset(shuffle(k, o)) == multiset(o)
    requires siteIds != []
    ensures |shuffle(k, order)| == |order|
    ensures var shuffled := shuffle(k, order);
      PlannedLinks(siteIds, order, k, count, shuffle)[..Min(count(k), |order|)] ==
      LinksTo(siteIds[0], shuffled[..Min(count(k), |order|)])
  {
    var shuffled := shuffle(k, order);
    assert |multiset(shuffled)| == |multiset(order)|;
  }

  /** A sample site of the script: its name, and whether the guide or the admin created it. */
  datatype SampleSite = SampleSite(name: string, byGuide: bool)

  function SampleNames(samples: seq<SampleSite>): (r: seq<string>)
    ensures |r| == |samples| && forall i :: 0 <= i < |samples| ==> r[i] == samples[i].name
  {
    Map((x: SampleSite) => x.name, samples)
  }

  /** The site seeds of the script: each sample site with the id of the account that created it. */
  function SitesBy(samples: seq<SampleSite>, adminId: nat, guideId: nat): (r: seq<SiteSeed>)
    ensures SeedNames(r) == SampleNames(samples)
    ensures forall i :: 0 <= i < |r| ==> r[i].createdById == if samples[i].byGuide then guideId else adminId
  {
    var r := seq(|samples|, i requires 0 <= i < |samples| =>
      SiteSeed(samples[i].name, if samples[i].byGuide then guideId else adminId));
    assert SeedNames(r) == SampleNames(samples);
    r
  }

  /**
   * `main`: the three accounts, the sites, the reviews, the species and the
   * associations, in that order. The script stops at the review step when it
   * crashes, leaving species and associations untouched; it crashes exactly
   * when between one and three sites are stored once the sites are seeded.
   */
  method RunSeed(db: Database, samples: seq<SampleSite>, speciesSeeds: seq<SpeciesSeed>,
                 count: nat -> nat, shuffle: (nat, seq<nat>) -> seq<nat>) returns (outcome: Outcome)
    requires db.Valid()
    requires forall k :: 3 <= count(k) <= 8
    requires forall k: nat, order: seq<nat> :: multiset(shuffle(k, order)) == multiset(order)
    modifies db
    ensures db.Valid()
    ensures AdminEmail in Emails(db.users) && GuideEmail in Emails(db.users) && ReviewerEmail in Emails(db.users)
    ensures SiteNames(db.sites) == SiteNames(old(db.sites)) + Added(SiteNames(old(db.sites)), SampleNames(samples))
    ensures |db.sites| >= |old(db.sites)| && db.sites[..|old(db.sites)|] == old(db.sites)
    ensures RowsFromSeeds(db.sites, |old(db.sites)|,
      SitesBy(samples, UserWithEmail(db.users, AdminEmail).value.id, UserWithEmail(db.users, GuideEmail).value.id), |samples|)
    ensures outcome == Crashed <==> 1 <= |db.sites| <= 3
    ensures outcome == Crashed ==> db.species == old(db.species) && db.links == old(db.links)
    ensures ReviewKeys(db.reviews) == ReviewKeys(old(db.reviews)) +
      Added(ReviewKeys(old(db.reviews)),
            SeedKeys(PlannedReviews(db.users, db.sites, UserWithEmail(db.users, GuideEmail).value.id,
                                    UserWithEmail(db.users, AdminEmail).value.id)))
    ensures outcome == Crashed ==> db.reviews == old(db.reviews)
    ensures outcome == Completed ==>
      SpeciesNames(db.species) ==
      SpeciesNames(old(db.species)) + Added(SpeciesNames(old(db.species)), SpeciesSeedNames(speciesSeeds))
    ensures outcome == Completed ==>
      db.links == old(db.links) +
      Added(old(db.links), PlannedLinks(SiteIds(db.sites)[..Min(10, |db.sites|)], SpeciesIds(db.species), 0, count, shuffle))
  {
    var adminId := UpsertUser(db, AdminEmail, "Admin User", Auth.ADMIN);
    var guideId := UpsertUser(db, GuideEmail, "Dive Guide", Auth.GUIDE);
    var userId := UpsertUser(db, ReviewerEmail, "John Diver", Auth.USER);
    assert AdminEmail in Emails(db.users) && GuideEmail in Emails(db.users);
    assert UserWithEmail(db.users, GuideEmail).value.id == guideId;
    assert UserWithEmail(db.users, AdminEmail).value.id == adminId;
    ghost var users := db.users;
    var seeds := SitesBy(samples, adminId, guideId);
    SeedSites(db, seeds);
    ghost var sites := db.sites;
    assert RowsFromSeeds(sites, |old(db.sites)|, seeds, |samples|);
    outcome := SeedReviews(db, guideId, adminId);
    if outcome == Crashed {
      assert db.users == users && db.sites == sites;
      return;
    }
    SeedSpecies(db, speciesSeeds);
    SeedLinks(db, count, shuffle);
    assert db.users == users && db.sites == sites;
  }
}
