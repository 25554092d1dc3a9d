/**
 * The marine-life panel of a site page: it loads the species seen at the
 * site, groups them by type in order of first appearance, and shows each
 * group under an icon, a badge colour and a heading with its size.
 */
module MarineLife {
  import opened Wrappers
  import opened Text
  import opened Seqs

  /** One species as the endpoint returns it; `kind` is its `type`. */
  datatype Item = Item(id: string, name: string, latinName: Option<string>, kind: string)

  datatype Icon = FishIcon | LeafIcon | WavesIcon

  /** `getTypeIcon`: animals that swim get a fish, plants a leaf, corals and invertebrates waves. */
  function TypeIcon(t: string): (icon: Icon)
    ensures icon == LeafIcon <==> t == "PLANT"
    ensures icon == WavesIcon <==> t == "CORAL" || t == "INVERTEBRATE"
  {
    match t
    case "FISH" => FishIcon
    case "MAMMAL" => FishIcon
    case "REPTILE" => FishIcon
    case "PLANT" => LeafIcon
    case "CORAL" => WavesIcon
    case "INVERTEBRATE" => WavesIcon
    case _ => FishIcon
  }

  const KnownTypes := ["FISH", "PLANT", "CORAL", "INVERTEBRATE", "MAMMAL", "REPTILE"]

  const BlueBadge := "bg-blue-900 text-blue-300 border-blue-700"
  const GreenBadge := "bg-green-900 text-green-300 border-green-700"
  const OrangeBadge := "bg-orange-900 text-orange-300 border-orange-700"
  const PurpleBadge := "bg-purple-900 text-purple-300 border-purple-700"
  const IndigoBadge := "bg-indigo-900 text-indigo-300 border-indigo-700"
  // One string, written in parts: the verifier does not look inside a literal this long.
  const EmeraldBadge := "bg-emerald-900 " + "text-emerald-300 " + "border-emerald-700"
  const SlateBadge := "bg-slate-800 text-slate-300 border-slate-600"

  /** `getTypeColor`: a badge colour per type, slate for anything else. */
  function TypeColor(t: string): (c: string)
    ensures t !in KnownTypes ==> c == SlateBadge
  {
    match t
    case "FISH" => BlueBadge
    case "PLANT" => GreenBadge
    case "CORAL" => OrangeBadge
    case "INVERTEBRATE" => PurpleBadge
    case "MAMMAL" => IndigoBadge
    case "REPTILE" => EmeraldBadge
    case _ => SlateBadge
  }

  /** The six known types have six different colours, none of them the fallback. */
  lemma TypeColorsDistinct()
    ensures var cs := [TypeColor("FISH"), TypeColor("PLANT"), TypeColor("CORAL"),
                       TypeColor("INVERTEBRATE"), TypeColor("MAMMAL"), TypeColor("REPTILE"), SlateBadge];
      forall i, j :: 0 <= i < j < |cs| ==> cs[i] != cs[j]
  {
    TypeColorTable();
    // the fourth character names the hue, and it is different in each
    assert BlueBadge[3] == 'b';
    assert GreenBadge[3] == 'g';
    assert OrangeBadge[3] == 'o';
    assert PurpleBadge[3] == 'p';
    assert IndigoBadge[3] == 'i';
    assert EmeraldBadge[3] == 'e';
    assert SlateBadge[3] == 's';
  }

  lemma TypeColorTable()
    ensures TypeColor("FISH") == BlueBadge && TypeColor("PLANT") == GreenBadge
    ensures TypeColor("CORAL") == OrangeBadge && TypeColor("INVERTEBRATE") == PurpleBadge
    ensures TypeColor("MAMMAL") == IndigoBadge && TypeColor("REPTILE") == EmeraldBadge
  {
  }

  /** The items of one type, in the order they were received. */
  function Group(items: seq<Item>, t: string): seq<Item> {
    Filter((x: Item) => x.kind == t, items)
  }

  /** The types present, each once, in order of first appearance. */
  function Kinds(items: seq<Item>): (r: seq<string>)
    ensures forall i, j :: 0 <= i < j < |r| ==> r[i] != r[j]
    ensures forall i :: 0 <= i < |items| ==> items[i].kind in r
    ensures forall t :: t in r ==> exists i :: 0 <= i < |items| && items[i].kind == t
  {
    if items == [] then []
    else
      var prefix := Kinds(items[..|items| - 1]);
      var last := items[|items| - 1].kind;
      assert forall i :: 0 <= i < |items| - 1 ==> items[i] == items[..|items| - 1][i];
      if last in prefix then prefix else prefix + [last]
  }

  /** One more item adds its type at the end, unless the type was already present. */
  lemma KindsAppend(items: seq<Item>, x: Item)
    ensures Kinds(items + [x]) == if x.kind in Kinds(items) then Kinds(items) else Kinds(items) + [x.kind]
  {
    assert (items + [x])[..|items|] == items;
  }

  /** Type `s` occurs in the items before type `t` first does. */
  predicate FirstBefore(items: seq<Item>, s: string, t: string) {
    exists a :: 0 <= a < |items| && items[a].kind == s && forall b :: 0 <= b <= a ==> items[b].kind != t
  }

  /**
   * The types are listed in order of first appearance: of two listed types,
   * the earlier one occurs in the items before the later one first does.
   */
  lemma {:induction false} KindsFirstAppearance(items: seq<Item>)
    ensures forall i, j :: 0 <= i < j < |Kinds(items)| ==> FirstBefore(items, Kinds(items)[i], Kinds(items)[j])
  {
    if items != [] {
      var front := items[..|items| - 1];
      var x := items[|items| - 1];
      assert items == front + [x];
      KindsFirstAppearance(front);
      KindsAppend(front, x);
      var p := Kinds(front);
      var r := Kinds(items);
      forall i, j | 0 <= i < j < |r|
        ensures FirstBefore(items, r[i], r[j])
      {
        if j < |p| {
          FirstBeforeExtends(front, x, p[i], p[j]);
        } else {
          FirstBeforeNew(front, x, p[i]);
        }
      }
    }
  }

  lemma FirstBeforeExtends(front: seq<Item>, x: Item, s: string, t: string)
    requires FirstBefore(front, s, t)
    ensures FirstBefore(front + [x], s, t)
  {
    var a :| 0 <= a < |front| && front[a].kind == s && forall b :: 0 <= b <= a ==> front[b].kind != t;
    assert forall b :: 0 <= b <= a ==> (front + [x])[b] == front[b];
  }

  lemma FirstBeforeNew(front: seq<Item>, x: Item, s: string)
    requires s in Kinds(front) && x.kind !in Kinds(front)
    ensures FirstBefore(front + [x], s, x.kind)
  {
    var a :| 0 <= a < |front| && front[a].kind == s;
    assert forall b :: 0 <= b <= a ==> (front + [x])[b] == front[b] && front[b].kind in Kinds(front);
  }

  /** The sum of the sizes of the groups of the types `ks`. */
  function SectionSizes(items: seq<Item>, ks: seq<string>): nat {
    if ks == [] then 0
    else SectionSizes(items, ks[..|ks| - 1]) + |Group(items, ks[|ks| - 1])|
  }

  /** Appending an item extends the group of its type by that item and leaves the others alone. */
  lemma GroupAppend(items: seq<Item>, x: Item, t: string)
    ensures Group(items + [x], t) == Group(items, t) + (if x.kind == t then [x] else [])
  {
    FilterAppend((y: Item) => y.kind == t, items, [x]);
  }

  /** A type that does not appear has an empty group. */
  lemma {:induction false} AbsentKindHasNoGroup(items: seq<Item>, t: string)
    requires t !in Kinds(items)
    ensures Group(items, t) == []
  {
    if items != [] {
      var front, x := items[..|items| - 1], items[|items| - 1];
      assert items == front + [x];
      AbsentKindHasNoGroup(front, t);
      GroupAppend(front, x, t);
    }
  }

  /** One more item adds one to the group of its type and nothing to the others. */
  lemma {:induction false} SectionSizesAppend(items: seq<Item>, x: Item, ks: seq<string>)
    requires forall i, j :: 0 <= i < j < |ks| ==> ks[i] != ks[j]
    ensures SectionSizes(items + [x], ks) == SectionSizes(items, ks) + (if x.kind in ks then 1 else 0)
  {
    if ks != [] {
      var front, k := ks[..|ks| - 1], ks[|ks| - 1];
      SectionSizesAppend(items, x, front);
      GroupAppend(items, x, k);
      assert x.kind in ks <==> x.kind in front || x.kind == k;
      assert x.kind == k ==> x.kind !in front;
    }
  }

  /** The groups partition the items: their sizes add up to the number of items. */
  lemma {:induction false} GroupsPartition(items: seq<Item>)
    ensures SectionSizes(items, Kinds(items)) == |items|
  {
    if items != [] {
      var front, x := items[..|items| - 1], items[|items| - 1];
      assert items == front + [x];
      GroupsPartition(front);
      var ks := Kinds(front);
      SectionSizesAppend(front, x, ks);
      if x.kind !in ks {
        AbsentKindHasNoGroup(front, x.kind);
        GroupAppend(front, x, x.kind);
        assert (ks + [x.kind])[..|ks|] == ks;
      }
    }
  }

  /** Each group holds exactly the items of its type, each as often as it was received. */
  lemma GroupIsExact(items: seq<Item>, t: string, x: Item)
    ensures multiset(Group(items, t))[x] == if x.kind == t then multiset(items)[x] else 0
    ensures forall i :: 0 <= i < |Group(items, t)| ==> Group(items, t)[i].kind == t
  {
    FilterMultiplicity((y: Item) => y.kind == t, items, x);
  }

  /** `groups` holds, for each type of `seen` in `order`, exactly the items of that type seen so far. */
  ghost predicate Grouped(seen: seq<Item>, order: seq<string>, groups: map<string, seq<Item>>) {
    && order == Kinds(seen)
    && (forall t :: t in groups <==> t in order)
    && (forall t :: t in groups ==> groups[t] == Group(seen, t))
  }

  /** One step of the `reduce` keeps each group equal to the items of its type seen so far. */
  lemma GroupsStep(seen: seq<Item>, x: Item, order: seq<string>, before: map<string, seq<Item>>,
                   orderAfter: seq<string>, after: map<string, seq<Item>>)
    requires Grouped(seen, order, before)
    requires x.kind in before ==> orderAfter == order && after == before[x.kind := before[x.kind] + [x]]
    requires x.kind !in before ==> orderAfter == order + [x.kind] && after == before[x.kind := [x]]
    ensures Grouped(seen + [x], orderAfter, after)
  {
    KindsAppend(seen, x);
    forall t | t in after
      ensures after[t] == Group(seen + [x], t)
    {
      GroupStepAt(seen, x, before, after, t);
    }
  }

  lemma GroupStepAt(seen: seq<Item>, x: Item, before: map<string, seq<Item>>, after: map<string, seq<Item>>, t: string)
    requires t in before ==> before[t] == Group(seen, t)
    requires t !in before ==> t !in Kinds(seen)
    requires x.kind in before ==> after == before[x.kind := before[x.kind] + [x]]
    requires x.kind !in before ==> after == before[x.kind := [x]]
    requires t in after
    ensures after[t] == Group(seen + [x], t)
  {
    GroupAppend(seen, x, t);
    if t != x.kind {
      assert after[t] == before[t];
    } else if x.kind !in before {
      AbsentKindHasNoGroup(seen, t);
    }
  }

  /**
   * The `reduce` of the panel: walks the items once, opening a group the
   * first time a type is met and appending each item to its group.
   */
  method GroupByKind(items: seq<Item>) returns (order: seq<string>, groups: map<string, seq<Item>>)
    ensures order == Kinds(items)
    ensures forall t :: t in groups <==> t in order
    ensures forall t :: t in groups ==> groups[t] == Group(items, t)
  {
    order, groups := [], map[];
    var i := 0;
    while i < |items|
      invariant 0 <= i <= |items|
      invariant Grouped(items[..i], order, groups)
    {
      order, groups := AddToGroup(items[..i], items[i], order, groups);
      TakeOneMore(items, i);
      i := i + 1;
    }
    TakeAll(items);
  }

  /** One step of the `reduce`: `x` joins the group of its type, which is opened if it is new. */
  method AddToGroup(ghost seen: seq<Item>, x: Item, order: seq<string>, groups: map<string, seq<Item>>)
    returns (order': seq<string>, groups': map<string, seq<Item>>)
    requires Grouped(seen, order, groups)
    ensures Grouped(seen + [x], order', groups')
  {
    if x.kind in groups {
      groups' := groups[x.kind := groups[x.kind] + [x]];
      order' := order;
    } else {
      groups' := groups[x.kind := [x]];
      order' := order + [x.kind];
    }
    GroupsStep(seen, x, order, groups, order', groups');
  }

  /** `s.replace('_', ' ')`: only the first underscore is replaced. */
  function ReplaceFirstUnderscore(s: string): (r: string)
    ensures |r| == |s|
    ensures forall i :: 0 <= i < |s| ==> r[i] == if s[i] == '_' && '_' !in s[..i] then ' ' else s[i]
  {
    if s == [] then []
    else if s[0] == '_' then [' '] + s[1..]
    else [s[0]] + ReplaceFirstUnderscore(s[1..])
  }

  /** The heading of a group: the type in lower case, pluralised, with the group's size. */
  function Heading(t: string, size: nat): string {
    ReplaceFirstUnderscore(Lower(t)) + "s (" + Decimal(size) + ")"
  }

  datatype Section = Section(kind: string, icon: Icon, color: string, heading: string, items: seq<Item>)

  /** What the panel shows. */
  datatype Panel =
    | Skeletons(count: nat)
    | ErrorText(message: string)
    | EmptyNotice(text: string)
    | Sections(sections: seq<Section>)

  /** The section of one type: its icon, colour, heading and items. */
  function SectionFor(items: seq<Item>, t: string): Section {
    var g := Group(items, t);
    Section(t, TypeIcon(t), TypeColor(t), Heading(t, |g|), g)
  }

  /** The section of each type present, in order of first appearance. */
  function SectionsOf(items: seq<Item>): (r: seq<Section>)
    ensures |r| == |Kinds(items)|
    ensures forall i :: 0 <= i < |r| ==> r[i].kind == Kinds(items)[i] && r[i].items == Group(items, r[i].kind)
  {
    var ks := Kinds(items);
    seq(|ks|, i requires 0 <= i < |ks| => SectionFor(items, ks[i]))
  }

  /**
   * The sections are non-empty, one per type present, and between them they
   * show every species exactly once.
   */
  lemma SectionsPartition(items: seq<Item>, i: nat)
    requires i < |SectionsOf(items)|
    ensures SectionsOf(items)[i].items != []
    ensures SectionSizes(items, Kinds(items)) == |items|
  {
    PresentKindHasGroup(items, Kinds(items)[i]);
    GroupsPartition(items);
  }

  /** A type that appears has at least one item in its group. */
  lemma PresentKindHasGroup(items: seq<Item>, t: string)
    requires t in Kinds(items)
    ensures Group(items, t) != []
  {
    var i :| 0 <= i < |items| && items[i].kind == t;
    assert items[i] in Group(items, t);
  }

  const EmptyText := "No marine life information available for this dive site yet."

  class MarineLifeDisplay {
    const siteId: string
    var marineLife: seq<Item>
    var loading: bool
    var error: Option<string>

    constructor (siteId: string)
      ensures this.siteId == siteId && marineLife == [] && loading && error == None
    {
      this.siteId := siteId;
      marineLife := [];
      loading := true;
      error := None;
    }

    /**
     * The effect that loads the species: nothing happens for an empty site id;
     * otherwise an OK reply replaces the list, a failure sets the error, and
     * loading ends either way.
     */
    method FetchMarineLife(reply: FetchOutcome) returns (url: Option<string>)
      modifies this
      ensures siteId == [] ==> url.None? && marineLife == old(marineLife) && loading == old(loading) && error == old(error)
      ensures siteId != [] ==> url == Some("/api/sites/" + siteId + "/marine-life") && !loading
      ensures siteId != [] && reply.Loaded? ==> marineLife == reply.items && error == None
      ensures siteId != [] && reply.NotOk? ==> marineLife == old(marineLife) && error == Some("Failed to fetch marine life")
      ensures siteId != [] && reply.Thrown? ==> marineLife == old(marineLife) && error == Some(reply.message)
    {
      if siteId == [] {
        return None;
      }
      loading := true;
      error := None;
      url := Some("/api/sites/" + siteId + "/marine-life");
      match reply {
        case Loaded(items) => marineLife := items;
        case NotOk => error := Some("Failed to fetch marine life");
        case Thrown(message) => error := Some(message);
      }
      loading := false;
    }

    /**
     * The panel: six placeholders while loading, then the error, then the
     * empty notice, and otherwise one non-empty section per type whose
     * sizes add up to the number of species.
     */
    function Render(): (p: Panel)
      reads this
      ensures loading ==> p == Skeletons(6)
      ensures !loading && error.Some? && error.value != "" ==> p == ErrorText(error.value)
      ensures !loading && (error.None? || error.value == "") && marineLife == [] ==> p == EmptyNotice(EmptyText)
      ensures !loading && (error.None? || error.value == "") && marineLife != [] ==> p == Sections(SectionsOf(marineLife))
      ensures p.Sections? ==> p.sections == SectionsOf(marineLife) && p.sections != []
    {
      if loading then Skeletons(6)
      else if error.Some? && error.value != "" then ErrorText(error.value)
      else if marineLife == [] then EmptyNotice(EmptyText)
      else
        assert marineLife[0].kind in Kinds(marineLife);
        Sections(SectionsOf(marineLife))
    }
  }

  /** What the `fetch` brought back: the species of an OK reply, a non-OK status, or a thrown error. */
  datatype FetchOutcome = Loaded(items: seq<Item>) | NotOk | Thrown(message: string)
}
