/**
 * The fast-travel point registry of the CGMZ Fast Travel plugin: the point
 * records, the ordered registry that the plugin keeps on its core object, the
 * queries the menu uses, the three editing commands, and the affordability
 * test of the travel list.
 */
module FastTravel {
  import opened Wrappers

  // ---------------------------------------------------------------------------
  // Point records
  // ---------------------------------------------------------------------------

  /** One configured travel point, already parsed from the plugin parameters. */
  datatype PointConfig = PointConfig(
    name: string,
    discovered: bool,
    description: string,
    image: string,
    mapId: int,
    x: int,
    y: int,
    direction: int,
    category: string,
    goldCost: int,
    itemCostAmount: int,
    itemCostId: int,
    travelSe: string,
    toastSe: string)

  /** A travel point as the registry holds it. `hasCosts` is stored, as in the plugin. */
  datatype Point = Point(
    name: string,
    discovered: bool,
    description: string,
    image: string,
    mapId: int,
    x: int,
    y: int,
    dir: int,
    category: string,
    goldCost: int,
    itemCostAmount: int,
    itemCostId: int,
    hasCosts: bool,
    travelSe: string,
    toastSe: string)

  /** The stored cost flag agrees with the cost amounts it was derived from. */
  predicate CostsConsistent(p: Point) {
    p.hasCosts == (p.goldCost > 0 || p.itemCostAmount > 0)
  }

  /** Builds a point from its configuration (initialize together with setupCosts). */
  function NewPoint(c: PointConfig): (p: Point)
    ensures p.name == c.name && p.discovered == c.discovered && p.category == c.category
    ensures p.mapId == c.mapId && p.x == c.x && p.y == c.y && p.dir == c.direction
    ensures p.goldCost == c.goldCost && p.itemCostAmount == c.itemCostAmount && p.itemCostId == c.itemCostId
    ensures p.description == c.description && p.image == c.image && p.travelSe == c.travelSe && p.toastSe == c.toastSe
    ensures p.hasCosts <==> c.goldCost > 0 || c.itemCostAmount > 0
    ensures CostsConsistent(p)
  {
    Point(c.name, c.discovered, c.description, c.image, c.mapId, c.x, c.y, c.direction,
          c.category, c.goldCost, c.itemCostAmount, c.itemCostId,
          c.goldCost > 0 || c.itemCostAmount > 0, c.travelSe, c.toastSe)
  }

  // ---------------------------------------------------------------------------
  // Discovery and its toast
  // ---------------------------------------------------------------------------

  datatype SoundEffect = SoundEffect(name: string, pan: int, pitch: int, volume: int)

  /** The request handed to the toast manager when a point is discovered. */
  datatype Toast = Toast(name: string, se: Option<SoundEffect>)

  /** Whether the toast manager plugin is loaded, and the "Show Discover Toast" parameter. */
  datatype ToastSettings = ToastSettings(toastManagerLoaded: bool, showDiscoverToast: bool)

  /** A point after `discover`, with the toast it emitted, if any. */
  datatype Discovery = Discovery(point: Point, toast: Option<Toast>)

  /** The toast of setupDiscoverToast: the point's name, and its sound only when one is set. */
  function DiscoverToast(p: Point): (t: Toast)
    ensures t.name == p.name
    ensures t.se.Some? <==> p.toastSe != ""
    ensures t.se.Some? ==> t.se.value == SoundEffect(p.toastSe, 0, 100, 100)
  {
    Toast(p.name, if p.toastSe != "" then Some(SoundEffect(p.toastSe, 0, 100, 100)) else None)
  }

  /**
   * Sets the discovered flag to the given value and emits a toast whenever the
   * new value is true and toasts are enabled, whatever the previous value was.
   */
  function Discover(p: Point, discovered: bool, settings: ToastSettings): (r: Discovery)
    ensures r.point == p.(discovered := discovered)
    ensures r.toast.Some? <==> discovered && settings.toastManagerLoaded && settings.showDiscoverToast
    ensures r.toast.Some? ==> r.toast.value == DiscoverToast(p)
  {
    var q := p.(discovered := discovered);
    if discovered && settings.toastManagerLoaded && settings.showDiscoverToast
    then Discovery(q, Some(DiscoverToast(q)))
    else Discovery(q, None)
  }

  /** Discovering an already discovered point toasts again: there is no transition test. */
  lemma RediscoverToastsAgain(p: Point, settings: ToastSettings)
    requires settings.toastManagerLoaded && settings.showDiscoverToast
    ensures var once := Discover(p, true, settings);
            once.toast.Some? && Discover(once.point, true, settings).toast == once.toast
  {
  }

  // ---------------------------------------------------------------------------
  // The ordered list of points and its queries
  // ---------------------------------------------------------------------------

  /** No two points of the list share a name. */
  predicate UniqueNames(s: seq<Point>) {
    forall i, j :: 0 <= i < j < |s| ==> s[i].name != s[j].name
  }

  function Names(s: seq<Point>): set<string> {
    set p | p in s :: p.name
  }

  /** The position of the first point with the given name. */
  function IndexOf(s: seq<Point>, name: string): (r: Option<nat>)
    ensures r.Some? ==> r.value < |s| && s[r.value].name == name
    ensures r.Some? ==> forall j :: 0 <= j < r.value ==> s[j].name != name
    ensures r.None? <==> name !in Names(s)
  {
    if s == [] then None
    else if s[0].name == name then Some(0)
    else match IndexOf(s[1..], name)
      case None => assert Names(s) == {s[0].name} + Names(s[1..]); None
      case Some(k) => Some(k + 1)
  }

  /** getFastTravelPoint: the first point with exactly that name, or nothing. */
  function FindPoint(s: seq<Point>, name: string): (r: Option<Point>)
    ensures r.None? <==> name !in Names(s)
    ensures r.Some? ==> r.value in s && r.value.name == name
  {
    match IndexOf(s, name)
    case None => None
    case Some(i) => Some(s[i])
  }

  /** Lookup returns the earliest point carrying the name. */
  lemma FindPointFirst(s: seq<Point>, name: string, i: nat)
    requires i < |s| && s[i].name == name
    requires forall j :: 0 <= j < i ==> s[j].name != name
    ensures FindPoint(s, name) == Some(s[i])
  {
  }

  /** With unique names, lookup returns the one point carrying the name. */
  lemma FindPointUnique(s: seq<Point>, p: Point)
    requires UniqueNames(s) && p in s
    ensures FindPoint(s, p.name) == Some(p)
  {
  }

  /** getAllDiscoveredFastTravelPoints: the discovered points, in registry order. */
  function AllDiscovered(s: seq<Point>): (r: seq<Point>)
    ensures |r| <= |s|
    ensures forall p :: p in r <==> p in s && p.discovered
  {
    if s == [] then []
    else if s[0].discovered then [s[0]] + AllDiscovered(s[1..])
    else AllDiscovered(s[1..])
  }

  /** The discovered filter distributes over concatenation, so it keeps the registry order. */
  lemma {:induction false} AllDiscoveredAppend(a: seq<Point>, b: seq<Point>)
    ensures AllDiscovered(a + b) == AllDiscovered(a) + AllDiscovered(b)
  {
    if a == [] {
      assert a + b == b;
    } else {
      assert (a + b)[1..] == a[1..] + b;
      AllDiscoveredAppend(a[1..], b);
    }
  }

  /** The points of one category that are discovered, in registry order. */
  function DiscoveredOfCategory(s: seq<Point>, category: string): (r: seq<Point>)
    ensures |r| <= |s|
    ensures forall p :: p in r <==> p in s && p.discovered && p.category == category
  {
    if s == [] then []
    else if s[0].category == category && s[0].discovered then [s[0]] + DiscoveredOfCategory(s[1..], category)
    else DiscoveredOfCategory(s[1..], category)
  }

  /** The category filter distributes over concatenation, so it keeps the registry order. */
  lemma {:induction false} DiscoveredOfCategoryAppend(a: seq<Point>, b: seq<Point>, category: string)
    ensures DiscoveredOfCategory(a + b, category) == DiscoveredOfCategory(a, category) + DiscoveredOfCategory(b, category)
  {
    if a == [] {
      assert a + b == b;
    } else {
      assert (a + b)[1..] == a[1..] + b;
      DiscoveredOfCategoryAppend(a[1..], b, category);
    }
  }

  /**
   * getAllDiscoveredFastTravelPointsFromCategory: "all" selects every discovered
   * point (even one whose own category is some other string); any other string
   * selects the discovered points whose category is exactly that string.
   */
  function DiscoveredFromCategory(s: seq<Point>, category: string): (r: seq<Point>)
    ensures category == "all" ==> r == AllDiscovered(s)
    ensures category != "all" ==> forall p :: p in r <==> p in s && p.discovered && p.category == category
    ensures category != "all" ==> r == DiscoveredOfCategory(s, category)
  {
    if category == "all" then AllDiscovered(s) else DiscoveredOfCategory(s, category)
  }

  /** A named category's list is the discovered list narrowed to that category, order kept. */
  lemma {:induction false} CategoryFiltersDiscovered(s: seq<Point>, category: string)
    ensures DiscoveredOfCategory(s, category) == DiscoveredOfCategory(AllDiscovered(s), category)
  {
    if s != [] {
      CategoryFiltersDiscovered(s[1..], category);
      if s[0].discovered {
        assert ([s[0]] + AllDiscovered(s[1..]))[1..] == AllDiscovered(s[1..]);
      }
    }
  }

  /** getTotalFastTravelPointsDiscovered. */
  function TotalDiscovered(s: seq<Point>): (n: nat)
    ensures n == |AllDiscovered(s)|
    ensures n <= |s|
    ensures n == 0 <==> forall p :: p in s ==> !p.discovered
    ensures n == |s| <==> forall p :: p in s ==> p.discovered
  {
    DiscoveredCountIsFull(s);
    |AllDiscovered(s)|
  }

  lemma {:induction false} DiscoveredCountIsFull(s: seq<Point>)
    ensures |AllDiscovered(s)| == |s| <==> forall p :: p in s ==> p.discovered
    ensures |AllDiscovered(s)| == 0 <==> forall p :: p in s ==> !p.discovered
  {
    var r := AllDiscovered(s);
    if |r| > 0 {
      assert r[0] in r;
    }
    if s != [] {
      DiscoveredCountIsFull(s[1..]);
      assert forall p :: p in s <==> p == s[0] || p in s[1..];
    }
  }

  /** The index of the first discovered point of the given category, or |s| if there is none. */
  ghost function FirstDiscoveredIn(s: seq<Point>, category: string): (k: nat)
    ensures k <= |s|
    ensures k < |s| ==> s[k].discovered && s[k].category == category
    ensures forall m :: 0 <= m < k ==> !(s[m].discovered && s[m].category == category)
  {
    if s == [] then 0
    else if s[0].discovered && s[0].category == category then 0
    else 1 + FirstDiscoveredIn(s[1..], category)
  }

  /** A discovered point with no earlier discovered point of its category is where that category is first seen. */
  lemma FirstDiscoveredAt(s: seq<Point>, k: nat)
    requires k < |s| && s[k].discovered
    requires forall m :: 0 <= m < k ==> !(s[m].discovered && s[m].category == s[k].category)
    ensures FirstDiscoveredIn(s, s[k].category) == k
  {
  }

  // ---------------------------------------------------------------------------
  // Seeding from configuration
  // ---------------------------------------------------------------------------

  /** One round of the seeding loop: append the configured point unless its name is present. */
  function SeedStep(s: seq<Point>, c: PointConfig): (r: seq<Point>)
    ensures c.name in Names(s) ==> r == s
    ensures c.name !in Names(s) ==> r == s + [NewPoint(c)]
  {
    if FindPoint(s, c.name).None? then s + [NewPoint(c)] else s
  }

  /**
   * The points after seeding `s` with `cfg`: existing points are never changed,
   * removed or reordered.
   */
  function Seed(s: seq<Point>, cfg: seq<PointConfig>): (r: seq<Point>)
    ensures |s| <= |r| && r[..|s|] == s
    decreases |cfg|
  {
    if cfg == [] then s
    else
      var t := SeedStep(s, cfg[0]);
      assert t[..|s|] == s;
      var r := Seed(t, cfg[1..]);
      assert r[..|s|] == r[..|t|][..|s|];
      r
  }

  /** Seeding keeps names unique and every stored cost flag consistent. */
  lemma {:induction false} SeedKeepsInvariant(s: seq<Point>, cfg: seq<PointConfig>)
    requires UniqueNames(s) && forall p :: p in s ==> CostsConsistent(p)
    ensures UniqueNames(Seed(s, cfg)) && forall p :: p in Seed(s, cfg) ==> CostsConsistent(p)
    decreases |cfg|
  {
    if cfg != [] {
      var t := SeedStep(s, cfg[0]);
      assert forall p :: p in t ==> p in s || p == NewPoint(cfg[0]);
      SeedKeepsInvariant(t, cfg[1..]);
    }
  }

  function ConfigNames(cfg: seq<PointConfig>): set<string> {
    set c | c in cfg :: c.name
  }

  /** No two configuration entries share a name. */
  predicate UniqueConfigNames(cfg: seq<PointConfig>) {
    forall i, j :: 0 <= i < j < |cfg| ==> cfg[i].name != cfg[j].name
  }

  /**
   * Reference definition of what seeding adds: the configuration entries, in
   * configuration order, whose name is neither among `names` nor taken by an
   * earlier entry.
   */
  function FirstNew(names: set<string>, cfg: seq<PointConfig>): (r: seq<PointConfig>)
    ensures forall c :: c in r ==> c in cfg && c.name !in names
    decreases |cfg|
  {
    if cfg == [] then []
    else if cfg[0].name in names then FirstNew(names, cfg[1..])
    else [cfg[0]] + FirstNew(names + {cfg[0].name}, cfg[1..])
  }

  /** FirstNew holds each name at most once, and exactly the configured names not in `names`. */
  lemma {:induction false} FirstNewNames(names: set<string>, cfg: seq<PointConfig>)
    ensures UniqueConfigNames(FirstNew(names, cfg))
    ensures ConfigNames(FirstNew(names, cfg)) == ConfigNames(cfg) - names
    decreases |cfg|
  {
    if cfg != [] {
      assert ConfigNames(cfg) == {cfg[0].name} + ConfigNames(cfg[1..]);
      if cfg[0].name in names {
        FirstNewNames(names, cfg[1..]);
      } else {
        var tail := FirstNew(names + {cfg[0].name}, cfg[1..]);
        FirstNewNames(names + {cfg[0].name}, cfg[1..]);
        var r := [cfg[0]] + tail;
        assert ConfigNames(r) == {cfg[0].name} + ConfigNames(tail);
        assert forall j :: 0 <= j < |tail| ==> tail[j] in tail;
      }
    }
  }

  /** The points made from a list of configuration entries. */
  function Instantiate(cs: seq<PointConfig>): (r: seq<Point>)
    ensures |r| == |cs|
  {
    if cs == [] then [] else [NewPoint(cs[0])] + Instantiate(cs[1..])
  }

  lemma {:induction false} InstantiateAt(cs: seq<PointConfig>, i: nat)
    requires i < |cs|
    ensures Instantiate(cs)[i] == NewPoint(cs[i])
  {
    if i > 0 {
      InstantiateAt(cs[1..], i - 1);
    }
  }

  lemma InstantiateCons(c: PointConfig, tail: seq<PointConfig>)
    ensures Instantiate([c] + tail) == [NewPoint(c)] + Instantiate(tail)
  {
    assert ([c] + tail)[1..] == tail;
  }

  lemma NamesAppend(s: seq<Point>, p: Point)
    ensures Names(s + [p]) == Names(s) + {p.name}
  {
    assert forall q :: q in s + [p] <==> q in s || q == p;
  }

  /** Seeding appends exactly the points of FirstNew, after the points already present. */
  lemma {:induction false} SeedAppendsFirstNew(s: seq<Point>, cfg: seq<PointConfig>)
    ensures Seed(s, cfg) == s + Instantiate(FirstNew(Names(s), cfg))
    decreases |cfg|
  {
    if cfg == [] {
      assert s + [] == s;
    } else {
      var c := cfg[0];
      if c.name in Names(s) {
        SeedAppendsFirstNew(s, cfg[1..]);
      } else {
        SeedAppendsFirstNewStep(s, cfg);
      }
    }
  }

  /** The inductive step of SeedAppendsFirstNew when the first entry's name is new. */
  lemma {:induction false} SeedAppendsFirstNewStep(s: seq<Point>, cfg: seq<PointConfig>)
    requires cfg != [] && cfg[0].name !in Names(s)
    ensures Seed(s, cfg) == s + Instantiate(FirstNew(Names(s), cfg))
    decreases |cfg|, 0
  {
    var c := cfg[0];
    var t := s + [NewPoint(c)];
    var tail := FirstNew(Names(s) + {c.name}, cfg[1..]);
    SeedUnfoldNew(s, cfg);
    NamesAppend(s, NewPoint(c));
    SeedAppendsFirstNew(t, cfg[1..]);
    FirstNewUnfoldNew(Names(s), cfg);
    AppendInstantiated(s, c, tail);
  }

  lemma SeedUnfoldNew(s: seq<Point>, cfg: seq<PointConfig>)
    requires cfg != [] && cfg[0].name !in Names(s)
    ensures Seed(s, cfg) == Seed(s + [NewPoint(cfg[0])], cfg[1..])
  {
  }

  lemma FirstNewUnfoldNew(names: set<string>, cfg: seq<PointConfig>)
    requires cfg != [] && cfg[0].name !in names
    ensures FirstNew(names, cfg) == [cfg[0]] + FirstNew(names + {cfg[0].name}, cfg[1..])
  {
  }

  lemma AppendInstantiated(s: seq<Point>, c: PointConfig, tail: seq<PointConfig>)
    ensures (s + [NewPoint(c)]) + Instantiate(tail) == s + Instantiate([c] + tail)
  {
    InstantiateCons(c, tail);
  }

  /** After seeding, every configured name is present, and no other new name. */
  lemma {:induction false} SeedNames(s: seq<Point>, cfg: seq<PointConfig>)
    ensures Names(Seed(s, cfg)) == Names(s) + ConfigNames(cfg)
    decreases |cfg|
  {
    if cfg != [] {
      var c := cfg[0];
      var t := SeedStep(s, c);
      assert ConfigNames(cfg) == {c.name} + ConfigNames(cfg[1..]);
      if c.name in Names(s) {
        assert t == s;
      } else {
        NamesAppend(s, NewPoint(c));
      }
      SeedNames(t, cfg[1..]);
    }
  }

  lemma {:induction false} FirstNewOfKnownNames(names: set<string>, cfg: seq<PointConfig>)
    requires ConfigNames(cfg) <= names
    ensures FirstNew(names, cfg) == []
  {
    if cfg != [] {
      assert cfg[0] in cfg;
      assert ConfigNames(cfg[1..]) <= ConfigNames(cfg) by {
        assert forall c :: c in cfg[1..] ==> c in cfg;
      }
      FirstNewOfKnownNames(names, cfg[1..]);
    }
  }

  /** Seeding twice with the same configuration equals seeding once. */
  lemma SeedIdempotent(s: seq<Point>, cfg: seq<PointConfig>)
    ensures Seed(Seed(s, cfg), cfg) == Seed(s, cfg)
  {
    var t := Seed(s, cfg);
    SeedAppendsFirstNew(t, cfg);
    SeedNames(s, cfg);
    FirstNewOfKnownNames(Names(t), cfg);
    assert Instantiate([]) == [];
  }

  /**
   * The first configuration entry with a name outside `names` is among the
   * entries `FirstNew` keeps.
   */
  lemma {:induction false} FirstNewKeepsFirstOccurrence(names: set<string>, cfg: seq<PointConfig>, k: nat)
    requires k < |cfg| && cfg[k].name !in names
    requires forall j :: 0 <= j < k ==> cfg[j].name != cfg[k].name
    ensures cfg[k] in FirstNew(names, cfg)
    decreases k
  {
    if k == 0 {
      assert FirstNew(names, cfg)[0] == cfg[0];
    } else {
      var c := cfg[0];
      assert cfg[1..][k - 1] == cfg[k];
      if c.name in names {
        FirstNewKeepsFirstOccurrence(names, cfg[1..], k - 1);
      } else {
        FirstNewKeepsFirstOccurrence(names + {c.name}, cfg[1..], k - 1);
      }
    }
  }

  /** Reinitialising: the result depends on the configuration only, one point per configured name. */
  lemma ReinitializedPoints(cfg: seq<PointConfig>)
    ensures Seed([], cfg) == Instantiate(FirstNew({}, cfg))
    ensures UniqueNames(Seed([], cfg))
    ensures Names(Seed([], cfg)) == ConfigNames(cfg)
  {
    SeedAppendsFirstNew([], cfg);
    assert Names([]) == {};
    assert [] + Instantiate(FirstNew({}, cfg)) == Instantiate(FirstNew({}, cfg));
    SeedNames([], cfg);
    SeedKeepsInvariant([], cfg);
  }

  /** The point of reinitialising for a configured name is made from the first entry with that name. */
  lemma ReinitializedFromFirstEntry(cfg: seq<PointConfig>, k: nat)
    requires k < |cfg| && forall j :: 0 <= j < k ==> cfg[j].name != cfg[k].name
    ensures NewPoint(cfg[k]) in Seed([], cfg)
  {
    var f := FirstNew({}, cfg);
    assert Seed([], cfg) == Instantiate(f) by {
      SeedAppendsFirstNew([], cfg);
      assert Names([]) == {};
      assert [] + Instantiate(f) == Instantiate(f);
    }
    FirstNewKeepsFirstOccurrence({}, cfg, k);
    var i :| 0 <= i < |f| && f[i] == cfg[k];
    InstantiateAt(f, i);
    assert Instantiate(f)[i] == NewPoint(cfg[k]);
  }

  // ---------------------------------------------------------------------------
  // Facts about the editing commands
  // ---------------------------------------------------------------------------

  /** Appending a point with a fresh name keeps the names unique. */
  lemma AppendKeepsUniqueNames(s: seq<Point>, p: Point)
    requires UniqueNames(s) && p.name !in Names(s)
    ensures UniqueNames(s + [p])
  {
    assert forall i :: 0 <= i < |s| ==> s[i] in s;
  }

  /** An edit that keeps every name keeps the names unique. */
  lemma EditKeepsUniqueNames(s: seq<Point>, i: nat, q: Point)
    requires UniqueNames(s) && i < |s| && q.name == s[i].name
    ensures UniqueNames(s[i := q])
  {
  }

  /** After discovering a known point, lookup finds it discovered, and both discovered lists hold it. */
  lemma {:induction false} DiscoveredAfterDiscover(s: seq<Point>, name: string)
    requires name in Names(s)
    ensures var i := IndexOf(s, name).value;
            var t := s[i := s[i].(discovered := true)];
            FindPoint(t, name).Some? && FindPoint(t, name).value.discovered
            && t[i] in AllDiscovered(t) && t[i] in DiscoveredFromCategory(t, "all")
  {
    var i := IndexOf(s, name).value;
    var t := s[i := s[i].(discovered := true)];
    FindPointFirst(t, name, i);
    assert t[i] in t;
  }

  /** One round of the seeding loop keeps the registry invariant and the remaining work. */
  lemma SeedLoopStep(s: seq<Point>, cfg: seq<PointConfig>, i: nat)
    requires i < |cfg|
    requires UniqueNames(s) && forall p :: p in s ==> CostsConsistent(p)
    ensures var t := SeedStep(s, cfg[i]);
            && Seed(t, cfg[i + 1..]) == Seed(s, cfg[i..])
            && UniqueNames(t) && forall p :: p in t ==> CostsConsistent(p)
  {
    assert cfg[i..][0] == cfg[i] && cfg[i..][1..] == cfg[i + 1..];
    var point := NewPoint(cfg[i]);
    if FindPoint(s, point.name).None? {
      AppendKeepsUniqueNames(s, point);
      assert forall p :: p in s + [point] ==> p in s || p == point;
    }
  }

  /** The category loop's invariant after the first k points. */
  ghost predicate CategoriesSoFar(s: seq<Point>, k: nat, categories: seq<string>) {
    && k <= |s|
    && (forall i, j :: 0 <= i < j < |categories| ==> categories[i] != categories[j])
    && (forall m :: 0 <= m < k && s[m].discovered ==> s[m].category in categories)
    && (forall i :: 0 <= i < |categories| ==> FirstDiscoveredIn(s, categories[i]) < k)
    && (forall i, j :: 0 <= i < j < |categories| ==>
          FirstDiscoveredIn(s, categories[i]) < FirstDiscoveredIn(s, categories[j]))
  }

  /** One round of the category loop keeps its invariant. */
  lemma CategoryLoopStep(s: seq<Point>, k: nat, categories: seq<string>)
    requires k < |s| && CategoriesSoFar(s, k, categories)
    ensures var p := s[k];
            CategoriesSoFar(s, k + 1, if p.discovered && p.category !in categories then categories + [p.category] else categories)
  {
    var p := s[k];
    if p.discovered && p.category !in categories {
      CategoryLoopPush(s, k, categories);
    }
  }

  /** The round of the category loop that meets a new category and pushes it. */
  lemma CategoryLoopPush(s: seq<Point>, k: nat, categories: seq<string>)
    requires k < |s| && CategoriesSoFar(s, k, categories)
    requires s[k].discovered && s[k].category !in categories
    ensures CategoriesSoFar(s, k + 1, categories + [s[k].category])
  {
    FirstDiscoveredAt(s, k);
    PushKeepsDistinct(categories, s[k].category);
    PushCoversDiscovered(s, k, categories);
    PushKeepsFirstSeenOrder(s, k, categories);
  }

  /** Pushing a category not yet listed keeps the list free of duplicates. */
  lemma PushKeepsDistinct(categories: seq<string>, c: string)
    requires forall i, j :: 0 <= i < j < |categories| ==> categories[i] != categories[j]
    requires c !in categories
    ensures var next := categories + [c];
            forall i, j :: 0 <= i < j < |next| ==> next[i] != next[j]
  {
    var next := categories + [c];
    forall i, j | 0 <= i < j < |next|
      ensures next[i] != next[j]
    {
      assert next[i] == categories[i] by { assert i < |categories|; }
      if j == |categories| {
        assert categories[i] in categories;
      } else {
        assert next[j] == categories[j];
      }
    }
  }

  /** After the push, every discovered point up to and including `k` has its category listed. */
  lemma PushCoversDiscovered(s: seq<Point>, k: nat, categories: seq<string>)
    requires k < |s|
    requires forall m :: 0 <= m < k && s[m].discovered ==> s[m].category in categories
    ensures forall m :: 0 <= m < k + 1 && s[m].discovered ==> s[m].category in categories + [s[k].category]
  {
  }

  /** The pushed category is first seen at `k`, after every category already listed. */
  lemma PushKeepsFirstSeenOrder(s: seq<Point>, k: nat, categories: seq<string>)
    requires k < |s| && FirstDiscoveredIn(s, s[k].category) == k
    requires forall i :: 0 <= i < |categories| ==> FirstDiscoveredIn(s, categories[i]) < k
    requires forall i, j :: 0 <= i < j < |categories| ==>
               FirstDiscoveredIn(s, categories[i]) < FirstDiscoveredIn(s, categories[j])
    ensures var next := categories + [s[k].category];
            (forall i :: 0 <= i < |next| ==> FirstDiscoveredIn(s, next[i]) < k + 1) &&
            (forall i, j :: 0 <= i < j < |next| ==> FirstDiscoveredIn(s, next[i]) < FirstDiscoveredIn(s, next[j]))
  {
    var next := categories + [s[k].category];
    forall i | 0 <= i < |next|
      ensures FirstDiscoveredIn(s, next[i]) < k + 1
    {
      if i < |categories| {
        assert next[i] == categories[i];
      }
    }
    forall i, j | 0 <= i < j < |next|
      ensures FirstDiscoveredIn(s, next[i]) < FirstDiscoveredIn(s, next[j])
    {
      assert next[i] == categories[i];
      if j < |categories| {
        assert next[j] == categories[j];
      }
    }
  }

  /** What the category loop has built, read back as membership facts about the whole list. */
  lemma CategoriesCoverDiscovered(s: seq<Point>, categories: seq<string>)
    requires forall m :: 0 <= m < |s| && s[m].discovered ==> s[m].category in categories
    requires forall i :: 0 <= i < |categories| ==> FirstDiscoveredIn(s, categories[i]) < |s|
    ensures forall p :: p in s && p.discovered ==> p.category in categories
    ensures forall c :: c in categories ==> exists p :: p in s && p.discovered && p.category == c
  {
    forall p | p in s && p.discovered
      ensures p.category in categories
    {
      var m :| 0 <= m < |s| && s[m] == p;
    }
    forall c | c in categories
      ensures exists p :: p in s && p.discovered && p.category == c
    {
      var i :| 0 <= i < |categories| && categories[i] == c;
      assert s[FirstDiscoveredIn(s, c)] in s;
    }
  }

  // ---------------------------------------------------------------------------
  // The registry
  // ---------------------------------------------------------------------------

  /** The plugin's state on the core object: the list of points, created on first use. */
  class Core {
    /** Whether the list exists yet (before the first seeding it is undefined). */
    var initialized: bool
    var points: seq<Point>

    ghost predicate Valid()
      reads this
    {
      && UniqueNames(points)
      && (forall p :: p in points ==> CostsConsistent(p))
      && (!initialized ==> points == [])
    }

    constructor ()
      ensures Valid() && !initialized && points == []
    {
      initialized := false;
      points := [];
    }

    /** setupFastTravelVariables: an empty list. */
    method SetupFastTravelVariables()
      modifies this
      ensures Valid() && initialized && points == []
    {
      initialized := true;
      points := [];
    }

    /**
     * initializeFastTravelData: start from an empty list when there is none or
     * when asked to reinitialise, then append each configured point whose name is
     * not yet present, in configuration order.
     */
    method InitializeFastTravelData(config: seq<PointConfig>, reinitialize: bool)
      requires Valid()
      modifies this
      ensures Valid() && initialized
      ensures points == Seed(if reinitialize || !old(initialized) then [] else old(points), config)
    {
      if !initialized || reinitialize {
        SetupFastTravelVariables();
      }
      ghost var start := points;
      assert config[0..] == config;
      for i := 0 to |config|
        invariant Valid() && initialized
        invariant Seed(points, config[i..]) == Seed(start, config)
      {
        var point := NewPoint(config[i]);
        SeedLoopStep(points, config, i);
        if FindPoint(points, point.name).None? {
          points := points + [point];
        }
      }
      assert config[|config|..] == [];
    }

    /** getFastTravelPointCategories: the categories of discovered points, each once, in first-seen order. */
    method GetFastTravelPointCategories() returns (categories: seq<string>)
      ensures forall i, j :: 0 <= i < j < |categories| ==> categories[i] != categories[j]
      ensures forall p :: p in points && p.discovered ==> p.category in categories
      ensures forall c :: c in categories ==> exists p :: p in points && p.discovered && p.category == c
      ensures forall i, j :: 0 <= i < j < |categories| ==>
                FirstDiscoveredIn(points, categories[i]) < FirstDiscoveredIn(points, categories[j])
    {
      var all := points;
      categories := [];
      for k := 0 to |all|
        invariant CategoriesSoFar(all, k, categories)
      {
        var point := all[k];
        CategoryLoopStep(all, k, categories);
        if point.discovered && point.category !in categories {
          categories := categories + [point.category];
        }
      }
      CategoriesCoverDiscovered(all, categories);
    }

    /** discoverFastTravelPoint: sets the flag of the named point; unknown names change nothing. */
    method DiscoverFastTravelPoint(name: string, discovered: bool, settings: ToastSettings)
      returns (toast: Option<Toast>)
      requires Valid()
      modifies this
      ensures Valid() && initialized == old(initialized)
      ensures match IndexOf(old(points), name)
        case None => points == old(points) && toast.None?
        case Some(i) =>
          && points == old(points)[i := old(points)[i].(discovered := discovered)]
          && toast == Discover(old(points)[i], discovered, settings).toast
    {
      toast := None;
      match IndexOf(points, name)
      case None =>
      case Some(i) =>
        var d := Discover(points[i], discovered, settings);
        EditKeepsUniqueNames(points, i, d.point);
        points := points[i := d.point];
        toast := d.toast;
    }

    /** changeFastTravelPointMap: moves the named point's destination; unknown names change nothing. */
    method ChangeFastTravelPointMap(name: string, mapId: int, x: int, y: int, dir: int)
      requires Valid()
      modifies this
      ensures Valid() && initialized == old(initialized)
      ensures match IndexOf(old(points), name)
        case None => points == old(points)
        case Some(i) => points == old(points)[i := old(points)[i].(mapId := mapId, x := x, y := y, dir := dir)]
    {
      match IndexOf(points, name)
      case None =>
      case Some(i) =>
        var q := points[i].(mapId := mapId, x := x, y := y, dir := dir);
        EditKeepsUniqueNames(points, i, q);
        points := points[i := q];
    }

    /** changeFastTravelPointCategory: recategorises the named point; unknown names change nothing. */
    method ChangeFastTravelPointCategory(name: string, category: string)
      requires Valid()
      modifies this
      ensures Valid() && initialized == old(initialized)
      ensures match IndexOf(old(points), name)
        case None => points == old(points)
        case Some(i) => points == old(points)[i := old(points)[i].(category := category)]
    {
      match IndexOf(points, name)
      case None =>
      case Some(i) =>
        var q := points[i].(category := category);
        EditKeepsUniqueNames(points, i, q);
        points := points[i := q];
    }
  }

  // ---------------------------------------------------------------------------
  // The travel list window
  // ---------------------------------------------------------------------------

  /**
   * meetsCosts: a point without costs is always affordable; otherwise gold must
   * cover the gold cost, and when an item amount is set the party must hold at
   * least that many of the item. `numItems` stands for the party's inventory.
   */
  function MeetsCosts(p: Point, gold: int, numItems: int -> int): (r: bool)
    ensures !p.hasCosts ==> r
    ensures p.hasCosts && p.goldCost > gold ==> !r
    ensures p.hasCosts && p.goldCost <= gold && p.itemCostAmount > 0 ==> (r <==> numItems(p.itemCostId) >= p.itemCostAmount)
    ensures p.hasCosts && p.goldCost <= gold && p.itemCostAmount <= 0 ==> r
  {
    if p.hasCosts then
      if p.goldCost > gold then false
      else if p.itemCostAmount > 0 then numItems(p.itemCostId) >= p.itemCostAmount
      else true
    else true
  }

  /** More gold and more of every item never makes an affordable point unaffordable. */
  lemma MeetsCostsMonotone(p: Point, gold: int, numItems: int -> int, gold': int, numItems': int -> int)
    requires gold <= gold'
    requires forall id :: numItems(id) <= numItems'(id)
    requires MeetsCosts(p, gold, numItems)
    ensures MeetsCosts(p, gold', numItems')
  {
  }

  /**
   * For a point whose stored flag is consistent, meetsCosts is the affordability
   * rule: no gold shortfall, and no item shortfall when an item cost is set.
   */
  lemma MeetsCostsIsAffordability(p: Point, gold: int, numItems: int -> int)
    requires CostsConsistent(p)
    ensures MeetsCosts(p, gold, numItems) <==>
              (p.goldCost <= 0 || p.goldCost <= gold) &&
              (p.itemCostAmount <= 0 || (p.goldCost <= gold && numItems(p.itemCostId) >= p.itemCostAmount))
  {
  }

  /**
   * isEnabled: an entry is enabled only when a point is selected, and for a point
   * with a consistent cost flag exactly when the party suffers no gold shortfall
   * and, if an item cost is set, no item shortfall.
   */
  function IsEnabled(point: Option<Point>, gold: int, numItems: int -> int): (r: bool)
    ensures point.None? ==> !r
    ensures point.Some? && CostsConsistent(point.value) ==>
              (r <==> (point.value.goldCost <= 0 || point.value.goldCost <= gold) &&
                      (point.value.itemCostAmount <= 0 ||
                       (point.value.goldCost <= gold && numItems(point.value.itemCostId) >= point.value.itemCostAmount)))
  {
    point.Some? && MeetsCosts(point.value, gold, numItems)
  }

  /** More gold and no fewer of any item keep an enabled entry enabled. */
  lemma IsEnabledMonotone(point: Option<Point>, gold: int, numItems: int -> int, gold': int, numItems': int -> int)
    requires gold <= gold'
    requires forall id :: numItems(id) <= numItems'(id)
    requires IsEnabled(point, gold, numItems)
    ensures IsEnabled(point, gold', numItems')
  {
    MeetsCostsMonotone(point.value, gold, numItems, gold', numItems');
  }

  /** makeItemList: the selected category's discovered points, or nothing when no category is selected. */
  function MakeItemList(points: seq<Point>, category: Option<string>): (r: seq<Point>)
    ensures category.None? ==> r == []
    ensures category.Some? ==> forall p :: p in r <==>
              p in points && p.discovered && (category.value == "all" || p.category == category.value)
    ensures category == Some("all") ==> r == AllDiscovered(points)
    ensures category.Some? && category.value != "all" ==> r == DiscoveredOfCategory(points, category.value)
  {
    match category
    case None => []
    case Some(c) => DiscoveredFromCategory(points, c)
  }
}
