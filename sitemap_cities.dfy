/**
 * The part the two city sitemaps share: the `districtsByCity` object built from the city slugs,
 * and the nested loops that write a block for each city followed by a block for each of its
 * districts.
 *
 * A JavaScript object keeps its keys in first-insertion order, and assigning an existing key
 * replaces its value without moving it; the object is modelled as that key order and a map.
 */
module SitemapCities {
  import opened Seqs
  import opened Sitemap

  /** The index of the last occurrence of `x`. */
  function LastIndex<T(==)>(s: seq<T>, x: T): (i: nat)
    requires x in s
    ensures i < |s| && s[i] == x
    ensures forall j :: i < j < |s| ==> s[j] != x
    decreases |s|
  {
    if s[|s| - 1] == x then |s| - 1 else LastIndex(s[..|s| - 1], x)
  }

  lemma LastIndexSnoc<T>(p: seq<T>, x: T, y: T)
    requires y in p + [x]
    ensures LastIndex(p + [x], y) == if y == x then |p| else LastIndex(p, y)
  {
    assert (p + [x])[..|p|] == p;
  }

  lemma CollectAllMembers(cities: seq<string>)
    ensures forall c :: c in Collect(cities, (c: string) => true) <==> c in cities
  {
    forall c {
      CollectMember(cities, (c: string) => true, c);
    }
  }

  /** The key order of `districtsByCity`: each slug where it is first assigned. */
  function Order(cities: seq<string>): (r: seq<string>)
    ensures forall c :: c in r <==> c in cities
  {
    CollectAllMembers(cities);
    Collect(cities, (c: string) => true)
  }

  /**
   * `districtsByCity`: each city slug holds the district slugs fetched the LAST time it was
   * assigned; `districts[i]` is what the fetch for `cities[i]` gave.
   */
  function DistrictsByCity(cities: seq<string>, districts: seq<seq<string>>): map<string, seq<string>>
    requires |districts| == |cities|
  {
    map c | c in cities :: districts[LastIndex(cities, c)]
  }

  lemma DistrictsByCitySnoc(p: seq<string>, dp: seq<seq<string>>, x: string, d: seq<string>)
    requires |dp| == |p|
    ensures DistrictsByCity(p + [x], dp + [d]) == DistrictsByCity(p, dp)[x := d]
  {
    var m, n := DistrictsByCity(p + [x], dp + [d]), DistrictsByCity(p, dp)[x := d];
    forall c | c in m
      ensures c in n && m[c] == n[c]
    {
      LastIndexSnoc(p, x, c);
    }
    assert m.Keys == n.Keys;
  }

  /**
   * The loop that fills `districtsByCity`: for each city slug in turn, record its district slugs
   * under it.
   */
  method BuildDistrictsByCity(cities: seq<string>, districts: seq<seq<string>>)
    returns (order: seq<string>, byCity: map<string, seq<string>>)
    requires |districts| == |cities|
    ensures order == Order(cities)
    ensures byCity == DistrictsByCity(cities, districts)
  {
    order, byCity := [], map[];
    for i := 0 to |cities|
      invariant order == Order(cities[..i])
      invariant byCity == DistrictsByCity(cities[..i], districts[..i])
    {
      var city := cities[i];
      assert cities[..i + 1] == cities[..i] + [city];
      assert districts[..i + 1] == districts[..i] + [districts[i]];
      CollectSnoc(cities[..i], city, (c: string) => true);
      DistrictsByCitySnoc(cities[..i], districts[..i], city, districts[i]);
      CollectMember(cities[..i], (c: string) => true, city);
      if city !in byCity {
        order := order + [city];
      }
      byCity := byCity[city := districts[i]];
    }
    assert cities[..|cities|] == cities;
    assert districts[..|districts|] == districts;
  }

  /**
   * The keys come once each, every slug among them, in the order the slugs first occur; they are
   * exactly the keys of the map.
   */
  lemma OrderFacts(cities: seq<string>, districts: seq<seq<string>>)
    requires |districts| == |cities|
    ensures Distinct(Order(cities))
    ensures forall c :: c in Order(cities) <==> c in DistrictsByCity(cities, districts)
    ensures forall i, j :: 0 <= i < j < |Order(cities)| ==> Precedes(cities, Order(cities)[i], Order(cities)[j])
  {
    CollectDistinct(cities, (c: string) => true);
    CollectOrder(cities, (c: string) => true);
  }

  /** A slug assigned again later keeps only the districts of its last assignment. */
  lemma LastAssignmentWins(cities: seq<string>, districts: seq<seq<string>>, i: nat)
    requires |districts| == |cities| && i < |cities|
    requires forall j :: i < j < |cities| ==> cities[j] != cities[i]
    ensures DistrictsByCity(cities, districts)[cities[i]] == districts[i]
  {
    var k := LastIndex(cities, cities[i]);
    assert !(k < i) && !(i < k);
  }

  function CityLoc(city: string): string {
    SiteBase + "/nobetcieczane/" + city
  }

  function DistrictLoc(city: string, district: string): (loc: string)
    ensures loc == CityLoc(city) + "/" + district
  {
    SiteBase + "/nobetcieczane/" + city + "/" + district
  }

  /** The blocks of one city's districts, in the order of its list. */
  function DistrictUrls(city: string, districts: seq<string>, priority: string): (r: seq<Url>)
    ensures |r| == |districts|
    ensures forall k :: 0 <= k < |districts| ==> r[k] == Url(DistrictLoc(city, districts[k]), priority)
  {
    seq(|districts|, k requires 0 <= k < |districts| => Url(DistrictLoc(city, districts[k]), priority))
  }

  /** A city's block followed by its districts' blocks. */
  function CityGroup(city: string, districts: seq<string>, priority: string): seq<Url> {
    [Url(CityLoc(city), priority)] + DistrictUrls(city, districts, priority)
  }

  /** The pages of the city loop: a group for each key of `districtsByCity`, in key order. */
  function CityUrls(order: seq<string>, byCity: map<string, seq<string>>, priority: string): seq<Url>
    requires forall c :: c in order ==> c in byCity
    decreases |order|
  {
    if order == [] then []
    else
      var last := order[|order| - 1];
      CityUrls(order[..|order| - 1], byCity, priority) + CityGroup(last, byCity[last], priority)
  }

  lemma CityUrlsSnoc(order: seq<string>, byCity: map<string, seq<string>>, priority: string, city: string)
    requires forall c :: c in order + [city] ==> c in byCity
    ensures CityUrls(order + [city], byCity, priority)
            == CityUrls(order, byCity, priority) + CityGroup(city, byCity[city], priority)
  {
    assert (order + [city])[..|order|] == order;
  }

  lemma {:induction false} CityUrlsConcat(a: seq<string>, b: seq<string>, byCity: map<string, seq<string>>,
                                          priority: string)
    requires forall c :: c in a + b ==> c in byCity
    ensures CityUrls(a + b, byCity, priority) == CityUrls(a, byCity, priority) + CityUrls(b, byCity, priority)
    decreases |b|
  {
    if b == [] {
      assert a + b == a;
    } else {
      var p, x := b[..|b| - 1], b[|b| - 1];
      assert b == p + [x];
      assert a + b == (a + p) + [x];
      CityUrlsConcat(a, p, byCity, priority);
      CityUrlsSnoc(a + p, byCity, priority, x);
      CityUrlsSnoc(p, byCity, priority, x);
      ConcatAssoc(CityUrls(a, byCity, priority), CityUrls(p, byCity, priority), CityGroup(x, byCity[x], priority));
    }
  }

  /** Each city's block comes right after the groups of the cities before it and is followed by its own districts. */
  lemma CityUrlsAt(order: seq<string>, byCity: map<string, seq<string>>, priority: string, i: nat)
    requires forall c :: c in order ==> c in byCity
    requires i < |order|
    ensures CityUrls(order, byCity, priority)
            == CityUrls(order[..i], byCity, priority)
               + CityGroup(order[i], byCity[order[i]], priority)
               + CityUrls(order[i + 1..], byCity, priority)
  {
    assert order == order[..i] + [order[i]] + order[i + 1..];
    CityUrlsConcat(order[..i] + [order[i]], order[i + 1..], byCity, priority);
    CityUrlsSnoc(order[..i], byCity, priority, order[i]);
  }

  /** How many districts the listed cities hold together. */
  function DistrictTotal(order: seq<string>, byCity: map<string, seq<string>>): nat
    requires forall c :: c in order ==> c in byCity
    decreases |order|
  {
    if order == [] then 0
    else DistrictTotal(order[..|order| - 1], byCity) + |byCity[order[|order| - 1]]|
  }

  /** One block per city plus one per district of each. */
  lemma {:induction false} CityUrlsCount(order: seq<string>, byCity: map<string, seq<string>>, priority: string)
    requires forall c :: c in order ==> c in byCity
    ensures |CityUrls(order, byCity, priority)| == |order| + DistrictTotal(order, byCity)
    decreases |order|
  {
    if order != [] {
      CityUrlsCount(order[..|order| - 1], byCity, priority);
    }
  }

  /** Every city and district block carries the same priority. */
  lemma {:induction false} CityUrlsPriority(order: seq<string>, byCity: map<string, seq<string>>, priority: string)
    requires forall c :: c in order ==> c in byCity
    ensures forall k :: 0 <= k < |CityUrls(order, byCity, priority)| ==> CityUrls(order, byCity, priority)[k].priority == priority
    decreases |order|
  {
    if order != [] {
      CityUrlsPriority(order[..|order| - 1], byCity, priority);
    }
  }

  /** A city group renders as the city's block followed by its districts' blocks. */
  lemma RenderGroup(city: string, districts: seq<string>, priority: string, date: string)
    ensures Render(CityGroup(city, districts, priority), date)
            == Block(Url(CityLoc(city), priority), date) + Render(DistrictUrls(city, districts, priority), date)
  {
    var u := Url(CityLoc(city), priority);
    RenderConcat([u], DistrictUrls(city, districts, priority), date);
    RenderOne(u, date);
  }

  /** The inner `for … of` loop: append a block for each district of one city. */
  method AppendDistrictBlocks(sitemap: string, city: string, districts: seq<string>, priority: string, date: string)
    returns (s: string)
    ensures s == sitemap + Render(DistrictUrls(city, districts, priority), date)
  {
    s := sitemap;
    assert DistrictUrls(city, districts[..0], priority) == [];
    for j := 0 to |districts|
      invariant s == sitemap + Render(DistrictUrls(city, districts[..j], priority), date)
    {
      var u := Url(DistrictLoc(city, districts[j]), priority);
      var done := DistrictUrls(city, districts[..j], priority);
      assert DistrictUrls(city, districts[..j + 1], priority) == done + [u];
      AppendBlock(sitemap, done, u, date);
      s := s + Block(u, date);
    }
    assert districts[..|districts|] == districts;
  }

  /** One turn of the outer loop: the city's block, then the inner loop over its districts. */
  method AppendCityGroup(sitemap: string, city: string, districts: seq<string>, priority: string, date: string)
    returns (s: string)
    ensures s == sitemap + Render(CityGroup(city, districts, priority), date)
  {
    var head := Block(Url(CityLoc(city), priority), date);
    s := sitemap + head;
    s := AppendDistrictBlocks(s, city, districts, priority, date);
    RenderGroup(city, districts, priority, date);
    AppendAssoc(sitemap, head, Render(DistrictUrls(city, districts, priority), date));
  }

  /** The outer `for … in` loop over the keys of `districtsByCity`: each city's block, then its districts'. */
  method AppendCityBlocks(sitemap: string, order: seq<string>, byCity: map<string, seq<string>>,
                          priority: string, date: string)
    returns (s: string)
    requires forall c :: c in order ==> c in byCity
    ensures s == sitemap + Render(CityUrls(order, byCity, priority), date)
  {
    s := sitemap;
    assert Blocks([], date) == [];
    assert sitemap + Render(CityUrls(order[..0], byCity, priority), date) == sitemap;
    for i := 0 to |order|
      invariant s == sitemap + Render(CityUrls(order[..i], byCity, priority), date)
    {
      var city := order[i];
      var done := CityUrls(order[..i], byCity, priority);
      var group := CityGroup(city, byCity[city], priority);
      s := AppendCityGroup(s, city, byCity[city], priority, date);
      TakeSnoc(order, i);
      CityUrlsSnoc(order[..i], byCity, priority, city);
      RenderConcat(done, group, date);
      AppendAssoc(sitemap, Render(done, date), Render(group, date));
    }
    assert order[..|order|] == order;
  }
}
