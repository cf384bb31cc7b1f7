/**
 * `scripts/sitemapGeneratorMainDistrictCityNear.js`: the site root and the nearest-pharmacy page,
 * then the city and district blocks as in the plain city sitemap, all with priority 0.5.
 */
module SitemapMainDistrictCityNear {
  import opened Seqs
  import opened Sitemap
  import opened SitemapCities

  const Priority: string := "0.5"

  /** The two blocks written before the city loop. */
  const Fixed: seq<Url> := [Url(SiteBase, "1.0"), Url(SiteBase + "/enyakinnobetcieczane", "0.5")]

  /** The pages of the sitemap, in the order they are written. */
  function Entries(cities: seq<string>, districts: seq<seq<string>>): seq<Url>
    requires |districts| == |cities|
  {
    Fixed + CityUrls(Order(cities), DistrictsByCity(cities, districts), Priority)
  }

  lemma RenderFixed(date: string)
    ensures Render(Fixed, date) == Block(Fixed[0], date) + Block(Fixed[1], date)
  {
    RenderOne(Fixed[0], date);
    RenderSnoc([Fixed[0]], Fixed[1], date);
    assert [Fixed[0]] + [Fixed[1]] == Fixed;
  }

  /** The two `sitemap +=` runs before the loops: the root's block, then the nearest-pharmacy page's. */
  method AppendFixedBlocks(start: string, date: string) returns (sitemap: string)
    ensures sitemap == start + Render(Fixed, date)
  {
    var root, near := Block(Fixed[0], date), Block(Fixed[1], date);
    sitemap := start + root;
    sitemap := sitemap + near;
    RenderFixed(date);
    AppendAssoc(start, root, near);
  }

  /** The script past its fetches, with the same inputs as the plain city sitemap. */
  method Generate(cities: seq<string>, districts: seq<seq<string>>, date: string) returns (sitemap: string)
    requires |districts| == |cities|
    ensures sitemap == Document(Entries(cities, districts), date)
  {
    var order, byCity := BuildDistrictsByCity(cities, districts);
    sitemap := Header;
    sitemap := AppendFixedBlocks(sitemap, date);
    sitemap := AppendCityBlocks(sitemap, order, byCity, Priority, date);
    AppendAssoc(Header, Render(Fixed, date), Render(CityUrls(order, byCity, Priority), date));
    RenderConcat(Fixed, CityUrls(order, byCity, Priority), date);
    sitemap := sitemap + Footer;
  }

  /** Two fixed blocks, then one per distinct city slug and one per district listed under it. */
  lemma EntriesCount(cities: seq<string>, districts: seq<seq<string>>)
    requires |districts| == |cities|
    ensures |Entries(cities, districts)|
            == 2 + |Order(cities)| + DistrictTotal(Order(cities), DistrictsByCity(cities, districts))
  {
    OrderFacts(cities, districts);
    CityUrlsCount(Order(cities), DistrictsByCity(cities, districts), Priority);
  }

  /** The root comes first with priority 1.0, the nearest-pharmacy page second with priority 0.5. */
  lemma EntriesStart(cities: seq<string>, districts: seq<seq<string>>)
    requires |districts| == |cities|
    ensures |Entries(cities, districts)| >= 2
    ensures Entries(cities, districts)[0] == Url(SiteBase, "1.0")
    ensures Entries(cities, districts)[1] == Url(SiteBase + "/enyakinnobetcieczane", "0.5")
  {
  }

  /** Every block after the two fixed ones has priority 0.5, and all of them lie in the protocol's range. */
  lemma EntriesPriority(cities: seq<string>, districts: seq<seq<string>>)
    requires |districts| == |cities|
    ensures forall k :: 2 <= k < |Entries(cities, districts)| ==> Entries(cities, districts)[k].priority == Priority
    ensures forall k :: 0 <= k < |Entries(cities, districts)| ==> ValidPriority(Entries(cities, districts)[k].priority)
  {
    var rest := CityUrls(Order(cities), DistrictsByCity(cities, districts), Priority);
    CityUrlsPriority(Order(cities), DistrictsByCity(cities, districts), Priority);
    PriorityTexts();
    assert forall k :: 2 <= k < |Entries(cities, districts)| ==> Entries(cities, districts)[k] == rest[k - 2];
  }
}
