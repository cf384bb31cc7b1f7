/**
 * `scripts/sitemapGenerator.js`: a block for every city slug and, right after it, one for every
 * district slug of that city, each with the priority text "N/A".
 */
module SitemapGenerator {
  import opened Seqs
  import opened Sitemap
  import opened SitemapCities

  const Priority: string := "N/A"

  /** The pages of the sitemap, in the order they are written. */
  function Entries(cities: seq<string>, districts: seq<seq<string>>): seq<Url>
    requires |districts| == |cities|
  {
    CityUrls(Order(cities), DistrictsByCity(cities, districts), Priority)
  }

  /**
   * The script past its fetches: `cities` are the city slugs in the order the service lists them,
   * `districts[i]` the district slugs fetched for `cities[i]`, and `date` the day part of the
   * current ISO time.
   */
  method Generate(cities: seq<string>, districts: seq<seq<string>>, date: string) returns (sitemap: string)
    requires |districts| == |cities|
    ensures sitemap == Document(Entries(cities, districts), date)
  {
    var order, byCity := BuildDistrictsByCity(cities, districts);
    sitemap := Header;
    sitemap := AppendCityBlocks(sitemap, order, byCity, Priority, date);
    sitemap := sitemap + Footer;
  }

  /** One block per distinct city slug plus one per district listed under it. */
  lemma EntriesCount(cities: seq<string>, districts: seq<seq<string>>)
    requires |districts| == |cities|
    ensures |Entries(cities, districts)|
            == |Order(cities)| + DistrictTotal(Order(cities), DistrictsByCity(cities, districts))
  {
    OrderFacts(cities, districts);
    CityUrlsCount(Order(cities), DistrictsByCity(cities, districts), Priority);
  }

  /** Every block carries the priority "N/A", which lies outside the protocol's range. */
  lemma EntriesPriority(cities: seq<string>, districts: seq<seq<string>>)
    requires |districts| == |cities|
    ensures forall k :: 0 <= k < |Entries(cities, districts)| ==>
              Entries(cities, districts)[k].priority == Priority && !ValidPriority(Entries(cities, districts)[k].priority)
  {
    OrderFacts(cities, districts);
    CityUrlsPriority(Order(cities), DistrictsByCity(cities, districts), Priority);
    PriorityTexts();
  }
}
