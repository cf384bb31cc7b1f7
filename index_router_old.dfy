/**
 * The helpers inside the older router, which keeps the fetched lists in cookie maps: the home loop
 * that fills the pharmacy map for the cities it lacks, the per-city counts shown on the home page,
 * and the first-match loops that resolve the district and city segments.
 */
module IndexRouterOld {
  import opened Wrappers
  import opened Seqs
  import opened SpreadCache
  import opened PlaceMatch

  /**
   * Where the home loop stands: the pharmacy map so far, the cities it has asked the service
   * about, and whether a call threw, which ends the loop.
   */
  datatype HomeState<V> = HomeState(cache: map<string, seq<V>>, asked: seq<string>, threw: bool)

  /** One turn: a city already in the map costs nothing; otherwise its list `?? []` is spread in. */
  function HomeStep<V>(s: HomeState<V>, city: string, fetch: string -> Reply<V>): HomeState<V> {
    if s.threw || city in s.cache then s
    else
      match fetch(city)
      case Threw => HomeState(s.cache, s.asked + [city], true)
      case Answered(result) => HomeState(Spread(Some(s.cache), city, result.GetOr([])), s.asked + [city], false)
  }

  /** The home loop over `cities`, defined the way the loop extends its prefix. */
  function HomeFill<V>(cached: map<string, seq<V>>, cities: seq<string>, fetch: string -> Reply<V>): HomeState<V>
    decreases |cities|
  {
    if cities == [] then HomeState(cached, [], false)
    else HomeStep(HomeFill(cached, cities[..|cities| - 1], fetch), cities[|cities| - 1], fetch)
  }

  lemma HomeFillSnoc<V>(cached: map<string, seq<V>>, p: seq<string>, city: string, fetch: string -> Reply<V>)
    ensures HomeFill(cached, p + [city], fetch) == HomeStep(HomeFill(cached, p, fetch), city, fetch)
  {
    assert (p + [city])[..|p|] == p;
  }

  /** After a call has thrown, the rest of the cities change nothing. */
  lemma {:induction false} HomeThrowSticks<V>(cached: map<string, seq<V>>, cities: seq<string>, k: nat,
                                             fetch: string -> Reply<V>)
    requires k <= |cities| && HomeFill(cached, cities[..k], fetch).threw
    ensures HomeFill(cached, cities, fetch) == HomeFill(cached, cities[..k], fetch)
    decreases |cities|
  {
    if k < |cities| {
      var p := cities[..|cities| - 1];
      assert p[..k] == cities[..k];
      HomeThrowSticks(cached, p, k, fetch);
    } else {
      assert cities[..k] == cities;
    }
  }

  /**
   * The `for` loop of the home route (the branch that runs, since a cookie object has no `length`).
   * A call that throws leaves the loop with the map as far as it got.
   */
  method FillHomeCache<V>(cities: seq<string>, cachedPharmacies: map<string, seq<V>>, fetch: string -> Reply<V>)
    returns (cached: map<string, seq<V>>, asked: seq<string>, threw: bool)
    ensures HomeState(cached, asked, threw) == HomeFill(cachedPharmacies, cities, fetch)
  {
    cached, asked, threw := cachedPharmacies, [], false;
    var index := 0;
    while index < |cities|
      invariant 0 <= index <= |cities|
      invariant !threw
      invariant HomeState(cached, asked, threw) == HomeFill(cachedPharmacies, cities[..index], fetch)
    {
      var city := cities[index];
      assert cities[..index + 1] == cities[..index] + [city];
      HomeFillSnoc(cachedPharmacies, cities[..index], city, fetch);
      if city !in cached {
        var reply := fetch(city);
        match reply {
          case Threw =>
            asked, threw := asked + [city], true;
            HomeThrowSticks(cachedPharmacies, cities, index + 1, fetch);
            break;
          case Answered(result) =>
            cached := Spread(Some(cached), city, result.GetOr([]));
            asked := asked + [city];
        }
      }
      index := index + 1;
    }
    if !threw {
      assert cities[..index] == cities;
    }
  }

  /** The test that makes the loop call the service: the city is not in the map it started from. */
  function Absent<V>(m: map<string, V>): string -> bool {
    c => c !in m
  }

  /** Entries already in the map are never replaced, and only cities missing from it are asked about. */
  lemma {:induction false} HomeFillKeeps<V>(cached: map<string, seq<V>>, cities: seq<string>, fetch: string -> Reply<V>)
    ensures forall k :: k in cached ==>
              k in HomeFill(cached, cities, fetch).cache && HomeFill(cached, cities, fetch).cache[k] == cached[k]
    ensures forall c :: c in HomeFill(cached, cities, fetch).asked ==> c in cities && c !in cached
    decreases |cities|
  {
    if cities != [] {
      var p := cities[..|cities| - 1];
      HomeFillKeeps(cached, p, fetch);
      assert cities == p + [cities[|cities| - 1]];
    }
  }

  /** When no call throws, every city ends up in the map. */
  lemma {:induction false} HomeFillKeys<V>(cached: map<string, seq<V>>, cities: seq<string>, fetch: string -> Reply<V>)
    requires !HomeFill(cached, cities, fetch).threw
    ensures HomeFill(cached, cities, fetch).cache.Keys == cached.Keys + (set c | c in cities)
    decreases |cities|
  {
    if cities != [] {
      var p, x := cities[..|cities| - 1], cities[|cities| - 1];
      assert cities == p + [x];
      assert (set c | c in cities) == (set c | c in p) + {x};
      var prev := HomeFill(cached, p, fetch);
      assert !prev.threw;
      HomeFillKeys(cached, p, fetch);
      assert HomeFill(cached, cities, fetch) == HomeStep(prev, x, fetch);
    }
  }

  /**
   * When no call throws, the service is asked about exactly the cities missing from the start map,
   * once each and in the order they first occur.
   */
  lemma {:induction false} HomeFillAsked<V>(cached: map<string, seq<V>>, cities: seq<string>, fetch: string -> Reply<V>)
    requires !HomeFill(cached, cities, fetch).threw
    ensures HomeFill(cached, cities, fetch).asked == Collect(cities, Absent(cached))
    decreases |cities|
  {
    if cities != [] {
      var p, x := cities[..|cities| - 1], cities[|cities| - 1];
      assert cities == p + [x];
      var prev := HomeFill(cached, p, fetch);
      assert HomeFill(cached, cities, fetch) == HomeStep(prev, x, fetch);
      assert !prev.threw;
      HomeFillAsked(cached, p, fetch);
      HomeFillKeys(cached, p, fetch);
      CollectSnoc(p, x, Absent(cached));
      CollectMember(p, Absent(cached), x);
      assert x in prev.cache <==> x in cached || x in Collect(p, Absent(cached));
    }
  }

  /** When no call throws, each city the service was asked about answered and holds its answer `?? []`. */
  lemma {:induction false} HomeFillAnswers<V>(cached: map<string, seq<V>>, cities: seq<string>, fetch: string -> Reply<V>)
    requires !HomeFill(cached, cities, fetch).threw
    ensures forall c :: c in HomeFill(cached, cities, fetch).asked ==>
              fetch(c).Answered? && c in HomeFill(cached, cities, fetch).cache
              && HomeFill(cached, cities, fetch).cache[c] == fetch(c).result.GetOr([])
    decreases |cities|
  {
    if cities != [] {
      var p, x := cities[..|cities| - 1], cities[|cities| - 1];
      var prev := HomeFill(cached, p, fetch);
      assert HomeFill(cached, cities, fetch) == HomeStep(prev, x, fetch);
      assert !prev.threw;
      HomeFillAnswers(cached, p, fetch);
    }
  }

  /** `pharmacyCountByCity`: each city's text with the length of its stored list, 0 when it has none. */
  function PharmacyCountByCity<V>(cities: seq<string>, cached: map<string, seq<V>>): (r: seq<(string, nat)>)
    ensures |r| == |cities|
    ensures forall i :: 0 <= i < |cities| ==> r[i].0 == cities[i]
    ensures forall i :: 0 <= i < |cities| ==> r[i].1 == if cities[i] in cached then |cached[cities[i]]| else 0
  {
    if cities == [] then []
    else [(cities[0], if cities[0] in cached then |cached[cities[0]]| else 0)] + PharmacyCountByCity(cities[1..], cached)
  }

  /**
   * After a home loop in which no call threw, a city's count is that of the list the map already held,
   * or of the list the service gave for it.
   */
  lemma CountsAfterFill<V>(cached: map<string, seq<V>>, cities: seq<string>, fetch: string -> Reply<V>, i: nat)
    requires !HomeFill(cached, cities, fetch).threw && i < |cities|
    ensures cities[i] in cached ==>
              PharmacyCountByCity(cities, HomeFill(cached, cities, fetch).cache)[i].1 == |cached[cities[i]]|
    ensures cities[i] !in cached ==>
              fetch(cities[i]).Answered?
              && PharmacyCountByCity(cities, HomeFill(cached, cities, fetch).cache)[i].1
                 == |fetch(cities[i]).result.GetOr([])|
  {
    HomeFillKeeps(cached, cities, fetch);
    HomeFillKeys(cached, cities, fetch);
    HomeFillAsked(cached, cities, fetch);
    HomeFillAnswers(cached, cities, fetch);
    if cities[i] !in cached {
      CollectMember(cities, Absent(cached), cities[i]);
    }
  }

  /**
   * The district page's two index loops: the district segment against the city's district texts,
   * then the city segment against the city texts; each shows the first match or the segment itself.
   * A service call that threw leaves the list empty, which shows the segment.
   */
  method DistrictPage(city: string, district: string, districts: seq<string>, cities: seq<string>)
    returns (shownCity: string, shownDistrict: string)
    ensures shownDistrict == Resolve(district, districts)
    ensures shownCity == Resolve(city, cities)
  {
    var currentDistrict := FindFirst(district, districts);
    var currentCity := FindFirst(city, cities);
    shownCity := currentCity.GetOr(city);
    shownDistrict := currentDistrict.GetOr(district);
  }

  /**
   * `${CookieNames[member]}` for the enum of `utils/cookieManage.js`, which declares only
   * `SELECTED_CITY` and `SELECTABLE_DISTRICTS`. Any other member is `undefined`, and Express names
   * the cookie "undefined".
   */
  function CookieName(member: string): (r: string)
    ensures r == "undefined" <==> member != "SELECTED_CITY" && member != "SELECTABLE_DISTRICTS"
  {
    if member == "SELECTED_CITY" then "selectedCity"
    else if member == "SELECTABLE_DISTRICTS" then "selectableDistricts"
    else "undefined"
  }

  /** `getCookie`: the request's cookie of that name, `undefined` when it has none. */
  function GetCookie<V>(jar: map<string, V>, name: string): Option<V> {
    if name in jar then Some(jar[name]) else None
  }

  /** `setCookie` when a read-through wrote a map; the browser keeps the last value sent under a name. */
  function SetCookie<V>(jar: map<string, V>, name: string, written: Option<V>): map<string, V> {
    if written.Some? then jar[name := written.value] else jar
  }

  /** What a city page uses after its read-throughs, and the cookies the browser keeps afterwards. */
  datatype Visit<V> = Visit(pharmacies: seq<V>, districts: seq<V>, jar: map<string, map<string, seq<V>>>)

  /**
   * The `try` block of the city page with the pharmacy map kept in the cookie `pharmaciesName` and the
   * district map in `districtsName`. Both cookies are read when the request arrives; a pharmacy call
   * that throws skips the district read-through and writes no cookie. Each miss that is answered sends
   * the cookie's map with the city's list added, the district map last.
   */
  function CityVisit<V>(jar: map<string, map<string, seq<V>>>, pharmaciesName: string, districtsName: string,
                        city: string, pharmacyReply: Reply<V>, districtReply: Reply<V>): (v: Visit<V>)
    ensures v.jar.Keys <= jar.Keys + {pharmaciesName, districtsName}
    ensures forall n :: n in jar && n != pharmaciesName && n != districtsName ==> n in v.jar && v.jar[n] == jar[n]
    ensures Hit(GetCookie(jar, pharmaciesName), city) ==> v.pharmacies == jar[pharmaciesName][city]
    ensures !Hit(GetCookie(jar, pharmaciesName), city) && pharmacyReply.Answered? ==>
              v.pharmacies == pharmacyReply.result.GetOr([])
    ensures Hit(GetCookie(jar, pharmaciesName), city) || pharmacyReply.Answered? ==>
              if Hit(GetCookie(jar, districtsName), city) then v.districts == jar[districtsName][city]
              else v.districts == (if districtReply.Answered? then districtReply.result.GetOr([]) else [])
    ensures !Hit(GetCookie(jar, pharmaciesName), city) && pharmacyReply.Threw? ==> v == Visit([], [], jar)
    ensures var p := ReadThrough(GetCookie(jar, pharmaciesName), city, pharmacyReply, true);
            var d := ReadThrough(GetCookie(jar, districtsName), city, districtReply, true);
            !p.threw ==> v.jar == SetCookie(SetCookie(jar, pharmaciesName, p.written), districtsName, d.written)
    ensures !Hit(GetCookie(jar, pharmaciesName), city) && pharmacyReply.Answered? && pharmaciesName != districtsName ==>
              pharmaciesName in v.jar && v.jar[pharmaciesName] == Spread(GetCookie(jar, pharmaciesName), city, v.pharmacies)
    ensures (Hit(GetCookie(jar, pharmaciesName), city) || pharmacyReply.Answered?)
            && !Hit(GetCookie(jar, districtsName), city) && districtReply.Answered? ==>
              districtsName in v.jar && v.jar[districtsName] == Spread(GetCookie(jar, districtsName), city, v.districts)
  {
    var p := ReadThrough(GetCookie(jar, pharmaciesName), city, pharmacyReply, true);
    var afterPharmacies := SetCookie(jar, pharmaciesName, p.written);
    if p.threw then Visit([], [], afterPharmacies)
    else
      var d := ReadThrough(GetCookie(jar, districtsName), city, districtReply, true);
      Visit(p.value.value, d.value.value, SetCookie(afterPharmacies, districtsName, d.written))
  }

  /**
   * With two cookies of their own, a second visit of a city finds both lists the first one fetched,
   * whatever the service would answer now.
   */
  lemma SeparateCookiesKeepLists<V>(jar: map<string, map<string, seq<V>>>, pharmaciesName: string,
                                    districtsName: string, city: string, pharmacies: Option<seq<V>>,
                                    districts: Option<seq<V>>, later1: Reply<V>, later2: Reply<V>)
    requires pharmaciesName != districtsName
    requires !Hit(GetCookie(jar, pharmaciesName), city) && !Hit(GetCookie(jar, districtsName), city)
    ensures var first := CityVisit(jar, pharmaciesName, districtsName, city, Answered(pharmacies), Answered(districts));
            var second := CityVisit(first.jar, pharmaciesName, districtsName, city, later1, later2);
            second.pharmacies == first.pharmacies == pharmacies.GetOr([])
            && second.districts == first.districts == districts.GetOr([])
  {
  }

  /**
   * As written, `CookieNames.PHARMACIES` and `CookieNames.DISTRICTS` are both the cookie "undefined":
   * the district map, sent last, replaces the pharmacy map, so the second visit of a city shows its
   * districts as its pharmacies.
   */
  lemma SharedCookieMixesLists<V>(jar: map<string, map<string, seq<V>>>, city: string, pharmacies: Option<seq<V>>,
                                  districts: Option<seq<V>>, later1: Reply<V>, later2: Reply<V>)
    requires !Hit(GetCookie(jar, CookieName("PHARMACIES")), city)
    ensures CookieName("PHARMACIES") == CookieName("DISTRICTS") == "undefined"
    ensures var first := CityVisit(jar, CookieName("PHARMACIES"), CookieName("DISTRICTS"), city,
                                   Answered(pharmacies), Answered(districts));
            var second := CityVisit(first.jar, CookieName("PHARMACIES"), CookieName("DISTRICTS"), city, later1, later2);
            second.pharmacies == second.districts == first.districts == districts.GetOr([])
  {
  }
}
