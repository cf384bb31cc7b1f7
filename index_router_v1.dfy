/**
 * The helpers inside the intermediate router: the fill loop of `_getPharmacies`, which splits one
 * list of all duty pharmacies by city into a cookie map and fetches the districts of each newly
 * filled city, and the district selection of `/onSelectCity`. Here `translateEnglish` is handed a
 * primitive string, whose characters it cannot overwrite, so it gives back the string unchanged and
 * both the grouping and the filter work on the raw city text.
 */
module IndexRouterV1 {
  import opened Wrappers
  import opened JsString
  import opened Seqs
  import opened SpreadCache
  import opened IndexRouter
  import opened PharmacyModel

  /** The filter's test: the pharmacy's city and the target, lower-cased and not folded, are equal. */
  function SameCity(city: string): PharmacyRef -> bool {
    (p: PharmacyRef) => Text(p.record.city).Some? && ToLowerCase(Text(p.record.city).value) == ToLowerCase(city)
  }

  /** A pharmacy whose city is not a string (`undefined`, `null`, a number, ...), on which `toLowerCase` throws. */
  predicate CityNotText(p: PharmacyRef) {
    Text(p.record.city).None?
  }

  predicate SomeCityNotText(all: seq<PharmacyRef>) {
    exists k :: 0 <= k < |all| && CityNotText(all[k])
  }

  /** The `dutyPharmacies.filter(...)` call: a `TypeError` as soon as a pharmacy's city is not a string. */
  function FilterByCity(all: seq<PharmacyRef>, city: string): (r: Result<seq<PharmacyRef>, Thrown>)
    ensures r.Err? <==> SomeCityNotText(all)
    ensures r.Ok? ==> r.value == Filter(all, SameCity(city))
  {
    if all == [] then Ok([])
    else if CityNotText(all[0]) then Err(TypeError)
    else
      match FilterByCity(all[1..], city)
      case Ok(rest) => Ok((if SameCity(city)(all[0]) then [all[0]] else []) + rest)
      case Err(e) => Err(e)
  }

  /** A pharmacy is kept exactly when its city equals the target up to ASCII case. */
  lemma FilterByCityKeeps(all: seq<PharmacyRef>, city: string, p: PharmacyRef)
    requires FilterByCity(all, city).Ok?
    ensures p in FilterByCity(all, city).value
            <==> p in all && ToLowerCase(Text(p.record.city).value) == ToLowerCase(city)
  {
    FilterMember(all, SameCity(city), p);
    if p in all {
      var k :| 0 <= k < |all| && all[k] == p;
      assert !CityNotText(all[k]);
    }
  }

  /** A city sent as JSON `null`, as a number or as a boolean has no `toLowerCase`: the filter throws on it. */
  lemma NonTextCityThrows(all: seq<PharmacyRef>, city: string, k: nat)
    requires k < |all| && all[k].record.city.Some? && !all[k].record.city.value.JText?
    ensures FilterByCity(all, city) == Err(TypeError)
  {
    assert CityNotText(all[k]);
    var r := FilterByCity(all, city);
    assert r.Err?;
    assert r.error.TypeError?;
  }

  /**
   * Where the fill loop stands: the pharmacy and district maps so far, the cities whose districts it
   * has fetched, and whether the filter threw, which leaves `_getPharmacies`.
   */
  datatype FillState = FillState(
    pharmacies: map<string, seq<PharmacyRef>>,
    districts: map<string, seq<string>>,
    asked: seq<string>,
    threw: bool)

  /**
   * One turn: a city already in the pharmacy map is skipped; otherwise the filter throws when a
   * pharmacy has no city, or else the city's filtered list is spread in, and its districts are fetched
   * and spread in unless the district map has them.
   */
  function FillStep(s: FillState, city: string, all: seq<PharmacyRef>, fetchDistricts: string -> seq<string>)
    : FillState
  {
    if s.threw || city in s.pharmacies then s
    else if SomeCityNotText(all) then s.(threw := true)
    else
      var pharmacies := s.pharmacies[city := Filter(all, SameCity(city))];
      if city in s.districts then FillState(pharmacies, s.districts, s.asked, false)
      else FillState(pharmacies, s.districts[city := fetchDistricts(city)], s.asked + [city], false)
  }

  function Fill(
    cachedPharmacies: map<string, seq<PharmacyRef>>, cachedDistricts: map<string, seq<string>>,
    cities: seq<string>, all: seq<PharmacyRef>, fetchDistricts: string -> seq<string>): FillState
    decreases |cities|
  {
    if cities == [] then FillState(cachedPharmacies, cachedDistricts, [], false)
    else
      FillStep(Fill(cachedPharmacies, cachedDistricts, cities[..|cities| - 1], all, fetchDistricts),
               cities[|cities| - 1], all, fetchDistricts)
  }

  lemma FillSnoc(
    cachedPharmacies: map<string, seq<PharmacyRef>>, cachedDistricts: map<string, seq<string>>,
    p: seq<string>, city: string, all: seq<PharmacyRef>, fetchDistricts: string -> seq<string>)
    ensures Fill(cachedPharmacies, cachedDistricts, p + [city], all, fetchDistricts)
            == FillStep(Fill(cachedPharmacies, cachedDistricts, p, all, fetchDistricts), city, all, fetchDistricts)
  {
    assert (p + [city])[..|p|] == p;
  }

  lemma {:induction false} FillThrowSticks(
    cachedPharmacies: map<string, seq<PharmacyRef>>, cachedDistricts: map<string, seq<string>>,
    cities: seq<string>, k: nat, all: seq<PharmacyRef>, fetchDistricts: string -> seq<string>)
    requires k <= |cities| && Fill(cachedPharmacies, cachedDistricts, cities[..k], all, fetchDistricts).threw
    ensures Fill(cachedPharmacies, cachedDistricts, cities, all, fetchDistricts)
            == Fill(cachedPharmacies, cachedDistricts, cities[..k], all, fetchDistricts)
    decreases |cities|
  {
    if k < |cities| {
      var p := cities[..|cities| - 1];
      assert p[..k] == cities[..k];
      FillThrowSticks(cachedPharmacies, cachedDistricts, p, k, all, fetchDistricts);
    } else {
      assert cities[..k] == cities;
    }
  }

  /**
   * The loop of `_getPharmacies` (the branch that runs, since a cookie object has no `length`), over
   * the list of all duty pharmacies fetched once before it.
   */
  method FillCaches(
    cities: seq<string>, all: seq<PharmacyRef>,
    cachedPharmacies: map<string, seq<PharmacyRef>>, cachedDistricts: map<string, seq<string>>,
    fetchDistricts: string -> seq<string>)
    returns (pharmacies: map<string, seq<PharmacyRef>>, districts: map<string, seq<string>>, asked: seq<string>,
             threw: bool)
    ensures FillState(pharmacies, districts, asked, threw)
            == Fill(cachedPharmacies, cachedDistricts, cities, all, fetchDistricts)
  {
    pharmacies, districts, asked, threw := cachedPharmacies, cachedDistricts, [], false;
    var index := 0;
    while index < |cities|
      invariant 0 <= index <= |cities|
      invariant !threw
      invariant FillState(pharmacies, districts, asked, threw)
                == Fill(cachedPharmacies, cachedDistricts, cities[..index], all, fetchDistricts)
    {
      var city := cities[index];
      assert cities[..index + 1] == cities[..index] + [city];
      FillSnoc(cachedPharmacies, cachedDistricts, cities[..index], city, all, fetchDistricts);
      index := index + 1;
      if city in pharmacies {
        continue;
      }
      var filtered := FilterByCity(all, city);
      if filtered.Err? {
        threw := true;
        FillThrowSticks(cachedPharmacies, cachedDistricts, cities, index, all, fetchDistricts);
        break;
      }
      pharmacies := Spread(Some(pharmacies), city, filtered.value);
      if city in districts {
        continue;
      }
      districts := Spread(Some(districts), city, fetchDistricts(city));
      asked := asked + [city];
    }
    if !threw {
      assert cities[..index] == cities;
    }
  }

  /**
   * When some pharmacy has no city, the filter throws on the first city the loop processes, before
   * either map has changed; when every city is already in the pharmacy map nothing happens at all.
   */
  lemma {:induction false} FillWithCityNotText(
    cachedPharmacies: map<string, seq<PharmacyRef>>, cachedDistricts: map<string, seq<string>>,
    cities: seq<string>, all: seq<PharmacyRef>, fetchDistricts: string -> seq<string>)
    requires SomeCityNotText(all)
    ensures Fill(cachedPharmacies, cachedDistricts, cities, all, fetchDistricts)
            == FillState(cachedPharmacies, cachedDistricts, [],
                         exists c :: c in cities && c !in cachedPharmacies)
    decreases |cities|
  {
    if cities != [] {
      var p, x := cities[..|cities| - 1], cities[|cities| - 1];
      assert cities == p + [x];
      FillWithCityNotText(cachedPharmacies, cachedDistricts, p, all, fetchDistricts);
    }
  }

  /** When every pharmacy has a city, nothing throws and every city ends up in the pharmacy map. */
  lemma {:induction false} FillWithTextCities(
    cachedPharmacies: map<string, seq<PharmacyRef>>, cachedDistricts: map<string, seq<string>>,
    cities: seq<string>, all: seq<PharmacyRef>, fetchDistricts: string -> seq<string>)
    requires !SomeCityNotText(all)
    ensures !Fill(cachedPharmacies, cachedDistricts, cities, all, fetchDistricts).threw
    ensures Fill(cachedPharmacies, cachedDistricts, cities, all, fetchDistricts).pharmacies.Keys
            == cachedPharmacies.Keys + (set c | c in cities)
    decreases |cities|
  {
    if cities != [] {
      var p, x := cities[..|cities| - 1], cities[|cities| - 1];
      assert cities == p + [x];
      assert (set c | c in cities) == (set c | c in p) + {x};
      var prev := Fill(cachedPharmacies, cachedDistricts, p, all, fetchDistricts);
      assert Fill(cachedPharmacies, cachedDistricts, cities, all, fetchDistricts) == FillStep(prev, x, all, fetchDistricts);
      FillWithTextCities(cachedPharmacies, cachedDistricts, p, all, fetchDistricts);
    }
  }

  /** Entries already in the pharmacy map are never replaced. */
  lemma {:induction false} FillKeepsPharmacies(
    cachedPharmacies: map<string, seq<PharmacyRef>>, cachedDistricts: map<string, seq<string>>,
    cities: seq<string>, all: seq<PharmacyRef>, fetchDistricts: string -> seq<string>)
    ensures var r := Fill(cachedPharmacies, cachedDistricts, cities, all, fetchDistricts);
            forall k :: k in cachedPharmacies ==> k in r.pharmacies && r.pharmacies[k] == cachedPharmacies[k]
    decreases |cities|
  {
    if cities != [] {
      var p, x := cities[..|cities| - 1], cities[|cities| - 1];
      assert cities == p + [x];
      var prev := Fill(cachedPharmacies, cachedDistricts, p, all, fetchDistricts);
      assert Fill(cachedPharmacies, cachedDistricts, cities, all, fetchDistricts) == FillStep(prev, x, all, fetchDistricts);
      FillKeepsPharmacies(cachedPharmacies, cachedDistricts, p, all, fetchDistricts);
    }
  }

  /** Entries already in the district map are never replaced. */
  lemma {:induction false} FillKeepsDistricts(
    cachedPharmacies: map<string, seq<PharmacyRef>>, cachedDistricts: map<string, seq<string>>,
    cities: seq<string>, all: seq<PharmacyRef>, fetchDistricts: string -> seq<string>)
    ensures var r := Fill(cachedPharmacies, cachedDistricts, cities, all, fetchDistricts);
            forall k :: k in cachedDistricts ==> k in r.districts && r.districts[k] == cachedDistricts[k]
    decreases |cities|
  {
    if cities != [] {
      var p, x := cities[..|cities| - 1], cities[|cities| - 1];
      assert cities == p + [x];
      var prev := Fill(cachedPharmacies, cachedDistricts, p, all, fetchDistricts);
      assert Fill(cachedPharmacies, cachedDistricts, cities, all, fetchDistricts) == FillStep(prev, x, all, fetchDistricts);
      FillKeepsDistricts(cachedPharmacies, cachedDistricts, p, all, fetchDistricts);
    }
  }

  /** Districts are fetched only for listed cities that were in neither map. */
  lemma {:induction false} FillAsksOnlyNew(
    cachedPharmacies: map<string, seq<PharmacyRef>>, cachedDistricts: map<string, seq<string>>,
    cities: seq<string>, all: seq<PharmacyRef>, fetchDistricts: string -> seq<string>)
    ensures var r := Fill(cachedPharmacies, cachedDistricts, cities, all, fetchDistricts);
            forall c :: c in r.asked ==> c in cities && c !in cachedPharmacies && c !in cachedDistricts
    decreases |cities|
  {
    if cities != [] {
      var p, x := cities[..|cities| - 1], cities[|cities| - 1];
      assert cities == p + [x];
      var prev := Fill(cachedPharmacies, cachedDistricts, p, all, fetchDistricts);
      assert Fill(cachedPharmacies, cachedDistricts, cities, all, fetchDistricts) == FillStep(prev, x, all, fetchDistricts);
      FillAsksOnlyNew(cachedPharmacies, cachedDistricts, p, all, fetchDistricts);
      FillKeepsPharmacies(cachedPharmacies, cachedDistricts, p, all, fetchDistricts);
      FillKeepsDistricts(cachedPharmacies, cachedDistricts, p, all, fetchDistricts);
    }
  }

  /** Each city new to the pharmacy map holds its filtered list. */
  lemma {:induction false} FillFiltered(
    cachedPharmacies: map<string, seq<PharmacyRef>>, cachedDistricts: map<string, seq<string>>,
    cities: seq<string>, all: seq<PharmacyRef>, fetchDistricts: string -> seq<string>)
    requires !SomeCityNotText(all)
    ensures var r := Fill(cachedPharmacies, cachedDistricts, cities, all, fetchDistricts);
            forall c :: c in r.pharmacies && c !in cachedPharmacies ==> r.pharmacies[c] == Filter(all, SameCity(c))
    decreases |cities|
  {
    if cities != [] {
      var p, x := cities[..|cities| - 1], cities[|cities| - 1];
      assert cities == p + [x];
      FillFiltered(cachedPharmacies, cachedDistricts, p, all, fetchDistricts);
    }
  }

  /** The test that makes the loop fetch a city's districts: it is in neither map it started from. */
  function InNeither(ph: map<string, seq<PharmacyRef>>, ds: map<string, seq<string>>): string -> bool {
    c => c !in ph && c !in ds
  }

  /**
   * When every pharmacy has a city, the districts are fetched for exactly the cities in neither map,
   * once each and in first-occurrence order.
   */
  lemma {:induction false} FillAsked(
    cachedPharmacies: map<string, seq<PharmacyRef>>, cachedDistricts: map<string, seq<string>>,
    cities: seq<string>, all: seq<PharmacyRef>, fetchDistricts: string -> seq<string>)
    requires !SomeCityNotText(all)
    ensures var r := Fill(cachedPharmacies, cachedDistricts, cities, all, fetchDistricts);
            r.asked == Collect(cities, InNeither(cachedPharmacies, cachedDistricts))
    decreases |cities|
  {
    if cities != [] {
      var p, x := cities[..|cities| - 1], cities[|cities| - 1];
      assert cities == p + [x];
      var prev := Fill(cachedPharmacies, cachedDistricts, p, all, fetchDistricts);
      assert Fill(cachedPharmacies, cachedDistricts, cities, all, fetchDistricts) == FillStep(prev, x, all, fetchDistricts);
      FillAsked(cachedPharmacies, cachedDistricts, p, all, fetchDistricts);
      FillWithTextCities(cachedPharmacies, cachedDistricts, p, all, fetchDistricts);
      FillDistrictKeys(cachedPharmacies, cachedDistricts, p, all, fetchDistricts);
      CollectSnoc(p, x, InNeither(cachedPharmacies, cachedDistricts));
      CollectMember(p, InNeither(cachedPharmacies, cachedDistricts), x);
    }
  }

  /**
   * When every pharmacy has a city, the district map gains exactly the cities fetched, and each of
   * those holds what the service gave.
   */
  lemma {:induction false} FillDistrictKeys(
    cachedPharmacies: map<string, seq<PharmacyRef>>, cachedDistricts: map<string, seq<string>>,
    cities: seq<string>, all: seq<PharmacyRef>, fetchDistricts: string -> seq<string>)
    requires !SomeCityNotText(all)
    ensures var r := Fill(cachedPharmacies, cachedDistricts, cities, all, fetchDistricts);
            r.districts.Keys == cachedDistricts.Keys + (set c | c in r.asked)
    ensures var r := Fill(cachedPharmacies, cachedDistricts, cities, all, fetchDistricts);
            forall c :: c in r.asked ==> r.districts[c] == fetchDistricts(c)
    decreases |cities|
  {
    if cities != [] {
      var p, x := cities[..|cities| - 1], cities[|cities| - 1];
      var prev := Fill(cachedPharmacies, cachedDistricts, p, all, fetchDistricts);
      assert Fill(cachedPharmacies, cachedDistricts, cities, all, fetchDistricts) == FillStep(prev, x, all, fetchDistricts);
      FillDistrictKeys(cachedPharmacies, cachedDistricts, p, all, fetchDistricts);
      assert (set c | c in prev.asked + [x]) == (set c | c in prev.asked) + {x};
    }
  }

  /**
   * `/onSelectCity` as written: on a miss the fetched list goes into a `const districts` declared in
   * the `else` block, so the cookie of selectable districts gets the outer, still empty, list. Gives
   * the selectable districts and the district map written, if any.
   */
  function SelectableDistrictsAsWritten(cached: Option<map<string, seq<string>>>, selected: string, reply: seq<string>)
    : (r: (seq<string>, Option<map<string, seq<string>>>))
    ensures Hit(cached, selected) ==> r.0 == cached.value[selected]
    ensures !Hit(cached, selected) ==> r.0 == []
    ensures r.1 == ReadThrough(cached, selected, Answered(Some(reply)), false).written
  {
    if Hit(cached, selected) then (cached.value[selected], None)
    else ([], Some(Spread(cached, selected, reply)))
  }

  /** The first selection of a city with districts offers none of them. */
  lemma FirstSelectionOffersNothing()
    ensures SelectableDistrictsAsWritten(None, "Adana", ["Seyhan", "Ceyhan"]).0 == []
  {
  }

  /**
   * `/onSelectCity` as intended: the fetched list is the one offered, as with its read-through in the
   * older router.
   */
  function SelectableDistricts(cached: Option<map<string, seq<string>>>, selected: string, reply: seq<string>)
    : (r: (seq<string>, Option<map<string, seq<string>>>))
    ensures r.0 == if Hit(cached, selected) then cached.value[selected] else reply
    ensures r.1 == ReadThrough(cached, selected, Answered(Some(reply)), false).written
  {
    var o := ReadThrough(cached, selected, Answered(Some(reply)), false);
    (o.value.value, o.written)
  }

  /**
   * The intended version offers the city's districts whether they were cached or fetched, writes the
   * same cookie as the code, and the next selection of the city offers the same list.
   */
  lemma SelectableDistrictsSettle(cached: Option<map<string, seq<string>>>, selected: string, reply: seq<string>,
                                  later: seq<string>)
    ensures SelectableDistricts(cached, selected, reply).1 == SelectableDistrictsAsWritten(cached, selected, reply).1
    ensures Hit(cached, selected) ==>
              SelectableDistricts(cached, selected, reply) == SelectableDistrictsAsWritten(cached, selected, reply)
    ensures var r := SelectableDistricts(cached, selected, reply);
            r.1.Some? ==> SelectableDistricts(r.1, selected, later).0 == r.0
  {
  }
}
