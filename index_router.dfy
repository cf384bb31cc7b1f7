/**
 * The helpers inside the current router: grouping the duty pharmacies by city, the middlewares that
 * send a 301 to the lower-case URL, the capitalisation of the city segment and the lookup of that
 * segment among the cities the service knows.
 */
module IndexRouter {
  import opened Wrappers
  import opened JsString
  import opened Seqs
  import opened TranslateEnglish
  import opened EqualsTool
  import opened PharmacyModel
  import opened PlaceMatch

  /**
   * A pharmacy object. Two objects built from the same JSON are still two objects: `address` is the
   * identity `Array.prototype.includes` compares, `record` the fields.
   */
  datatype PharmacyRef = PharmacyRef(address: nat, record: DutyPharmacyModel)

  /** `result[pharmacy.city]` selects the property named by the city's text, "undefined" when absent. */
  function CityKey(p: PharmacyRef): string {
    Show(p.record.city)
  }

  /** The test that puts a pharmacy into the group of city `c`. */
  function HasCity(c: string): PharmacyRef -> bool {
    p => CityKey(p) == c
  }

  function CityKeys(pharmacies: seq<PharmacyRef>): set<string> {
    set p | p in pharmacies :: CityKey(p)
  }

  /** The grouping: every city that occurs, with its pharmacies in input order and without repeats. */
  function ByCity(pharmacies: seq<PharmacyRef>): map<string, seq<PharmacyRef>> {
    map c | c in CityKeys(pharmacies) :: Collect(pharmacies, HasCity(c))
  }

  /**
   * `_getPharmaciesByCities`: creates a city's group on its first pharmacy and pushes each pharmacy
   * its group does not already include.
   */
  method GetPharmaciesByCities(pharmacies: seq<PharmacyRef>) returns (result: map<string, seq<PharmacyRef>>)
    ensures result == ByCity(pharmacies)
  {
    result := map[];
    var index := 0;
    while index < |pharmacies|
      invariant 0 <= index <= |pharmacies|
      invariant result.Keys == CityKeys(pharmacies[..index])
      invariant forall c :: c in result ==> result[c] == Collect(pharmacies[..index], HasCity(c))
    {
      var pharmacy := pharmacies[index];
      var city := CityKey(pharmacy);
      var prefix := pharmacies[..index];
      assert pharmacies[..index + 1] == prefix + [pharmacy];
      if city !in result {
        NoneCollected(prefix, city);
        result := result[city := []];
      }
      if pharmacy !in result[city] {
        result := result[city := result[city] + [pharmacy]];
      }
      forall c | c in result
        ensures result[c] == Collect(prefix + [pharmacy], HasCity(c))
      {
        CollectSnoc(prefix, pharmacy, HasCity(c));
      }
      index := index + 1;
    }
    assert pharmacies[..index] == pharmacies;
  }

  /** Before a city's first pharmacy its group would be empty. */
  lemma NoneCollected(prefix: seq<PharmacyRef>, city: string)
    requires city !in CityKeys(prefix)
    ensures Collect(prefix, HasCity(city)) == []
  {
    assert forall p :: p in prefix ==> CityKey(p) in CityKeys(prefix);
    CollectNone(prefix, HasCity(city));
  }

  lemma ByCityOfNothing()
    ensures ByCity([]) == map[]
  {
  }

  /**
   * The groups partition the input: every pharmacy's city is a key, and a group holds exactly the
   * pharmacies of its city.
   */
  lemma ByCityPartition(pharmacies: seq<PharmacyRef>, p: PharmacyRef, c: string)
    ensures p in pharmacies ==> CityKey(p) in ByCity(pharmacies)
    ensures c in ByCity(pharmacies) ==> (p in ByCity(pharmacies)[c] <==> p in pharmacies && CityKey(p) == c)
  {
    CollectMember(pharmacies, HasCity(c), p);
  }

  /** No group is empty. */
  lemma ByCityGroupsNonEmpty(pharmacies: seq<PharmacyRef>, c: string)
    requires c in ByCity(pharmacies)
    ensures ByCity(pharmacies)[c] != []
  {
    var p :| p in pharmacies && CityKey(p) == c;
    CollectMember(pharmacies, HasCity(c), p);
  }

  /** No group holds the same object twice, and a group lists its objects in input order. */
  lemma ByCityGroupsOrdered(pharmacies: seq<PharmacyRef>, c: string)
    requires c in ByCity(pharmacies)
    ensures Distinct(ByCity(pharmacies)[c])
    ensures forall i, j :: 0 <= i < j < |ByCity(pharmacies)[c]| ==>
              Precedes(pharmacies, ByCity(pharmacies)[c][i], ByCity(pharmacies)[c][j])
  {
    CollectDistinct(pharmacies, HasCity(c));
    CollectOrder(pharmacies, HasCity(c));
  }

  /** `includes` compares objects, not ids: two objects with the same fields are both kept. */
  lemma EqualRecordsBothKept(record: DutyPharmacyModel, a: nat, b: nat)
    requires a != b
    ensures var groups := ByCity([PharmacyRef(a, record), PharmacyRef(b, record)]);
            Show(record.city) in groups && groups[Show(record.city)] == [PharmacyRef(a, record), PharmacyRef(b, record)]
  {
    var x, y := PharmacyRef(a, record), PharmacyRef(b, record);
    var keep := HasCity(Show(record.city));
    CollectSnoc([], x, keep);
    assert [] + [x] == [x];
    CollectSnoc([x], y, keep);
    assert [x] + [y] == [x, y];
    assert CityKey(x) in CityKeys([x, y]);
  }

  /** The same object listed twice is pushed once. */
  lemma RepeatedObjectKeptOnce(p: PharmacyRef)
    ensures CityKey(p) in ByCity([p, p]) && ByCity([p, p])[CityKey(p)] == [p]
  {
    var keep := HasCity(CityKey(p));
    CollectSnoc([], p, keep);
    assert [] + [p] == [p];
    CollectSnoc([p], p, keep);
    assert [p] + [p] == [p, p];
    assert CityKey(p) in CityKeys([p, p]);
  }

  /** Where a canonicalising middleware sends the request, and whether it answers with a 301. */
  datatype Decision = Decision(url: string, redirect: bool)

  const PagePath: string := "/nobetcieczane/"

  /** The city middleware, given the folded `city` parameter. */
  function CityDecision(city: string): Decision {
    Decision(PagePath + ToLowerCase(city), city != ToLowerCase(city))
  }

  /** The district middleware, given the folded parameters; an empty district adds no segment. */
  function DistrictDecision(city: string, district: string): Decision {
    Decision(
      PagePath + ToLowerCase(city) + (if district != [] then "/" + ToLowerCase(district) else ""),
      city != ToLowerCase(city) || district != ToLowerCase(district))
  }

  /**
   * The middleware of `/nobetcieczane/:city`: translates the parameters in place, so the handler
   * after it reads the folded city, and decides on the folded `city`.
   */
  method CityMiddleware(params: Params) returns (d: Decision)
    requires "city" in params.fields
    modifies params
    ensures params.fields == FoldFields(old(params.fields))
    ensures d == CityDecision(Fold(old(params.fields)["city"]))
  {
    var translated := TranslateEnglish.TranslateEnglish(params);
    var city := translated.fields["city"];
    d := CityDecision(city);
  }

  /** The middleware of `/nobetcieczane/:city/:district`. */
  method DistrictMiddleware(params: Params) returns (d: Decision)
    requires "city" in params.fields && "district" in params.fields
    modifies params
    ensures params.fields == FoldFields(old(params.fields))
    ensures d == DistrictDecision(Fold(old(params.fields)["city"]), Fold(old(params.fields)["district"]))
  {
    var translated := TranslateEnglish.TranslateEnglish(params);
    d := DistrictDecision(translated.fields["city"], translated.fields["district"]);
  }

  /** A capital letter, ASCII or Turkish, somewhere in `s`. */
  predicate HasCapital(s: string) {
    exists k :: 0 <= k < |s| && !NotCapital(s[k])
  }

  lemma FoldCharCapital(c: char)
    ensures IsAsciiUpper(FoldChar(c)) <==> !NotCapital(c)
  {
  }

  /** Without a combining dot, the folded form has an ASCII capital exactly where the raw one has a capital. */
  lemma FoldedHasUpperIff(raw: string)
    requires Dot !in raw
    ensures ToLowerCase(Fold(raw)) != Fold(raw) <==> HasCapital(raw)
  {
    FoldWithoutDot(raw);
    var f := Fold(raw);
    LowerFixedIff(f);
    forall k | 0 <= k < |raw|
      ensures IsAsciiUpper(f[k]) <==> !NotCapital(raw[k])
    {
      FoldCharCapital(raw[k]);
    }
  }

  /** A dot-free city segment is redirected exactly when it holds a capital letter. */
  lemma CityRedirectIff(raw: string)
    requires Dot !in raw
    ensures CityDecision(Fold(raw)).redirect <==> HasCapital(raw)
    ensures CityDecision(Fold(raw)).url == PagePath + MatchKey(raw)
  {
    FoldedHasUpperIff(raw);
  }

  /** Dot-free segments: a 301 is sent exactly when the city or the district holds a capital. */
  lemma DistrictRedirectIff(city: string, district: string)
    requires Dot !in city && Dot !in district
    ensures DistrictDecision(Fold(city), Fold(district)).redirect <==> HasCapital(city) || HasCapital(district)
  {
    FoldedHasUpperIff(city);
    FoldedHasUpperIff(district);
  }

  /** The folded key of any segment has no capital, so its own fold is lower case. */
  lemma KeyFoldsLower(raw: string)
    ensures ToLowerCase(Fold(MatchKey(raw))) == Fold(MatchKey(raw))
  {
    var m := MatchKey(raw);
    MatchKeyIsCanonical(raw);
    assert forall k :: 0 <= k < |m| ==> NotCapital(m[k]);
    FoldAddsNoCapital(m);
    LowerFixedIff(Fold(m));
  }

  /** Following the URL a middleware builds never leads to a second 301, whatever the segment. */
  lemma CanonicalNotRedirected(city: string, district: string)
    ensures !CityDecision(Fold(MatchKey(city))).redirect
    ensures !DistrictDecision(Fold(MatchKey(city)), Fold(MatchKey(district))).redirect
  {
    KeyFoldsLower(city);
    KeyFoldsLower(district);
  }

  /** Without a combining dot the key is its own fold. */
  lemma KeyIsFixed(raw: string)
    requires Dot !in raw
    ensures Dot !in MatchKey(raw) && Fold(MatchKey(raw)) == MatchKey(raw)
  {
    MatchKeyWithoutDot(raw);
    var m := MatchKey(raw);
    assert forall k :: 0 <= k < |m| ==> m[k] != Dot;
    FoldWithoutDot(m);
    assert forall k :: 0 <= k < |m| ==> FoldChar(m[k]) == m[k];
  }

  /** For a dot-free segment, the canonical URL decides on itself: same URL, no redirect. */
  lemma CanonicalIsFixedPoint(raw: string)
    requires Dot !in raw
    ensures CityDecision(Fold(MatchKey(raw))) == Decision(CityDecision(Fold(raw)).url, false)
  {
    KeyIsFixed(raw);
    KeyFoldsLower(raw);
  }

  /** What the handlers' `try` blocks throw. */
  datatype Thrown = TypeError

  /** `city[0].toLocaleUpperCase() + city.slice(1)`; `""[0]` is `undefined`, which has no methods. */
  function Capitalize(city: string): (r: Result<string, Thrown>)
    ensures r.Err? <==> city == []
    ensures r.Ok? ==> |r.value| == |city| && r.value[0] == UpperChar(city[0]) && r.value[1..] == city[1..]
  {
    if city == [] then Err(TypeError) else Ok([UpperChar(city[0])] + city[1..])
  }

  lemma CharKeyOfUpper(c: char)
    ensures CharKey(UpperChar(c)) == CharKey(c)
  {
  }

  /** Capitalising a dot-free city never changes which names it matches. */
  lemma CapitalizeKeepsKey(city: string)
    requires city != [] && Dot !in city
    ensures MatchKey(Capitalize(city).value) == MatchKey(city)
  {
    var c := Capitalize(city).value;
    assert c == [UpperChar(city[0])] + city[1..];
    assert Dot !in c by {
      assert forall k :: 1 <= k < |c| ==> c[k] == city[k];
    }
    CharKeyOfUpper(city[0]);
    MatchKeyIff(c, city);
  }

  /** The city the handler compares: capitalised, or left as it was when capitalising throws. */
  function HandlerCity(city: string): string {
    match Capitalize(city)
    case Ok(c) => c
    case Err(_) => city
  }

  /** The cities the handler has when it matches: none when the `try` block threw first. */
  function CitiesSeen(city: string, fetched: Option<seq<string>>): seq<string> {
    if Capitalize(city).Ok? && fetched.Some? then fetched.value else []
  }

  /**
   * The `/nobetcieczane/:city` handler's shown city: `cities.find(...)` outside the `try`, so an
   * unmatched segment throws when `.cities` is read from `undefined`. `fetched` is `None` when one of
   * the service calls threw.
   */
  function CityPage(city: string, fetched: Option<seq<string>>): (r: Result<string, Thrown>)
    ensures r.Ok? <==> FirstMatch(HandlerCity(city), CitiesSeen(city, fetched)).Some?
    ensures r.Ok? ==> r.value == Resolve(HandlerCity(city), CitiesSeen(city, fetched))
  {
    var cities := CitiesSeen(city, fetched);
    match FirstMatch(HandlerCity(city), cities)
    case Some(i) => Ok(cities[i])
    case None => Err(TypeError)
  }

  /**
   * The page renders only when the segment is a non-empty name the service returned, up to folding
   * and case; it then shows the first such name.
   */
  lemma CityPageRenders(city: string, cities: seq<string>, i: nat)
    requires Dot !in city && city != []
    requires i < |cities| && MatchKey(cities[i]) == MatchKey(city)
    requires forall j :: 0 <= j < i ==> MatchKey(cities[j]) != MatchKey(city)
    ensures CityPage(city, Some(cities)) == Ok(cities[i])
  {
    CapitalizeKeepsKey(city);
    ResolveFindsFirst(HandlerCity(city), cities, i);
  }

  lemma CityPageThrows(city: string, fetched: Option<seq<string>>)
    requires city == [] || fetched.None?
    ensures CityPage(city, fetched) == Err(TypeError)
  {
  }

  /** Whatever the shown city is, it matches the segment. */
  lemma ShownCityMatches(city: string, cities: seq<string>)
    requires Dot !in city
    ensures MatchKey(Resolve(HandlerCity(city), cities)) == MatchKey(city)
  {
    ResolveKeepsKey(HandlerCity(city), cities);
    if city != [] {
      CapitalizeKeepsKey(city);
    }
  }

  /**
   * With a combining dot after a lower-case `i` the capitalised city keeps a dot that the segment's
   * fold drops, so with no cities to match the shown city does not match the segment.
   */
  lemma DottedCityMissesSegment()
    ensures MatchKey(Resolve(HandlerCity(['i', Dot, 'x']), [])) != MatchKey(['i', Dot, 'x'])
  {
    var seg, shown := ['i', Dot, 'x'], ['I', Dot, 'x'];
    assert HandlerCity(seg) == shown;
    assert Resolve(shown, []) == shown;
    DottedCaseFoldsBeforeX();
    assert |MatchKey(shown)| == 3;
    assert |MatchKey(seg)| <= 2;
  }

  /**
   * The `/nobetcieczane/:city/:district` handler's shown names: the city found by the index loop, or
   * the handler's city; the district exactly as given, since nothing assigns `currentDistrict`.
   */
  method DistrictPage(city: string, district: string, fetched: Option<seq<string>>)
    returns (shownCity: string, shownDistrict: string)
    ensures shownCity == Resolve(HandlerCity(city), CitiesSeen(city, fetched))
    ensures shownDistrict == district
  {
    var current: Option<string> := None;
    var name := city;
    var cities: seq<string> := [];
    match Capitalize(city) {
      case Ok(c) =>
        name := c;
        if fetched.Some? {
          cities := fetched.value;
        }
      case Err(_) =>
    }
    current := FindFirst(name, cities);
    shownCity := current.GetOr(name);
    shownDistrict := district;
  }
}
