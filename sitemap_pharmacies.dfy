/**
 * `scripts/sitemapGeneratorPharmacies.js`: one block per pharmacy on duty, in list order, at
 * `/eczaneler/` followed by a slug made of the pharmacy's name and id.
 */
module SitemapPharmacies {
  import opened Wrappers
  import opened Seqs
  import opened JsString
  import opened PharmacyModel
  import opened Sitemap

  const Priority: string := "0.5"

  /**
   * Why no sitemap is written: the list came back empty (the script throws its own error), or a
   * pharmacy's name is not a string (`undefined.split`, `null.split` or a number's missing `split`
   * throws a `TypeError`). Either is caught and logged.
   */
  datatype Failure = NoPharmacies | TypeError

  /** `name.split(" ").join("-")`: every space becomes a hyphen. */
  function NamePart(name: string): (r: string)
    ensures r == ReplaceChar(name, ' ', '-')
  {
    SplitJoinIsReplace(name, ' ', '-');
    Join(Split(name, ' '), '-')
  }

  /** `(name + "-" + id).toLocaleLowerCase("en-US")`; an absent id prints as "undefined". */
  function Slug(name: string, id: Option<JsonValue>): (r: string)
    ensures |r| == |name| + 1 + |Show(id)|
  {
    ToLowerCase(NamePart(name) + "-" + Show(id))
  }

  function PharmacyUrl(name: string, id: Option<JsonValue>): Url {
    Url(SiteBase + "/eczaneler/" + Slug(name, id), Priority)
  }

  predicate Named(ps: seq<DutyPharmacyModel>) {
    forall k :: 0 <= k < |ps| ==> Text(ps[k].name).Some?
  }

  lemma NamedSnoc(ps: seq<DutyPharmacyModel>, i: nat)
    requires i < |ps| && Named(ps[..i]) && Text(ps[i].name).Some?
    ensures Named(ps[..i + 1])
    ensures PharmacyUrls(ps[..i + 1]) == PharmacyUrls(ps[..i]) + [PharmacyUrl(Text(ps[i].name).value, ps[i].id)]
  {
    assert ps[..i + 1][..i] == ps[..i];
  }

  /** The page of each pharmacy, in list order. */
  function PharmacyUrls(ps: seq<DutyPharmacyModel>): (r: seq<Url>)
    requires Named(ps)
    ensures |r| == |ps|
    decreases |ps|
  {
    if ps == [] then []
    else
      var last := ps[|ps| - 1];
      PharmacyUrls(ps[..|ps| - 1]) + [PharmacyUrl(Text(last.name).value, last.id)]
  }

  /** Exactly one page per pharmacy, in list order. */
  lemma {:induction false} PharmacyUrlsAt(ps: seq<DutyPharmacyModel>, k: nat)
    requires Named(ps) && k < |ps|
    ensures PharmacyUrls(ps)[k] == PharmacyUrl(Text(ps[k].name).value, ps[k].id)
    decreases |ps|
  {
    if k < |ps| - 1 {
      var p := ps[..|ps| - 1];
      assert p[k] == ps[k];
      PharmacyUrlsAt(p, k);
    }
  }

  /** What the script produces for the list the service returned. */
  function PharmaciesSitemap(ps: seq<DutyPharmacyModel>, date: string): (r: Result<string, Failure>)
    ensures r == Err(NoPharmacies) <==> ps == []
    ensures r == Err(TypeError) <==> ps != [] && !Named(ps)
    ensures r.Ok? ==> Named(ps) && r.value == Document(PharmacyUrls(ps), date)
  {
    if ps == [] then Err(NoPharmacies)
    else if !Named(ps) then Err(TypeError)
    else Ok(Document(PharmacyUrls(ps), date))
  }

  /** A name sent as JSON `null`, as a number or as a boolean has no `split`: the script fails on it. */
  lemma NonTextNameFails(ps: seq<DutyPharmacyModel>, date: string, k: nat)
    requires k < |ps| && ps[k].name.Some? && !ps[k].name.value.JText?
    ensures PharmaciesSitemap(ps, date) == Err(TypeError)
  {
    assert Text(ps[k].name).None?;
  }

  /**
   * The `for … of` loop of `sitemap +=` after the header (`start`); `named` is false when it stopped at a
   * pharmacy whose name is not a string, where the script throws.
   */
  method AppendPharmacyBlocks(start: string, pharmacies: seq<DutyPharmacyModel>, date: string)
    returns (sitemap: string, named: bool)
    ensures named == Named(pharmacies)
    ensures named ==> sitemap == start + Render(PharmacyUrls(pharmacies), date)
  {
    sitemap := start;
    assert Blocks([], date) == [];
    for i := 0 to |pharmacies|
      invariant Named(pharmacies[..i])
      invariant sitemap == start + Render(PharmacyUrls(pharmacies[..i]), date)
    {
      var pharmacy := pharmacies[i];
      if Text(pharmacy.name).None? {
        assert !Named(pharmacies) by {
          assert Text(pharmacies[i].name).None?;
        }
        return sitemap, false;
      }
      var u := PharmacyUrl(Text(pharmacy.name).value, pharmacy.id);
      var done := PharmacyUrls(pharmacies[..i]);
      NamedSnoc(pharmacies, i);
      AppendBlock(start, done, u, date);
      sitemap := sitemap + Block(u, date);
    }
    assert pharmacies[..|pharmacies|] == pharmacies;
    named := true;
  }

  /** The script past its fetch: the emptiness check, the loop, then the footer. */
  method Generate(pharmacies: seq<DutyPharmacyModel>, date: string) returns (r: Result<string, Failure>)
    ensures r == PharmaciesSitemap(pharmacies, date)
  {
    if |pharmacies| == 0 {
      return Err(NoPharmacies);
    }
    var sitemap, named := AppendPharmacyBlocks(Header, pharmacies, date);
    if !named {
      return Err(TypeError);
    }
    r := Ok(sitemap + Footer);
  }

  /** The slug is the lower-cased name part, one hyphen and the lower-cased id. */
  lemma SlugParts(name: string, id: Option<JsonValue>)
    ensures Slug(name, id) == ToLowerCase(NamePart(name)) + "-" + ToLowerCase(Show(id))
  {
    LowerConcat(NamePart(name) + "-", Show(id));
    LowerConcat(NamePart(name), "-");
    assert ToLowerCase("-") == "-";
  }

  /**
   * The slug keeps every character of the name in place, a space becoming a hyphen and an ASCII
   * capital its small letter; then comes one hyphen and the lower-cased id. Nothing is trimmed.
   */
  lemma SlugLayout(name: string, id: Option<JsonValue>)
    ensures forall k :: 0 <= k < |name| ==> Slug(name, id)[k] == LowerChar(if name[k] == ' ' then '-' else name[k])
    ensures Slug(name, id)[|name|] == '-'
    ensures Slug(name, id)[|name| + 1..] == ToLowerCase(Show(id))
  {
    SlugParts(name, id);
    var a, b := ToLowerCase(NamePart(name)), ToLowerCase(Show(id));
    assert forall k :: 0 <= k < |a| ==> (a + "-" + b)[k] == a[k];
    assert (a + "-" + b)[|a| + 1..] == b;
  }

  /** The name part has one hyphen per space of the name, besides its own hyphens, and no space left. */
  lemma NamePartHyphens(name: string)
    ensures CountChar(NamePart(name), '-') == CountChar(name, ' ') + CountChar(name, '-')
    ensures ' ' !in NamePart(name)
  {
    CountAfterReplace(name, ' ', '-');
    CountCharZero(NamePart(name), ' ');
  }

  /** Letters outside ASCII, the Turkish ones among them, are kept as they are: nothing is folded. */
  lemma SlugKeepsNonAscii(name: string, id: Option<JsonValue>, k: nat)
    requires k < |name| && name[k] != ' ' && !IsAsciiUpper(name[k])
    ensures Slug(name, id)[k] == name[k]
  {
    SlugLayout(name, id);
  }

  /** The slug holds no ASCII capital. */
  lemma SlugIsLower(name: string, id: Option<JsonValue>)
    ensures forall k :: 0 <= k < |Slug(name, id)| ==> !IsAsciiUpper(Slug(name, id)[k])
  {
  }
}
