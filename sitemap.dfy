/**
 * The text the three sitemap scripts assemble, following version 0.9 of the sitemaps.org protocol:
 * a fixed XML declaration and `<urlset>` opening, one `<url>` block per page, and the closing tag.
 * Every block carries the same `lastmod` date and the change frequency "always".
 */
module Sitemap {
  import opened Seqs

  const Header: string :=
    "<?xml version=\"1.0\" encoding=\"utf-8\" standalone=\"yes\" ?>"
    + "\n<urlset xmlns=\"http://www.sitemaps.org/schemas/sitemap/0.9\">"

  const Footer: string := "\n</urlset>"

  const SiteBase: string := "https://www.turkiyenobetcieczane.com"

  /** One page: its location and the priority text written for it. */
  datatype Url = Url(loc: string, priority: string)

  /** The text before the location inside a block. */
  const LocOpen: string := "\n\t<url>\n\t\t<loc>"

  /** One `<url>` block; the location is inserted as it is, with no XML escaping. */
  function Block(u: Url, date: string): string {
    LocOpen + u.loc + "</loc>"
    + "\n\t\t<lastmod>" + date + "</lastmod>"
    + "\n\t\t<changefreq>always</changefreq>"
    + "\n\t\t<priority>" + u.priority + "</priority>"
    + "\n\t</url>"
  }

  /** Strings joined end to end; defined the way `+=` extends the text. */
  function Concat(parts: seq<string>): string
    decreases |parts|
  {
    if parts == [] then [] else Concat(parts[..|parts| - 1]) + parts[|parts| - 1]
  }

  lemma ConcatSnoc(parts: seq<string>, x: string)
    ensures Concat(parts + [x]) == Concat(parts) + x
  {
    assert (parts + [x])[..|parts|] == parts;
  }

  lemma {:induction false} ConcatAppend(a: seq<string>, b: seq<string>)
    ensures Concat(a + b) == Concat(a) + Concat(b)
    decreases |b|
  {
    if b == [] {
      assert a + b == a;
    } else {
      var p, x := b[..|b| - 1], b[|b| - 1];
      assert b == p + [x];
      assert a + b == (a + p) + [x];
      ConcatAppend(a, p);
      ConcatSnoc(a + p, x);
      ConcatSnoc(p, x);
      AppendAssoc(Concat(a), Concat(p), x);
    }
  }

  /** The block of each page, in order, all with the same date. */
  function Blocks(urls: seq<Url>, date: string): (r: seq<string>)
    ensures |r| == |urls|
    ensures forall k :: 0 <= k < |urls| ==> r[k] == Block(urls[k], date)
  {
    seq(|urls|, k requires 0 <= k < |urls| => Block(urls[k], date))
  }

  /** What the `sitemap +=` loops add for `urls`. */
  function Render(urls: seq<Url>, date: string): string {
    Concat(Blocks(urls, date))
  }

  /** A whole sitemap: the header, the blocks and the footer. */
  function Document(urls: seq<Url>, date: string): (r: string)
    ensures |r| >= |Header| + |Footer|
    ensures r[..|Header|] == Header
    ensures r[|r| - |Footer|..] == Footer
  {
    Framed(Header, Render(urls, date), Footer);
    Header + Render(urls, date) + Footer
  }

  lemma RenderSnoc(urls: seq<Url>, u: Url, date: string)
    ensures Render(urls + [u], date) == Render(urls, date) + Block(u, date)
  {
    assert Blocks(urls + [u], date) == Blocks(urls, date) + [Block(u, date)];
    ConcatSnoc(Blocks(urls, date), Block(u, date));
  }

  /** A single page renders as its block. */
  lemma RenderOne(u: Url, date: string)
    ensures Render([u], date) == Block(u, date)
  {
    assert Blocks([u], date) == [Block(u, date)];
    assert Concat([Block(u, date)]) == Concat([]) + Block(u, date);
  }

  lemma AppendAssoc(a: string, b: string, c: string)
    ensures a + b + c == a + (b + c)
  {
  }

  /** One `sitemap += …` step: appending a page's block to the text rendered so far. */
  lemma AppendBlock(prefix: string, urls: seq<Url>, u: Url, date: string)
    ensures prefix + Render(urls, date) + Block(u, date) == prefix + Render(urls + [u], date)
  {
    RenderSnoc(urls, u, date);
    AppendAssoc(prefix, Render(urls, date), Block(u, date));
  }

  /** Rendering a concatenation renders each part. */
  lemma RenderConcat(a: seq<Url>, b: seq<Url>, date: string)
    ensures Render(a + b, date) == Render(a, date) + Render(b, date)
  {
    assert Blocks(a + b, date) == Blocks(a, date) + Blocks(b, date);
    ConcatAppend(Blocks(a, date), Blocks(b, date));
  }

  /**
   * Block `i` of the text is exactly the block of `urls[i]`, with the blocks of the earlier pages
   * before it and those of the later pages after it.
   */
  lemma RenderAt(urls: seq<Url>, i: nat, date: string)
    requires i < |urls|
    ensures Render(urls, date)
            == Render(urls[..i], date) + Block(urls[i], date) + Render(urls[i + 1..], date)
  {
    assert urls == urls[..i] + [urls[i]] + urls[i + 1..];
    RenderConcat(urls[..i] + [urls[i]], urls[i + 1..], date);
    RenderSnoc(urls[..i], urls[i], date);
  }

  /** The location appears in its block verbatim, right after the opening `<loc>`. */
  lemma BlockHoldsLoc(u: Url, date: string)
    ensures Block(u, date)[|LocOpen|..|LocOpen| + |u.loc|] == u.loc
  {
    var b := Block(u, date);
    assert b == LocOpen + u.loc + b[|LocOpen| + |u.loc|..];
  }

  /** A priority in the protocol's range 0.0 to 1.0, written with one decimal. */
  predicate ValidPriority(p: string) {
    |p| == 3 && p[1] == '.' && '0' <= p[2] <= '9' && (p[0] == '0' || (p[0] == '1' && p[2] == '0'))
  }

  /** The priorities the scripts write: "1.0" and "0.5" lie in the range, "N/A" does not. */
  lemma PriorityTexts()
    ensures ValidPriority("1.0") && ValidPriority("0.5")
    ensures !ValidPriority("N/A")
  {
  }
}
