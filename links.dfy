/**
 * Resolving an href against the page it was found on. Both iterations of the
 * crawler carry the same parseURL, so it is defined once here.
 */
module Links {
  import opened GoStrings

  /** The page URL with at most one trailing "/" removed. */
  function Base(url: string): (base: string)
    ensures url == base || url == base + "/"
    ensures HasSuffix(url, "/") ==> url == base + "/"
  {
    TrimSuffix(url, "/")
  }

  /**
   * parseURL: a link that already contains the base is kept as it is, a link
   * that starts with "/" is appended to the base, anything else is refused ("").
   */
  function ParseURL(url: string, link: string): (r: string)
    ensures r == link || r == Base(url) + link || r == ""
  {
    var base := Base(url);
    if Contains(link, base) then link
    else if HasPrefix(link, "/") then base + link
    else ""
  }

  /** The three-way rule of parseURL, in terms of where the base occurs in the link. */
  lemma ParseURLRule(url: string, link: string)
    ensures (exists i :: OccursAt(link, Base(url), i)) ==> ParseURL(url, link) == link
    ensures (!exists i :: OccursAt(link, Base(url), i)) && |link| > 0 && link[0] == '/' ==>
      ParseURL(url, link) == Base(url) + link
    ensures (!exists i :: OccursAt(link, Base(url), i)) && (|link| == 0 || link[0] != '/') ==>
      ParseURL(url, link) == ""
  {
    ContainsIffOccurs(link, Base(url));
  }

  /** Whatever parseURL accepts contains the base: links are anchored to the page's site. */
  lemma ParseURLAnchored(url: string, link: string)
    ensures ParseURL(url, link) != "" ==> exists i :: OccursAt(ParseURL(url, link), Base(url), i)
  {
    var base := Base(url);
    var r := ParseURL(url, link);
    if r != "" {
      if Contains(link, base) {
        ContainsIffOccurs(link, base);
      } else {
        assert r == base + link;
        assert r[0..|base|] == base;
        assert OccursAt(r, base, 0);
      }
    }
  }

  /** Resolving an accepted link a second time leaves it as it is. */
  lemma ParseURLIdempotent(url: string, link: string)
    ensures ParseURL(url, link) != "" ==> ParseURL(url, ParseURL(url, link)) == ParseURL(url, link)
  {
  }

  /** With an empty base ("" or "/") every link is kept unchanged. */
  lemma ParseURLEmptyBase(url: string, link: string)
    requires url == "" || url == "/"
    ensures ParseURL(url, link) == link
  {
  }
}
