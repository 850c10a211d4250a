/**
 * A worked page: what the engine sends for one concrete seed page. The strings
 * enter as parameters fixed by the requires clauses, which keeps the verifier
 * from unfolding the string scans on literals.
 */
module Scenario {
  import opened GoStrings
  import opened Web
  import opened Links
  import opened Crawl
  import LegacyCrawl

  /** An <a> start tag with a single href. */
  function Anchor(href: string): Token {
    Token(StartTagToken, "a", [Attribute("href", href)])
  }

  /** A relative path is appended to the base. */
  lemma RelativeLinkResolved(page: string, rel: string)
    requires page == "http://x/" && rel == "/a"
    ensures HrefLink(Anchor(rel).attrs, page) == "http://x/a"
  {
    assert Base(page) == "http://x";
    MissingCharNotContained(rel, "http://x", 0);
    MissingCharNotContained(rel, ".pdf", 0);
  }

  /** An absolute link on the same site is kept as it is. */
  lemma AbsoluteLinkKept(page: string, abs: string)
    requires page == "http://x/" && abs == "http://x/a"
    ensures HrefLink(Anchor(abs).attrs, page) == abs
  {
    assert Base(page) == "http://x";
    MissingCharNotContained(abs, ".pdf", 0);
    assert HasPrefix(abs, "http://x");
  }

  /** A .pdf link is on the denylist. */
  lemma PdfLinkRefused(page: string, pdf: string)
    requires pdf == "b.pdf"
    ensures HrefLink(Anchor(pdf).attrs, page) == ""
  {
    assert Contains(pdf, ".pdf") by {
      assert pdf[1..] == ".pdf";
    }
  }

  /** A link to another site passes the denylist but is refused by parseURL. */
  lemma CrossSiteLinkRefused(page: string, foreign: string)
    requires page == "http://x/" && foreign == "http://other.com/c"
    ensures HrefLink(Anchor(foreign).attrs, page) == ""
  {
    assert Base(page) == "http://x";
    MissingCharNotContained(foreign, ".pdf", 3);
    MissingCharNotContained(foreign, "http://x", 7);
    assert foreign[0] != '/';
    assert ValidateLink(foreign);
    assert ParseURL(page, foreign) == "";
  }

  /**
   * The seed page http://x/ links to /a twice, to http://x/a, to #signin, to
   * b.pdf and to http://other.com/c: only http://x/a is registered and sent.
   */
  lemma SeedPageSendsOneLink(page: string, rel: string, abs: string, frag: string, pdf: string, foreign: string)
    requires page == "http://x/" && rel == "/a" && abs == "http://x/a"
    requires frag == "#signin" && pdf == "b.pdf" && foreign == "http://other.com/c"
    ensures Discover({}, page, [Anchor(rel), Anchor(rel), Anchor(abs), Anchor(frag), Anchor(pdf), Anchor(foreign)])
      == Scan({abs}, [abs])
  {
    var toks := [Anchor(rel), Anchor(rel), Anchor(abs), Anchor(frag), Anchor(pdf), Anchor(foreign)];
    RelativeLinkResolved(page, rel);
    AbsoluteLinkKept(page, abs);
    PdfLinkRefused(page, pdf);
    CrossSiteLinkRefused(page, foreign);
    assert HrefLink(Anchor(frag).attrs, page) == "";
    assert !EqualFold(page, abs);
    var one := Scan({abs}, [abs]);
    assert toks[..1][..0] == [];
    assert Discover({}, page, toks[..1]) == one;
    assert toks[..2][..1] == toks[..1];
    assert Discover({}, page, toks[..2]) == one;
    assert toks[..3][..2] == toks[..2];
    assert Discover({}, page, toks[..3]) == one;
    assert toks[..4][..3] == toks[..3];
    assert Discover({}, page, toks[..4]) == one;
    assert toks[..5][..4] == toks[..4];
    assert Discover({}, page, toks[..5]) == one;
  }

  /** Without a denylist, parseURL alone decides: a link that neither holds the base nor starts with "/" is refused. */
  lemma LegacyLinkRefused(page: string, link: string, k: nat)
    requires page == "http://x/" && k < 8 && "http://x"[k] !in link && (link == "" || link[0] != '/')
    ensures LegacyCrawl.FirstHrefLink(Anchor(link).attrs, page) == ""
  {
    assert Base(page) == "http://x";
    MissingCharNotContained(link, "http://x", k);
  }

  /** The earlier engine resolves the seed page's hrefs with parseURL alone. */
  lemma LegacySeedPageLinks(page: string, rel: string, abs: string, frag: string, pdf: string, foreign: string)
    requires page == "http://x/" && rel == "/a" && abs == "http://x/a"
    requires frag == "#signin" && pdf == "b.pdf" && foreign == "http://other.com/c"
    ensures LegacyCrawl.FirstHrefLink(Anchor(rel).attrs, page) == abs
    ensures LegacyCrawl.FirstHrefLink(Anchor(abs).attrs, page) == abs
    ensures LegacyCrawl.FirstHrefLink(Anchor(frag).attrs, page) == ""
    ensures LegacyCrawl.FirstHrefLink(Anchor(pdf).attrs, page) == ""
    ensures LegacyCrawl.FirstHrefLink(Anchor(foreign).attrs, page) == ""
  {
    assert Base(page) == "http://x";
    MissingCharNotContained(rel, "http://x", 0);
    assert HasPrefix(abs, "http://x");
    LegacyLinkRefused(page, frag, 0);
    LegacyLinkRefused(page, pdf, 0);
    LegacyLinkRefused(page, foreign, 7);
  }

  /** On the same seed page the earlier engine sends http://x/a three times. */
  lemma LegacySeedPageSendsDuplicates(page: string, rel: string, abs: string, frag: string, pdf: string, foreign: string)
    requires page == "http://x/" && rel == "/a" && abs == "http://x/a"
    requires frag == "#signin" && pdf == "b.pdf" && foreign == "http://other.com/c"
    ensures LegacyCrawl.SentLinks(page, [Anchor(rel), Anchor(rel), Anchor(abs), Anchor(frag), Anchor(pdf), Anchor(foreign)])
      == [abs, abs, abs]
  {
    var toks := [Anchor(rel), Anchor(rel), Anchor(abs), Anchor(frag), Anchor(pdf), Anchor(foreign)];
    LegacySeedPageLinks(page, rel, abs, frag, pdf, foreign);
    assert !EqualFold(page, abs);
    assert toks[..1][..0] == [];
    assert LegacyCrawl.SentLinks(page, toks[..1]) == [abs];
    assert toks[..2][..1] == toks[..1];
    assert LegacyCrawl.SentLinks(page, toks[..2]) == [abs, abs];
    assert toks[..3][..2] == toks[..2];
    assert LegacyCrawl.SentLinks(page, toks[..3]) == [abs, abs, abs];
    assert toks[..4][..3] == toks[..3];
    assert LegacyCrawl.SentLinks(page, toks[..4]) == [abs, abs, abs];
    assert toks[..5][..4] == toks[..4];
    assert LegacyCrawl.SentLinks(page, toks[..5]) == [abs, abs, abs];
  }
}
