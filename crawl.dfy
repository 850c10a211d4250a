/**
 * The crawl engine of internal/crawler.go, with the goroutines, the mutex and
 * the logging taken away: link filtering and resolution, link discovery over a
 * token stream against the registry of crawled URLs, the media gate of the
 * content decoder, and the fetch / read / save sequence for one URL.
 */
module Crawl {
  import opened Wrappers
  import opened GoStrings
  import opened Web
  import opened Links

  // ---------------------------------------------------------------------------
  // Link filter

  /** validateLink: the denylist of links that are never followed. */
  function ValidateLink(link: string): (ok: bool)
    ensures ok <==> !((exists i :: OccursAt(link, ".pdf", i)) || link == "#search" || link == "#signin" || link == "/")
  {
    ContainsIffOccurs(link, ".pdf");
    !(Contains(link, ".pdf") || link == "#search" || link == "#signin" || link == "/")
  }

  /** An href attribute whose value passes the denylist. */
  predicate ValidHref(a: Attribute) {
    a.key == "href" && ValidateLink(a.val)
  }

  /**
   * What linksFromToken returns for a tag with these attributes: an href that
   * fails the denylist is skipped, and the first one that passes decides.
   */
  function HrefLink(attrs: seq<Attribute>, url: string): (link: string)
    ensures link != "" ==> HasValidHref(attrs)
    decreases |attrs|
  {
    if attrs == [] then ""
    else if ValidHref(attrs[0]) then ParseURL(url, attrs[0].val)
    else HrefLink(attrs[1..], url)
  }

  /** Some href value in `attrs` passes the denylist. */
  ghost predicate HasValidHref(attrs: seq<Attribute>) {
    exists k :: 0 <= k < |attrs| && ValidHref(attrs[k])
  }

  /** attrs[k] is the first href attribute that passes the denylist. */
  ghost predicate FirstValidHref(attrs: seq<Attribute>, k: int) {
    0 <= k < |attrs| && ValidHref(attrs[k]) && forall j :: 0 <= j < k ==> !ValidHref(attrs[j])
  }

  /**
   * The link of a tag is the resolution of its first valid href, or "" when it
   * has none; so it is always "" or parseURL of a value that passed the denylist.
   */
  lemma {:induction false} HrefLinkIsFirstValid(attrs: seq<Attribute>, url: string)
    ensures (forall j :: 0 <= j < |attrs| ==> !ValidHref(attrs[j])) ==> HrefLink(attrs, url) == ""
    ensures forall k :: FirstValidHref(attrs, k) ==> HrefLink(attrs, url) == ParseURL(url, attrs[k].val)
    decreases |attrs|
  {
    if attrs != [] {
      HrefLinkIsFirstValid(attrs[1..], url);
      forall k | FirstValidHref(attrs, k) ensures HrefLink(attrs, url) == ParseURL(url, attrs[k].val) {
        if k > 0 {
          assert FirstValidHref(attrs[1..], k - 1);
        }
      }
    }
  }

  // ---------------------------------------------------------------------------
  // Link discovery against the registry

  /** No link occurs twice. */
  ghost predicate NoDup(s: seq<string>) {
    forall i, j :: 0 <= i < j < |s| ==> s[i] != s[j]
  }

  function Elems(s: seq<string>): set<string> {
    set x | x in s
  }

  /** The registry and the links sent so far by a readBody loop. */
  datatype Scan = Scan(registry: set<string>, emitted: seq<string>)

  /** One turn of the readBody loop on a token that is not an ErrorToken. */
  function Step(s: Scan, page: string, t: Token): Scan
  {
    if !IsAnchorStart(t) then s
    else
      var link := HrefLink(t.attrs, page);
      if EqualFold(page, link) then s
      else if link != "" && link !in s.registry then Scan(s.registry + {link}, s.emitted + [link])
      else s
  }

  /**
   * One turn of the loop sends at most one link: the link of the token, when
   * the token is an <a> start tag and its link is non-empty, not the page itself
   * and not yet registered; the registry gains exactly what is sent.
   */
  lemma StepSendsAtMostOne(s: Scan, page: string, t: Token)
    ensures var r := Step(s, page, t);
      |s.emitted| <= |r.emitted| <= |s.emitted| + 1 && r.emitted[..|s.emitted|] == s.emitted &&
      r.registry == s.registry + Elems(r.emitted[|s.emitted|..])
    ensures var r := Step(s, page, t);
      |r.emitted| > |s.emitted| <==>
        IsAnchorStart(t) && HrefLink(t.attrs, page) != "" && !EqualFold(page, HrefLink(t.attrs, page)) &&
        HrefLink(t.attrs, page) !in s.registry
    ensures var r := Step(s, page, t);
      |r.emitted| > |s.emitted| ==> r.emitted[|s.emitted|] == HrefLink(t.attrs, page)
  {
  }

  /** The readBody loop over `toks`, none of them an ErrorToken, starting from `registry`. */
  function Discover(registry: set<string>, page: string, toks: seq<Token>): (r: Scan)
    ensures registry <= r.registry
    ensures |r.emitted| <= |toks|
    decreases |toks|
  {
    if toks == [] then Scan(registry, [])
    else Step(Discover(registry, page, toks[..|toks| - 1]), page, toks[|toks| - 1])
  }

  /**
   * Every link discovery emits is non-empty, differs (ignoring case) from the page
   * URL and was not registered before; it is emitted once, and the registry
   * afterwards is the old one plus exactly the emitted links.
   */
  lemma {:induction false} DiscoverEmitsNewLinksOnce(registry: set<string>, page: string, toks: seq<Token>)
    ensures Discover(registry, page, toks).registry == registry + Elems(Discover(registry, page, toks).emitted)
    ensures NoDup(Discover(registry, page, toks).emitted)
    ensures forall k :: 0 <= k < |Discover(registry, page, toks).emitted| ==>
      var l := Discover(registry, page, toks).emitted[k];
      l != "" && !EqualFold(page, l) && l !in registry
    decreases |toks|
  {
    if toks != [] {
      var s := Discover(registry, page, toks[..|toks| - 1]);
      DiscoverEmitsNewLinksOnce(registry, page, toks[..|toks| - 1]);
      var r := Step(s, page, toks[|toks| - 1]);
      if r != s {
        var link := r.emitted[|r.emitted| - 1];
        assert r.emitted == s.emitted + [link];
        assert Elems(r.emitted) == Elems(s.emitted) + {link};
      }
    }
  }

  /**
   * Discovery loses no link: every <a> tag whose link is non-empty and not the
   * page itself ends up in the registry, emitted now or registered before.
   */
  lemma {:induction false} DiscoverCovers(registry: set<string>, page: string, toks: seq<Token>)
    ensures forall j :: 0 <= j < |toks| && IsAnchorStart(toks[j]) ==>
      var l := HrefLink(toks[j].attrs, page);
      l != "" && !EqualFold(page, l) ==> l in Discover(registry, page, toks).registry
    decreases |toks|
  {
    if toks != [] {
      var prefix := toks[..|toks| - 1];
      DiscoverCovers(registry, page, prefix);
      var s := Discover(registry, page, prefix);
      assert s.registry <= Discover(registry, page, toks).registry;
      forall j | 0 <= j < |toks| - 1
        ensures toks[j] == prefix[j]
      {
      }
    }
  }

  /**
   * The converse of DiscoverCovers: every link sent is the link of some <a>
   * start tag of the stream; nothing is sent from anywhere else.
   */
  lemma {:induction false} DiscoverEmitsOnlyAnchorLinks(registry: set<string>, page: string, toks: seq<Token>)
    ensures forall l :: l in Discover(registry, page, toks).emitted ==>
      exists j :: 0 <= j < |toks| && IsAnchorStart(toks[j]) && HrefLink(toks[j].attrs, page) == l
    decreases |toks|
  {
    if toks != [] {
      var prefix := toks[..|toks| - 1];
      DiscoverEmitsOnlyAnchorLinks(registry, page, prefix);
      var s := Discover(registry, page, prefix);
      var r := Discover(registry, page, toks);
      StepSendsAtMostOne(s, page, toks[|toks| - 1]);
      assert r.emitted == s.emitted + r.emitted[|s.emitted|..];
      forall l | l in r.emitted
        ensures exists j :: 0 <= j < |toks| && IsAnchorStart(toks[j]) && HrefLink(toks[j].attrs, page) == l
      {
        if l in s.emitted {
          var j :| 0 <= j < |prefix| && IsAnchorStart(prefix[j]) && HrefLink(prefix[j].attrs, page) == l;
          assert toks[j] == prefix[j];
        } else {
          assert r.emitted[|s.emitted|..] == [l];
          assert IsAnchorStart(toks[|toks| - 1]) && HrefLink(toks[|toks| - 1].attrs, page) == l;
        }
      }
    }
  }

  /**
   * A token that is not an <a> start tag changes neither the registry nor the
   * output, wherever it stands among the others.
   */
  lemma {:induction false} DiscoverSkipsOtherTokens(registry: set<string>, page: string, a: seq<Token>, t: Token, b: seq<Token>)
    requires !IsAnchorStart(t)
    ensures Discover(registry, page, a + [t] + b) == Discover(registry, page, a + b)
    decreases |b|
  {
    if b == [] {
      assert a + [t] + b == a + [t];
      assert (a + [t])[..|a|] == a;
      assert a + b == a;
    } else {
      var b' := b[..|b| - 1];
      assert (a + [t] + b)[..|a + [t] + b| - 1] == a + [t] + b';
      assert (a + b)[..|a + b| - 1] == a + b';
      DiscoverSkipsOtherTokens(registry, page, a, t, b');
    }
  }

  /** A page that carries the same <a> tag n times sends its new link once. */
  lemma {:induction false} DiscoverRepeatedTagOnce(registry: set<string>, page: string, t: Token, n: nat)
    requires IsAnchorStart(t) && n >= 1
    requires HrefLink(t.attrs, page) != "" && !EqualFold(page, HrefLink(t.attrs, page))
    requires HrefLink(t.attrs, page) !in registry
    ensures Discover(registry, page, Repeat(t, n)) ==
      Scan(registry + {HrefLink(t.attrs, page)}, [HrefLink(t.attrs, page)])
    decreases n
  {
    assert Repeat(t, n)[..n - 1] == Repeat(t, n - 1);
    if n > 1 {
      DiscoverRepeatedTagOnce(registry, page, t, n - 1);
    } else {
      assert Repeat(t, 0) == [];
    }
  }

  /**
   * A channel whose sends are distinct and registered stays so after a discovery
   * run that shares the registry: across calls, no link is sent twice.
   */
  lemma DiscoverKeepsSendsDistinct(sent: seq<string>, registry: set<string>, page: string, toks: seq<Token>)
    requires NoDup(sent) && Elems(sent) <= registry
    ensures NoDup(sent + Discover(registry, page, toks).emitted)
    ensures Elems(sent + Discover(registry, page, toks).emitted) <= Discover(registry, page, toks).registry
  {
    var r := Discover(registry, page, toks);
    DiscoverEmitsNewLinksOnce(registry, page, toks);
    var all := sent + r.emitted;
    forall i, j | 0 <= i < j < |all| ensures all[i] != all[j] {
      if j >= |sent| && i < |sent| {
        assert all[i] in Elems(sent);
        assert all[j] == r.emitted[j - |sent|];
      } else if i >= |sent| {
        assert all[i] == r.emitted[i - |sent|] && all[j] == r.emitted[j - |sent|];
      }
    }
    assert Elems(all) == Elems(sent) + Elems(r.emitted);
  }

  /** Two pages read one after the other with one registry never emit the same link twice. */
  lemma DiscoverAcrossCalls(registry: set<string>, page1: string, toks1: seq<Token>, page2: string, toks2: seq<Token>)
    ensures
      var r1 := Discover(registry, page1, toks1);
      var r2 := Discover(r1.registry, page2, toks2);
      NoDup(r1.emitted + r2.emitted)
  {
    var r1 := Discover(registry, page1, toks1);
    DiscoverEmitsNewLinksOnce(registry, page1, toks1);
    DiscoverKeepsSendsDistinct(r1.emitted, r1.registry, page2, toks2);
  }

  // ---------------------------------------------------------------------------
  // Content decoding and fetching

  /** The media gate, applied to a lower-cased content type. */
  predicate IsMedia(contentType: string): (media: bool)
    ensures media <==> (exists i :: OccursAt(contentType, "image/", i)) || (exists i :: OccursAt(contentType, "video/", i)) ||
                       (exists i :: OccursAt(contentType, "audio/", i)) || (exists i :: OccursAt(contentType, "font/", i))
  {
    ContainsIffOccurs(contentType, "image/");
    ContainsIffOccurs(contentType, "video/");
    ContainsIffOccurs(contentType, "audio/");
    ContainsIffOccurs(contentType, "font/");
    Contains(contentType, "image/") || Contains(contentType, "video/") ||
    Contains(contentType, "audio/") || Contains(contentType, "font/")
  }

  /** What encodeBytes does to a body: refuse media, otherwise transcode it. */
  function Encoded(body: Bytes, contentType: string, transcode: Transcoder): (r: Result<Bytes, Error>)
    ensures IsMedia(ToLower(contentType)) ==> r == Failure(ErrInvalidURL)
    ensures r.Success? ==> !IsMedia(ToLower(contentType)) && r == transcode(body, ToLower(contentType))
  {
    var ct := ToLower(contentType);
    if IsMedia(ct) then Failure(ErrInvalidURL) else transcode(body, ct)
  }

  /**
   * A content type that mentions image/, video/, audio/ or font/ (in any case)
   * is refused with errInvalidURL; any other is handed to the transcoder, lower-cased.
   */
  lemma MediaGate(body: Bytes, contentType: string, transcode: Transcoder)
    ensures
      var ct := ToLower(contentType);
      var media := (exists i :: OccursAt(ct, "image/", i)) || (exists i :: OccursAt(ct, "video/", i)) ||
                   (exists i :: OccursAt(ct, "audio/", i)) || (exists i :: OccursAt(ct, "font/", i));
      Encoded(body, contentType, transcode) == if media then Failure(ErrInvalidURL) else transcode(body, ct)
  {
    var ct := ToLower(contentType);
    ContainsIffOccurs(ct, "image/");
    ContainsIffOccurs(ct, "video/");
    ContainsIffOccurs(ct, "audio/");
    ContainsIffOccurs(ct, "font/");
  }

  /** The gate ignores case: content types equal up to case are treated alike. */
  lemma MediaGateIgnoresCase(body: Bytes, a: string, b: string, transcode: Transcoder)
    requires EqualFold(a, b)
    ensures Encoded(body, a, transcode) == Encoded(body, b, transcode)
  {
    EqualFoldIffSameLower(a, b);
  }

  /** getContent: a transport error or a status of 400 or more becomes errGettingURL and no response. */
  function GetContent(fetched: Fetch): (r: Fetch)
    requires WellFormedFetch(fetched)
    ensures r.resp == null <==> r.err.Some?
    ensures r.err.Some? <==> fetched.err.Some? || fetched.resp.statusCode >= 400
    ensures r.err.Some? ==> r.err == Some(ErrGettingURL)
    ensures r.resp != null ==> r.resp == fetched.resp && r.resp.statusCode < 400
  {
    if fetched.err.Some? || fetched.resp.statusCode >= 400 then Fetch(null, Some(ErrGettingURL))
    else Fetch(fetched.resp, None)
  }

  // ---------------------------------------------------------------------------
  // The crawler

  class Crawler {
    /** The registry of URLs already claimed (the keys of the `crawled` map). */
    var crawled: set<string>
    const saveSite: bool

    /** NewCrawler: an empty registry, pages are saved. */
    constructor ()
      ensures crawled == {} && saveSite
    {
      crawled := {};
      saveSite := true;
    }

    /** A crawler built as a struct literal, where saveSite is whatever the literal says (false when left out). */
    constructor Literal(save: bool)
      ensures crawled == {} && saveSite == save
    {
      crawled := {};
      saveSite := save;
    }

    /** Every link sent on `ch` is registered, and none was sent twice. */
    ghost predicate Consistent(ch: Channel)
      reads this, ch
    {
      NoDup(ch.sent) && Elems(ch.sent) <= crawled
    }

    /** registerURL: adds the URL; nothing is ever removed. */
    method RegisterURL(url: string)
      modifies this
      ensures crawled == old(crawled) + {url}
    {
      crawled := crawled + {url};
    }

    /** existsURL: whether the URL has been registered. */
    method ExistsURL(url: string) returns (found: bool)
      ensures found <==> url in crawled
    {
      found := url in crawled;
    }

    /** encodeBytes: refuses media with the body untouched, otherwise replaces the body by its transcoding. */
    method EncodeBytes(resp: Response, transcode: Transcoder) returns (err: Option<Error>)
      modifies resp
      ensures match Encoded(old(resp.body), ContentType(resp), transcode)
        case Failure(e) => err == Some(e) && resp.body == old(resp.body)
        case Success(b) => err == None && resp.body == b
    {
      var contentType := ToLower(ContentType(resp));
      if Contains(contentType, "image/") || Contains(contentType, "video/") ||
         Contains(contentType, "audio/") || Contains(contentType, "font/") {
        return Some(ErrInvalidURL);
      }
      var r := transcode(resp.body, contentType);
      if r.Failure? {
        return Some(r.error);
      }
      resp.body := r.value;
      return None;
    }

    /** linksFromToken: scans the attributes for the first href that passes the denylist and resolves it. */
    method LinksFromToken(token: Token, url: string) returns (link: string)
      ensures link == HrefLink(token.attrs, url)
    {
      var attrs := token.attrs;
      var i := 0;
      while i < |attrs|
        invariant 0 <= i <= |attrs|
        invariant HrefLink(attrs[i..], url) == HrefLink(attrs, url)
      {
        var attr := attrs[i];
        if attr.key == "href" {
          var l := attr.val;
          if !ValidateLink(l) {
            i := i + 1;
            continue;
          }
          var tl := ParseURL(url, l);
          if tl == "" {
            break;
          }
          return tl;
        }
        i := i + 1;
      }
      return "";
    }

    /**
     * readBody: decodes the body, then walks its tokens up to the first
     * ErrorToken; every <a> link that is not the page itself and not yet
     * registered is registered and sent.
     */
    method ReadBody(resp: Response, ch: Channel, transcode: Transcoder, tokenize: Tokenizer)
      returns (err: Option<Error>)
      modifies this, resp, ch
      ensures match Encoded(old(resp.body), ContentType(resp), transcode)
        case Failure(e) =>
          err == Some(e) && resp.body == old(resp.body) &&
          crawled == old(crawled) && ch.sent == old(ch.sent)
        case Success(b) =>
          var r := Discover(old(crawled), resp.url, Live(tokenize(b)));
          err == None && resp.body == b &&
          crawled == r.registry && ch.sent == old(ch.sent) + r.emitted
      ensures old(Consistent(ch)) ==> Consistent(ch)
    {
      err := EncodeBytes(resp, transcode);
      if err.Some? {
        return;
      }
      var toks := tokenize(resp.body);
      ghost var registry0, sent0 := crawled, ch.sent;
      var i := 0;
      while i < |toks| && toks[i].kind != ErrorToken
        modifies this, ch
        invariant 0 <= i <= |toks|
        invariant forall j :: 0 <= j < i ==> toks[j].kind != ErrorToken
        invariant crawled == Discover(registry0, resp.url, toks[..i]).registry
        invariant ch.sent == sent0 + Discover(registry0, resp.url, toks[..i]).emitted
      {
        assert toks[..i + 1][..i] == toks[..i];
        var token := toks[i];
        ghost var before := Discover(registry0, resp.url, toks[..i]);
        assert Discover(registry0, resp.url, toks[..i + 1]) == Step(before, resp.url, token);
        if token.kind == StartTagToken && token.atom == "a" {
          var link := LinksFromToken(token, resp.url);
          if EqualFold(resp.url, link) {
            i := i + 1;
            continue;
          }
          if link != "" {
            var known := ExistsURL(link);
            if !known {
              RegisterURL(link);
              ch.Send(link);
            }
          }
        }
        i := i + 1;
      }
      LiveAtStop(toks, i);
      if NoDup(sent0) && Elems(sent0) <= registry0 {
        DiscoverKeepsSendsDistinct(sent0, registry0, resp.url, toks[..i]);
      }
    }

    /** downloadPage: saves the page when the crawler is configured to; `saveErr` is what saving returns. */
    method DownloadPage(saveErr: Option<Error>) returns (err: Option<Error>, saved: bool)
      ensures saved == saveSite
      ensures err == if saveSite then saveErr else None
    {
      if !saveSite {
        return None, false;
      }
      return saveErr, true;
    }

    /**
     * processURL: the context check, the fetch, reading the body and saving the
     * page, each step ending the call with its error. `ctxErr` is ctx.Err(),
     * `fetched` what the client returned, `saveErr` what saving would return.
     */
    method ProcessURL(ctxErr: Option<Error>, fetched: Fetch, ch: Channel, transcode: Transcoder,
                      tokenize: Tokenizer, saveErr: Option<Error>)
      returns (err: Option<Error>, saved: bool)
      requires WellFormedFetch(fetched)
      modifies this, ch, fetched.resp
      ensures ctxErr.Some? ==>
        err == ctxErr && !saved && crawled == old(crawled) && ch.sent == old(ch.sent) &&
        (fetched.resp != null ==> fetched.resp.body == old(fetched.resp.body))
      ensures ctxErr.None? && GetContent(fetched).err.Some? ==>
        err == Some(ErrGettingURL) && !saved && crawled == old(crawled) && ch.sent == old(ch.sent) &&
        (fetched.resp != null ==> fetched.resp.body == old(fetched.resp.body))
      ensures ctxErr.None? && GetContent(fetched).err.None? ==>
        match Encoded(old(fetched.resp.body), ContentType(fetched.resp), transcode)
        case Failure(e) =>
          err == Some(e) && !saved && crawled == old(crawled) && ch.sent == old(ch.sent) &&
          fetched.resp.body == old(fetched.resp.body)
        case Success(b) =>
          var r := Discover(old(crawled), fetched.resp.url, Live(tokenize(b)));
          fetched.resp.body == b &&
          crawled == r.registry && ch.sent == old(ch.sent) + r.emitted &&
          saved == saveSite && err == (if saveSite then saveErr else None)
      ensures old(Consistent(ch)) ==> Consistent(ch)
    {
      if ctxErr.Some? {
        return ctxErr, false;
      }
      var got := GetContent(fetched);
      if got.err.Some? {
        return got.err, false;
      }
      err := ReadBody(got.resp, ch, transcode, tokenize);
      if err.Some? {
        return err, false;
      }
      err, saved := DownloadPage(saveErr);
    }
  }
}
