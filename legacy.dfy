/**
 * The earlier iteration of the crawl engine, crawler.go at the repository root:
 * the same parseURL, but no denylist, no registry, media passed on to the
 * tokenizer, a fetch threshold of 500, and a readBody that always fails.
 */
module LegacyCrawl {
  import opened Wrappers
  import opened GoStrings
  import opened Web
  import opened Links
  import Crawl

  // ---------------------------------------------------------------------------
  // Links

  /** What linksFromToken returns: the resolution of the first href attribute, whatever it holds. */
  function FirstHrefLink(attrs: seq<Attribute>, url: string): (link: string)
    ensures link != "" ==> HasHref(attrs)
    decreases |attrs|
  {
    if attrs == [] then ""
    else if attrs[0].key == "href" then ParseURL(url, attrs[0].val)
    else FirstHrefLink(attrs[1..], url)
  }

  /** Some attribute in `attrs` is an href. */
  ghost predicate HasHref(attrs: seq<Attribute>) {
    exists k :: 0 <= k < |attrs| && attrs[k].key == "href"
  }

  /** attrs[k] is the first href attribute. */
  ghost predicate FirstHref(attrs: seq<Attribute>, k: int) {
    0 <= k < |attrs| && attrs[k].key == "href" && forall j :: 0 <= j < k ==> attrs[j].key != "href"
  }

  /** Only the first href is looked at: no denylist, and a refused link does not let a later href in. */
  lemma {:induction false} FirstHrefOnly(attrs: seq<Attribute>, url: string)
    ensures (forall j :: 0 <= j < |attrs| ==> attrs[j].key != "href") ==> FirstHrefLink(attrs, url) == ""
    ensures forall k :: FirstHref(attrs, k) ==> FirstHrefLink(attrs, url) == ParseURL(url, attrs[k].val)
    decreases |attrs|
  {
    if attrs != [] {
      FirstHrefOnly(attrs[1..], url);
      forall k | FirstHref(attrs, k) ensures FirstHrefLink(attrs, url) == ParseURL(url, attrs[k].val) {
        if k > 0 {
          assert FirstHref(attrs[1..], k - 1);
        }
      }
    }
  }

  /**
   * Side by side with the later engine: an href on the denylist is still
   * followed here, and a later valid href is never reached.
   */
  lemma DenylistOnlyInLaterEngine(url: string, v: string, w: string)
    requires !Crawl.ValidateLink(v) && Crawl.ValidateLink(w)
    ensures FirstHrefLink([Attribute("href", v), Attribute("href", w)], url) == ParseURL(url, v)
    ensures Crawl.HrefLink([Attribute("href", v), Attribute("href", w)], url) == ParseURL(url, w)
  {
  }

  /** linksFromToken: resolves the first href attribute and stops. */
  method LinksFromToken(token: Token, url: string) returns (link: string)
    ensures link == FirstHrefLink(token.attrs, url)
  {
    var attrs := token.attrs;
    var i := 0;
    while i < |attrs|
      invariant 0 <= i <= |attrs|
      invariant FirstHrefLink(attrs[i..], url) == FirstHrefLink(attrs, url)
    {
      var attr := attrs[i];
      if attr.key == "href" {
        var tl := ParseURL(url, attr.val);
        if tl == "" {
          break;
        }
        return tl;
      }
      i := i + 1;
    }
    return "";
  }

  /** The link sent for one token: non-empty and not the page itself, with no check against earlier ones. */
  function Emit(page: string, t: Token): (sent: seq<string>)
    ensures |sent| <= 1
    ensures sent != [] ==> IsAnchorStart(t) && sent[0] == FirstHrefLink(t.attrs, page)
    ensures sent != [] ==> sent[0] != "" && !EqualFold(page, sent[0])
  {
    if !IsAnchorStart(t) then []
    else
      var link := FirstHrefLink(t.attrs, page);
      if EqualFold(page, link) || link == "" then [] else [link]
  }

  /** The links the readBody loop sends for `toks`, none of them an ErrorToken. */
  function SentLinks(page: string, toks: seq<Token>): (sent: seq<string>)
    ensures |sent| <= |toks|
    decreases |toks|
  {
    if toks == [] then [] else SentLinks(page, toks[..|toks| - 1]) + Emit(page, toks[|toks| - 1])
  }

  /** Every link sent is non-empty and differs (ignoring case) from the page URL. */
  lemma {:induction false} SentLinksSound(page: string, toks: seq<Token>)
    ensures forall k :: 0 <= k < |SentLinks(page, toks)| ==>
      SentLinks(page, toks)[k] != "" && !EqualFold(page, SentLinks(page, toks)[k])
    decreases |toks|
  {
    if toks != [] {
      SentLinksSound(page, toks[..|toks| - 1]);
    }
  }

  /** Sending is token by token: the links of two stretches of tokens are the links of each, in order. */
  lemma {:induction false} SentLinksAppend(page: string, a: seq<Token>, b: seq<Token>)
    ensures SentLinks(page, a + b) == SentLinks(page, a) + SentLinks(page, b)
    decreases |b|
  {
    if b == [] {
      assert a + b == a;
    } else {
      assert (a + b)[..|a + b| - 1] == a + b[..|b| - 1];
      SentLinksAppend(page, a, b[..|b| - 1]);
    }
  }

  /** No dedup: a tag that appears n times has its link sent n times. */
  lemma {:induction false} SentLinksRepeat(page: string, t: Token, n: nat)
    requires Emit(page, t) != []
    ensures SentLinks(page, Repeat(t, n)) == Repeat(FirstHrefLink(t.attrs, page), n)
    decreases n
  {
    if n > 0 {
      assert Repeat(t, n)[..n - 1] == Repeat(t, n - 1);
      SentLinksRepeat(page, t, n - 1);
      assert Repeat(FirstHrefLink(t.attrs, page), n) ==
        Repeat(FirstHrefLink(t.attrs, page), n - 1) + [FirstHrefLink(t.attrs, page)];
    }
  }

  // ---------------------------------------------------------------------------
  // Content decoding and fetching

  /** What encodeBytes does to a body: media is left as it is and counts as success. */
  function Encoded(body: Bytes, contentType: string, transcode: Transcoder): Result<Bytes, Error> {
    var ct := ToLower(contentType);
    if Crawl.IsMedia(ct) then Success(body) else transcode(body, ct)
  }

  /**
   * Decoding fails only in the transcoder, on a content type that is not media;
   * the media gate itself never reports an error.
   */
  lemma EncodedFailsOnlyInTranscoder(body: Bytes, contentType: string, transcode: Transcoder)
    ensures Crawl.IsMedia(ToLower(contentType)) ==> Encoded(body, contentType, transcode).Success?
    ensures Encoded(body, contentType, transcode).Failure? ==>
      !Crawl.IsMedia(ToLower(contentType)) && Encoded(body, contentType, transcode) == transcode(body, ToLower(contentType))
  {
  }

  /**
   * A body whose content type mentions image/, video/, audio/ or font/ (in any
   * case) goes on to the tokenizer unchanged, where the later engine refuses it.
   */
  lemma MediaPassesThrough(body: Bytes, contentType: string, transcode: Transcoder)
    requires var ct := ToLower(contentType);
      (exists i :: OccursAt(ct, "image/", i)) || (exists i :: OccursAt(ct, "video/", i)) ||
      (exists i :: OccursAt(ct, "audio/", i)) || (exists i :: OccursAt(ct, "font/", i))
    ensures Encoded(body, contentType, transcode) == Success(body)
    ensures Crawl.Encoded(body, contentType, transcode) == Failure(ErrInvalidURL)
  {
  }

  /**
   * getContent: the transport error is handed back; a status of 500 or more
   * drops the response but reports no error; anything else passes through.
   */
  function GetContent(fetched: Fetch): (r: Fetch)
    requires WellFormedFetch(fetched)
    ensures r.err == fetched.err
    ensures r.resp != null ==> r.resp == fetched.resp && r.resp.statusCode < 500
    ensures r.resp == null && r.err.None? <==> fetched.err.None? && fetched.resp.statusCode >= 500
    ensures r.resp == null <==> fetched.err.Some? || fetched.resp.statusCode >= 500
  {
    if fetched.err.Some? || fetched.resp.statusCode >= 500 then Fetch(null, fetched.err)
    else fetched
  }

  /** How process ends: it returns an error value, or it dereferences a nil response and panics. */
  datatype Exit = Returned(err: Option<Error>) | NilDereference

  // ---------------------------------------------------------------------------
  // The crawler

  class Crawler {
    /** Declared and allocated, but no method below reads or writes it. */
    var crawled: set<string>

    /** NewCrawler */
    constructor ()
      ensures crawled == {}
    {
      crawled := {};
    }

    /** encodeBytes: media is left untouched and reported as success; other bodies are transcoded. */
    method EncodeBytes(resp: Response, transcode: Transcoder) returns (err: Option<Error>)
      modifies resp
      ensures match Encoded(old(resp.body), ContentType(resp), transcode)
        case Failure(e) => err == Some(e) && resp.body == old(resp.body)
        case Success(b) => err == None && resp.body == b
    {
      var contentType := ToLower(ContentType(resp));
      if Contains(contentType, "image/") || Contains(contentType, "video/") ||
         Contains(contentType, "audio/") || Contains(contentType, "font/") {
        return None;
      }
      var r := transcode(resp.body, contentType);
      if r.Failure? {
        return Some(r.error);
      }
      resp.body := r.value;
      return None;
    }

    /**
     * The token loop of readBody: every <a> start tag up to the first ErrorToken
     * has its resolved link sent, unless that link is empty or the page itself.
     */
    method SendLinks(toks: seq<Token>, url: string, ch: Channel)
      modifies ch
      ensures ch.sent == old(ch.sent) + SentLinks(url, Live(toks))
    {
      ghost var sent0 := ch.sent;
      var i := 0;
      while i < |toks| && toks[i].kind != ErrorToken
        modifies ch
        invariant 0 <= i <= |toks|
        invariant forall j :: 0 <= j < i ==> toks[j].kind != ErrorToken
        invariant ch.sent == sent0 + SentLinks(url, toks[..i])
      {
        assert toks[..i + 1][..i] == toks[..i];
        var token := toks[i];
        assert SentLinks(url, toks[..i + 1]) == SentLinks(url, toks[..i]) + Emit(url, token);
        if token.kind == StartTagToken && token.atom == "a" {
          var link := LinksFromToken(token, url);
          if EqualFold(url, link) {
            i := i + 1;
            continue;
          }
          if link != "" {
            ch.Send(link);
          }
        }
        i := i + 1;
      }
      LiveAtStop(toks, i);
    }

    /**
     * readBody: sends every resolved <a> link that is not the page itself, and
     * reports "invalid data" when the tokens run out, which is how every
     * successful decode ends.
     */
    method ReadBody(resp: Response, ch: Channel, transcode: Transcoder, tokenize: Tokenizer)
      returns (err: Option<Error>)
      modifies resp, ch
      ensures err.Some?
      ensures match Encoded(old(resp.body), ContentType(resp), transcode)
        case Failure(e) =>
          err == Some(e) && resp.body == old(resp.body) && ch.sent == old(ch.sent)
        case Success(b) =>
          err == Some(ErrInvalidData) && resp.body == b &&
          ch.sent == old(ch.sent) + SentLinks(resp.url, Live(tokenize(b)))
    {
      err := EncodeBytes(resp, transcode);
      if err.Some? {
        return;
      }
      var toks := tokenize(resp.body);
      SendLinks(toks, resp.url, ch);
      // The ErrorToken, or the end of the input, ends the loop with an error.
      return Some(ErrInvalidData);
    }

    /**
     * process: fetch, then read the body. A status of 500 or more leaves a nil
     * response with no error, which readBody dereferences.
     */
    method Process(fetched: Fetch, ch: Channel, transcode: Transcoder, tokenize: Tokenizer)
      returns (exit: Exit)
      requires WellFormedFetch(fetched)
      modifies fetched.resp, ch
      ensures exit != Returned(None)
      ensures fetched.err.Some? ==>
        exit == Returned(fetched.err) && ch.sent == old(ch.sent) &&
        (fetched.resp != null ==> fetched.resp.body == old(fetched.resp.body))
      ensures fetched.err.None? && fetched.resp.statusCode >= 500 ==>
        exit == NilDereference && ch.sent == old(ch.sent) && fetched.resp.body == old(fetched.resp.body)
      ensures fetched.err.None? && fetched.resp.statusCode < 500 ==>
        match Encoded(old(fetched.resp.body), ContentType(fetched.resp), transcode)
        case Failure(e) =>
          exit == Returned(Some(e)) && ch.sent == old(ch.sent) && fetched.resp.body == old(fetched.resp.body)
        case Success(b) =>
          exit == Returned(Some(ErrInvalidData)) && fetched.resp.body == b &&
          ch.sent == old(ch.sent) + SentLinks(fetched.resp.url, Live(tokenize(b)))
    {
      var got := GetContent(fetched);
      if got.err.Some? {
        return Returned(got.err);
      }
      if got.resp == null {
        // readBody(nil, ...) reaches resp.Headers inside encodeBytes
        return NilDereference;
      }
      var err := ReadBody(got.resp, ch, transcode, tokenize);
      return Returned(err);
    }
  }
}
