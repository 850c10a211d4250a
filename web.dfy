/**
 * What the crawl engine receives from its collaborators: the errors it names,
 * an HTTP response, the HTML token stream and the links channel.
 * The HTTP client, the HTML tokenizer and the charset transcoder are foreign
 * code; the engine sees only their results, so they enter as parameters.
 */
module Web {
  import opened Wrappers

  type Bytes = seq<bv8>

  /** The engine's own error values, plus an error raised by foreign code. */
  datatype Error =
    | ErrInvalidURL          // "invalid url": also returned for skipped media
    | ErrInvalidData         // "invalid data"
    | ErrGettingURL          // "error getting url"
    | Foreign(reason: string) // from the context, the transport, the transcoder or the file system

  /** An HTTP response. Only the body is ever replaced; the rest is fixed when it is fetched. */
  class Response {
    const url: string
    const statusCode: int
    const headers: map<string, seq<string>>
    var body: Bytes

    constructor (url: string, statusCode: int, headers: map<string, seq<string>>, body: Bytes)
      ensures this.url == url && this.statusCode == statusCode
      ensures this.headers == headers && this.body == body
    {
      this.url := url;
      this.statusCode := statusCode;
      this.headers := headers;
      this.body := body;
    }
  }

  /** http.Header.Get: the first value stored under `key`, or "" when there is none. */
  function HeaderGet(headers: map<string, seq<string>>, key: string): (v: string)
    ensures key !in headers || headers[key] == [] ==> v == ""
    ensures key in headers && headers[key] != [] ==> v == headers[key][0]
  {
    if key in headers && headers[key] != [] then headers[key][0] else ""
  }

  /** The declared Content-Type of a response, as the engine reads it. */
  function ContentType(resp: Response): string {
    HeaderGet(resp.headers, "Content-Type")
  }

  /** What the HTTP client's Get returned: a response (possibly nil) and an error (possibly nil). */
  datatype Fetch = Fetch(resp: Response?, err: Option<Error>)

  /** The client never returns a nil response together with a nil error. */
  predicate WellFormedFetch(f: Fetch) {
    f.err.None? ==> f.resp != null
  }

  /** charset.NewReader followed by io.ReadAll: the transcoded body, or the error of either step. */
  type Transcoder = (Bytes, string) -> Result<Bytes, Error>

  /** The kinds of token html.Tokenizer.Next reports. */
  datatype TokenType =
    | ErrorToken
    | TextToken
    | StartTagToken
    | EndTagToken
    | SelfClosingTagToken
    | CommentToken
    | DoctypeToken

  datatype Attribute = Attribute(key: string, val: string)

  /** A token: its type, the tag's atom name (DataAtom.String()) and its attributes. */
  datatype Token = Token(kind: TokenType, atom: string, attrs: seq<Attribute>)

  /**
   * The tokens Next would report for a body. Next reports ErrorToken at the end
   * of the input; a sequence that runs out stands for that final ErrorToken.
   */
  type Tokenizer = Bytes -> seq<Token>

  /** A start tag whose atom is "a". */
  predicate IsAnchorStart(t: Token) {
    t.kind == StartTagToken && t.atom == "a"
  }

  /** The position of the first ErrorToken, or the length of the stream when there is none. */
  function FirstError(toks: seq<Token>): (n: nat)
    ensures n <= |toks|
    ensures forall j :: 0 <= j < n ==> toks[j].kind != ErrorToken
    ensures n < |toks| ==> toks[n].kind == ErrorToken
    decreases |toks|
  {
    if toks == [] || toks[0].kind == ErrorToken then 0 else 1 + FirstError(toks[1..])
  }

  /** The tokens a loop that stops at the first ErrorToken gets to see. */
  function Live(toks: seq<Token>): seq<Token> {
    toks[..FirstError(toks)]
  }

  /** A loop that stops at the first ErrorToken has seen exactly Live(toks). */
  lemma LiveAtStop(toks: seq<Token>, i: nat)
    requires i <= |toks|
    requires forall j :: 0 <= j < i ==> toks[j].kind != ErrorToken
    requires i < |toks| ==> toks[i].kind == ErrorToken
    ensures toks[..i] == Live(toks)
  {
  }

  /** Whatever follows the first ErrorToken is never looked at. */
  lemma {:induction false} LiveStopsAtError(before: seq<Token>, t: Token, after: seq<Token>)
    requires forall j :: 0 <= j < |before| ==> before[j].kind != ErrorToken
    requires t.kind == ErrorToken
    ensures Live(before + [t] + after) == before
    decreases |before|
  {
    var toks := before + [t] + after;
    if before != [] {
      assert toks[1..] == before[1..] + [t] + after;
      LiveStopsAtError(before[1..], t, after);
    }
    assert FirstError(toks) == |before|;
    assert toks[..|before|] == before;
  }

  /** `x` repeated `n` times: a page that carries the same tag, or a channel that got the same link, n times. */
  function Repeat<T>(x: T, n: nat): (r: seq<T>)
    ensures |r| == n && forall i :: 0 <= i < n ==> r[i] == x
  {
    seq(n, _ => x)
  }

  /** The links channel. Every send is recorded in `sent`, in the order the sends are issued. */
  class Channel {
    var sent: seq<string>

    constructor ()
      ensures sent == []
    {
      sent := [];
    }

    method Send(link: string)
      modifies this
      ensures sent == old(sent) + [link]
    {
      sent := sent + [link];
    }
  }
}
