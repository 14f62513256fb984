/**
 * The response: content, status code and an ordered header array. Adding a
 * header overwrites an earlier one of the same name; reading a header gives
 * null for an unknown name. Sending emits one `header()` call per header, in
 * order, each carrying the status code, then the status line, then the body;
 * when the transport reports that headers were already sent, only the body is
 * written.
 *
 * The transport is not modelled: whether headers were already sent is the
 * `headersSent` argument and what would be written is returned as a list of
 * `Emission`s.
 */
module Responses {
  import opened Wrappers
  import P = Parameters

  datatype Response = Response(content: string, statusCode: int, headers: P.Bag<string>)

  const DefaultStatus := 200

  /** The constructor (and the `create` factory, which only forwards to it). */
  function Create(content: string, statusCode: int, headers: seq<(string, string)>): (r: Response)
    requires P.Distinct(P.KeysOf(headers))
    ensures r.content == content && r.statusCode == statusCode
    ensures P.Valid(r.headers) && P.All(r.headers) == headers
  {
    Response(content, statusCode, P.New(headers))
  }

  /** `new Response()`: empty content, status 200, no header. */
  function Empty(): Response {
    Create("", DefaultStatus, [])
  }

  predicate Valid(r: Response) {
    P.Valid(r.headers)
  }

  /** `setContent`: the content is replaced; status and headers are kept. */
  function SetContent(r: Response, content: string): (r': Response)
    ensures r'.content == content
    ensures r'.statusCode == r.statusCode && r'.headers == r.headers
  {
    r.(content := content)
  }

  /** `setStatusCode`: the status is replaced; content and headers are kept. */
  function SetStatusCode(r: Response, code: int): (r': Response)
    ensures r'.statusCode == code
    ensures r'.content == r.content && r'.headers == r.headers
  {
    r.(statusCode := code)
  }

  /** `addHeader`: the value is stored under the name, replacing any earlier one. */
  function AddHeader(r: Response, name: string, value: string): (r': Response)
    requires Valid(r)
    ensures Valid(r')
    ensures P.ToMap(r'.headers) == P.ToMap(r.headers)[name := value]
    ensures r'.content == r.content && r'.statusCode == r.statusCode
  {
    r.(headers := P.Set(r.headers, name, value))
  }

  /** `getHeader`: the stored value, or null for an unknown name. */
  function GetHeader(r: Response, name: string): (v: Option<string>)
    ensures name in P.ToMap(r.headers) <==> v.Some?
    ensures v.Some? ==> v.value == P.ToMap(r.headers)[name]
  {
    if P.Has(r.headers, name) then Some(P.Get(r.headers, name, "")) else None
  }

  // ---------------------------------------------------------------------------
  // Sending
  // ---------------------------------------------------------------------------

  /** What sending writes: a `header()` call, the status line, or the body. */
  datatype Emission =
    | HeaderLine(line: string, replace: bool, code: int)
    | StatusLine(code: int)
    | Body(text: string)

  /** The `"%s: %s"` line of one header. */
  function Format(name: string, value: string): string {
    name + ": " + value
  }

  function HeaderLines(es: seq<(string, string)>, code: int): (ls: seq<Emission>)
    ensures |ls| == |es|
  {
    seq(|es|, i requires 0 <= i < |es| => HeaderLine(Format(es[i].0, es[i].1), true, code))
  }

  /** `sendHeaders`: nothing when headers were already sent, else every header then the status. */
  function SendHeaders(r: Response, headersSent: bool): (out: seq<Emission>)
    ensures headersSent ==> out == []
    ensures !headersSent ==> |out| == |r.headers.entries| + 1 && out[|out| - 1] == StatusLine(r.statusCode)
    ensures forall e :: e in out ==> !e.Body?
  {
    if headersSent then [] else HeaderLines(r.headers.entries, r.statusCode) + [StatusLine(r.statusCode)]
  }

  /** `sendContent`: echo the content. */
  function SendContent(r: Response): (out: seq<Emission>)
    ensures |out| == 1 && out[0].Body? && out[0].text == r.content
  {
    [Body(r.content)]
  }

  /** `send`: headers, then content; the body is written once, last. */
  function Send(r: Response, headersSent: bool): (out: seq<Emission>)
    ensures |out| > 0 && out[|out| - 1] == Body(r.content)
    ensures forall i :: 0 <= i < |out| - 1 ==> !out[i].Body?
    ensures headersSent ==> out == [Body(r.content)]
  {
    SendHeaders(r, headersSent) + SendContent(r)
  }

  // ---------------------------------------------------------------------------
  // Properties
  // ---------------------------------------------------------------------------

  /** A fresh response has empty content, status 200 and no header. */
  lemma EmptyDefaults(name: string)
    ensures Empty().content == "" && Empty().statusCode == 200
    ensures GetHeader(Empty(), name) == None
  {
  }

  /** A header just added reads back (last write wins); other names read as before. */
  lemma AddThenGet(r: Response, name: string, v1: string, v2: string, other: string)
    requires Valid(r)
    ensures GetHeader(AddHeader(r, name, v1), name) == Some(v1)
    ensures GetHeader(AddHeader(AddHeader(r, name, v1), name, v2), name) == Some(v2)
    ensures other != name ==> GetHeader(AddHeader(r, name, v1), other) == GetHeader(r, other)
  {
  }

  /** Each setter changes its own field only. */
  lemma SettersAreIndependent(r: Response, content: string, code: int, name: string)
    ensures SetContent(r, content).content == content
    ensures SetContent(r, content).statusCode == r.statusCode
    ensures GetHeader(SetContent(r, content), name) == GetHeader(r, name)
    ensures SetStatusCode(r, code).statusCode == code
    ensures SetStatusCode(r, code).content == r.content
    ensures GetHeader(SetStatusCode(r, code), name) == GetHeader(r, name)
  {
  }

  /**
   * With headers not yet sent, every stored header is emitted as exactly one
   * line carrying the status code, nothing else is emitted before the status
   * line, and the body comes last.
   */
  lemma SendShape(r: Response)
    requires Valid(r)
    ensures var out := Send(r, false);
            var n := |r.headers.entries|;
            && |out| == P.Count(r.headers) + 2
            && out[n] == StatusLine(r.statusCode)
            && out[n + 1] == Body(r.content)
            && (forall i :: 0 <= i < n ==> out[i].HeaderLine? && out[i].replace && out[i].code == r.statusCode)
  {
  }

  /** Every header the response holds is among the emitted lines, with its stored value. */
  lemma {:induction false} EveryHeaderIsSent(r: Response, name: string)
    requires Valid(r)
    requires name in P.ToMap(r.headers)
    ensures HeaderLine(Format(name, P.ToMap(r.headers)[name]), true, r.statusCode) in Send(r, false)
  {
    var es := r.headers.entries;
    var i := IndexOfKey(es, name);
    P.FindPosition(es, i);
    assert Send(r, false)[i] == HeaderLine(Format(name, P.ToMap(r.headers)[name]), true, r.statusCode);
  }

  /** Nothing else is emitted: the i-th line is some stored header with its stored value. */
  lemma OnlyStoredHeadersAreSent(r: Response, i: nat)
    requires Valid(r)
    requires i < |r.headers.entries|
    ensures var k := r.headers.entries[i].0;
            && k in P.ToMap(r.headers)
            && Send(r, false)[i] == HeaderLine(Format(k, P.ToMap(r.headers)[k]), true, r.statusCode)
  {
    P.FindPosition(r.headers.entries, i);
  }

  /** The position of a key in an entry list. */
  lemma {:induction false} IndexOfKey(es: seq<(string, string)>, k: string) returns (i: nat)
    requires k in P.KeysOf(es)
    ensures i < |es| && es[i].0 == k
  {
    var ks := P.KeysOf(es);
    i :| 0 <= i < |ks| && ks[i] == k;
  }

  /** Once headers have been sent, `send` writes the body only. */
  lemma HeadersAlreadySent(r: Response)
    ensures Send(r, true) == [Body(r.content)]
  {
  }

  /** Adding a header twice still emits it once, with the later value. */
  lemma AddTwiceSendsOnce(r: Response, name: string, v1: string, v2: string)
    requires Valid(r)
    ensures var r' := AddHeader(AddHeader(r, name, v1), name, v2);
            && HeaderLine(Format(name, v2), true, r.statusCode) in Send(r', false)
            && |Send(r', false)| == |Send(AddHeader(r, name, v2), false)|
  {
    var r' := AddHeader(AddHeader(r, name, v1), name, v2);
    EveryHeaderIsSent(r', name);
    SendShape(r');
    SendShape(AddHeader(r, name, v2));
  }
}
