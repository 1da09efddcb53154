/**
 * What one `Requester._to` call does, as functions over a finite script of
 * transport answers.  This is the reference the imperative `Requester.To`
 * is proved against, and the place where the properties of the request
 * cycle are proved:
 *
 *   Call     builds the query string once (body-less verbs), then Loop;
 *   Loop     the `while (true)` rate-limit loop: repeats Attempt while it retries;
 *   Attempt  one pass: open and set up a connection, write the request,
 *            then the `try` block (Page) and its `catch` (Handle);
 *   Page     parse the answer and, for array targets, follow the next-page
 *            link with a nested Call and concatenate.
 *
 * The state threaded through is the transport position, the Requester's
 * `connection` field (the last connection opened, shared with nested calls)
 * and the raw request body stream.
 */
module Protocol {
  import opened Wire
  import opened Params
  import LinkHeader
  import Root
  import UrlEncoding

  /** What the caller asks `_to` to produce. */
  datatype Target<E> =
    | Discard            // neither a type nor an instance
    | ArrayOf            // an array type: the only pageable target
    | ObjectOf           // any other type
    | Into(instance: E)  // an existing instance to update

  /** What `_to` returns: null, an array, or one object. */
  datatype Value<E> = Null | Items(items: seq<E>) | Item(item: E)

  /** One Jackson read: a value (None for JSON `null`) or the exception it throws. */
  datatype Decoded<X> = Json(value: Option<X>) | BadMapping(detail: string) | BadSyntax(detail: string)

  /** The data binding, supplied by the caller: reading an array, an object, or into an instance. */
  datatype Codec<!E> = Codec(
    readArray: string -> Decoded<seq<E>>,
    readObject: string -> Decoded<E>,
    readInto: (E, string) -> Decoded<E>)

  /** The result of `_to`; `OutOfScript` when the transport has no further answer scripted. */
  datatype Outcome<E> = Returned(value: Value<E>) | Raised(failure: Failure) | OutOfScript

  /** The raw request body: none, a stream with these bytes still unread, or a closed stream. */
  datatype BodyState = NoBody | Unread(rest: seq<byte>) | Closed

  /** The Requester's configuration, which `_to` does not change. */
  datatype Plan = Plan(
    apiUrl: string,
    key: Option<string>,
    connected: bool,          // the root has a connector (it is null after `setConnector(null)`)
    args: seq<Entry>,
    headers: seq<Slot>,
    verb: string,
    contentType: string,
    forceBody: bool)

  datatype State = State(next: nat, connection: Option<Conn>, body: BodyState)

  const MethodsWithoutBody: seq<string> := ["GET", "DELETE"]

  /** `isMethodWithBody`: exact, case-sensitive comparison with the two body-less verbs. */
  predicate WithBody(p: Plan) {
    p.forceBody || p.verb !in MethodsWithoutBody
  }

  /** The `key` header when the root has a key. */
  function KeyHeader(key: Option<string>): seq<Header> {
    if key.Some? then [Header("key", key.value)] else []
  }

  const AcceptGzip: Header := Header("Accept-Encoding", "gzip")

  /**
   * The request properties `setupConnection` sets, in order: the key first,
   * `Accept-Encoding: gzip` last, and between them only caller headers with
   * a value.
   */
  function RequestHeaders(p: Plan): (hs: seq<Header>)
    ensures |hs| >= 1 && hs[|hs| - 1] == AcceptGzip
    ensures p.key.Some? ==> hs[0] == Header("key", p.key.value)
  {
    KeyHeader(p.key) + Present(p.headers) + [AcceptGzip]
  }

  /**
   * Between the key and `Accept-Encoding` come exactly the caller's headers
   * that have a value, in insertion order: none is invented, each one with a
   * value is sent at its rank in that segment, and an earlier one is sent
   * before a later one.
   */
  lemma CallerHeaders(p: Plan)
    ensures var hs := RequestHeaders(p);
      forall k :: |KeyHeader(p.key)| <= k < |hs| - 1 ==> Slot(hs[k].name, Some(hs[k].value)) in p.headers
    ensures var hs := RequestHeaders(p); var kh := |KeyHeader(p.key)|;
      forall k :: 0 <= k < |p.headers| && p.headers[k].value.Some? ==>
        kh + Rank(p.headers, k) < |hs| - 1 && hs[kh + Rank(p.headers, k)] == SentAs(p.headers[k])
    ensures forall i, j :: 0 <= i < j < |p.headers| && p.headers[i].value.Some? ==> Rank(p.headers, i) < Rank(p.headers, j)
  {
    var hs := RequestHeaders(p);
    var kh := KeyHeader(p.key);
    var ph := Present(p.headers);
    PresentHeaders(p.headers);
    PresentInOrder(p.headers);
    forall k | |kh| <= k < |hs| - 1 ensures Slot(hs[k].name, Some(hs[k].value)) in p.headers {
      assert hs[k] == ph[k - |kh|];
    }
    forall k | 0 <= k < |p.headers| && p.headers[k].value.Some?
      ensures |kh| + Rank(p.headers, k) < |hs| - 1 && hs[|kh| + Rank(p.headers, k)] == SentAs(p.headers[k])
    {
      assert hs[|kh| + Rank(p.headers, k)] == ph[Rank(p.headers, k)];
    }
  }

  /** The connection `setupConnection` leaves behind for one scripted answer. */
  function NewConnection(p: Plan, tail: string, response: Response): Conn {
    Conn(Root.ApiUrl(p.apiUrl, tail), RequestHeaders(p), p.verb, false, [], response)
  }

  /** The URL `_to` requests: with the query string appended for a body-less verb. */
  function RequestUrl(p: Plan, tail: string): Result<string> {
    if WithBody(p) then Ok(tail) else QueryUrl(tail, p.args)
  }

  /** After `buildRequest`: the connection, the body stream, and the exception it threw, if any. */
  datatype Built = Built(conn: Conn, body: BodyState, failure: Option<Failure>)

  /**
   * `buildRequest`: for a verb with a body, enable output, set `Content-type`
   * and write either the form body (UTF-8) or the whole raw stream, which is
   * then closed; reading a closed stream throws.
   */
  function Build(p: Plan, conn: Conn, body: BodyState): Built
  {
    if !WithBody(p) then Built(conn, body, None)
    else
      var c := conn.(doOutput := true, props := conn.props + [Header("Content-type", p.contentType)]);
      match body
      case NoBody =>
        (match FormBody(p.args)
         case Err(f) => Built(c, body, Some(f))
         case Ok(text) => Built(c.(output := c.output + UrlEncoding.Utf8String(text)), body, None))
      case Unread(rest) => Built(c.(output := c.output + rest), Closed, None)
      case Closed => Built(c, Closed, Some(StreamClosed))
  }

  /** The `HttpException(responseCode, responseMessage, url, cause)` that `parse` wraps checked exceptions in. */
  function Wrapped(code: int, message: Option<string>, conn: Conn, cause: Failure): Failure {
    HttpError(None, code, message, conn.url, Some(cause))
  }

  /** `wrapStream`: only no encoding or `gzip` are accepted. */
  predicate AcceptedEncoding(encoding: Option<string>) {
    encoding.None? || encoding.value == "gzip"
  }

  function FromArray<E>(d: Decoded<seq<E>>, code: int, message: Option<string>, conn: Conn, data: string): Result<Value<E>> {
    match d
    case Json(v) => Ok(if v.Some? then Items(v.value) else Null)
    case BadMapping(detail) =>
      Err(Wrapped(code, message, conn, IoError(Some("Failed to deserialize " + data), Some(JsonMapping(detail)))))
    case BadSyntax(detail) => Err(Wrapped(code, message, conn, JsonSyntax(detail)))
  }

  function FromObject<E>(d: Decoded<E>, code: int, message: Option<string>, conn: Conn, data: string): Result<Value<E>> {
    match d
    case Json(v) => Ok(if v.Some? then Item(v.value) else Null)
    case BadMapping(detail) =>
      Err(Wrapped(code, message, conn, IoError(Some("Failed to deserialize " + data), Some(JsonMapping(detail)))))
    case BadSyntax(detail) => Err(Wrapped(code, message, conn, JsonSyntax(detail)))
  }

  /** Reading into an instance has no handler of its own for mapping errors. */
  function FromUpdate<E>(d: Decoded<E>, code: int, message: Option<string>, conn: Conn): Result<Value<E>> {
    match d
    case Json(v) => Ok(if v.Some? then Item(v.value) else Null)
    case BadMapping(detail) => Err(Wrapped(code, message, conn, JsonMapping(detail)))
    case BadSyntax(detail) => Err(Wrapped(code, message, conn, JsonSyntax(detail)))
  }

  /** A `FileNotFoundException` passes through, other checked exceptions are wrapped, runtime ones escape. */
  function Caught(code: int, message: Option<string>, conn: Conn, e: Failure): Failure {
    if e.NotFound? || !e.IsIOException() then e else Wrapped(code, message, conn, e)
  }

  /**
   * `parse`: the status first (304 gives null without reading anything, 204
   * gives an empty array for array targets), then the body, decoded
   * according to the target.  Every checked exception that leaves is a
   * `FileNotFoundException` or an `HttpException`.
   */
  function Parse<E>(conn: Conn, target: Target<E>, codec: Codec<E>): (r: Result<Value<E>>)
    ensures r.Err? && r.failure.IsIOException() ==> r.failure.NotFound? || r.failure.HttpError?
    ensures r.Ok? && target.ArrayOf? ==> r.value.Null? || r.value.Items?
    ensures r.Ok? && target.Discard? ==> r.value.Null?
  {
    var response := conn.response;
    match response.status
    case Unreadable(e) => Err(Caught(-1, None, conn, e))
    case Status(code, message) =>
      if code == 304 then Ok(Null)
      else if code == 204 && target.ArrayOf? then Ok(Items([]))
      else match response.input
        case Fails(e) => Err(Caught(code, message, conn, e))
        case Text(data) =>
          if !AcceptedEncoding(response.encoding) then Err(UnsupportedEncoding(response.encoding.value))
          else match target
            case ArrayOf => FromArray(codec.readArray(data), code, message, conn, data)
            case ObjectOf => FromObject(codec.readObject(data), code, message, conn, data)
            case Into(instance) => FromUpdate(codec.readInto(instance, data), code, message, conn)
            case Discard => Ok(Null)
  }

  /** Whether `handleApiError` returns normally (retry) or throws. */
  datatype Decision = Retry | Throw(failure: Failure)

  /**
   * `handleApiError` gets as far as reading the error stream: the status is
   * readable, it is not 401, and the answer is not a rate-limit to retry.
   */
  predicate ReadsErrorStream(response: Response) {
    && response.status.Status? && response.status.code != 401
    && !(response.status.code == 403 && response.HeaderField("Retry-After").Some?)
    && response.errorStream.Some?
  }

  /**
   * `f` is `e` with the error text as its message: an exception of the same
   * kind (`FileNotFoundException`, `HttpException` with `e`'s code, response
   * message and URL, or else `IOException`) whose cause is `e`.
   */
  predicate CarriesErrorText(f: Failure, e: Failure, error: string) {
    && (f.IoError? || f.NotFound? || f.HttpError?)
    && f.message == Some(error) && f.cause == Some(e)
    && (f.NotFound? <==> e.NotFound?)
    && (f.HttpError? <==> e.HttpError?)
    && (f.HttpError? ==> f.code == e.code && f.responseMessage == e.responseMessage && f.url == e.url)
  }

  /**
   * `handleApiError(e)` on the Requester's current connection: 403 with
   * `Retry-After` retries; an unreadable status, 401, or a missing error
   * stream rethrow `e`; otherwise an error stream in an unexpected encoding
   * is refused, and a readable one replaces the message in an exception of
   * `e`'s kind whose cause is `e`.
   */
  function HandleApiError(conn: Conn, e: Failure): (d: Decision)
    requires e.IsIOException()
    ensures d.Retry? <==>
      conn.response.status.Status? && conn.response.status.code == 403 && conn.response.HeaderField("Retry-After").Some?
    ensures !d.Retry? && !ReadsErrorStream(conn.response) ==> d == Throw(e)
    ensures ReadsErrorStream(conn.response) && !AcceptedEncoding(conn.response.encoding) ==>
      d == Throw(UnsupportedEncoding(conn.response.encoding.value))
    ensures ReadsErrorStream(conn.response) && AcceptedEncoding(conn.response.encoding) ==>
      d.Throw? && CarriesErrorText(d.failure, e, conn.response.errorStream.value)
  {
    var response := conn.response;
    match response.status
    case Unreadable(_) => Throw(e)
    case Status(code, _) =>
      if code == 401 then Throw(e)
      else if code == 403 && response.HeaderField("Retry-After").Some? then Retry
      else match response.errorStream
        case None => Throw(e)
        case Some(error) =>
          if !AcceptedEncoding(response.encoding) then Throw(UnsupportedEncoding(response.encoding.value))
          else if e.NotFound? then Throw(NotFound(Some(error), Some(e)))
          else if e.HttpError? then Throw(HttpError(Some(error), e.code, e.responseMessage, e.url, Some(e)))
          else Throw(IoError(Some(error), Some(e)))
  }

  /** The next-page link: the `link` header must contain `rel="next"` and match the pattern. */
  function NextPage(response: Response): Option<string> {
    match response.HeaderField("link")
    case None => None
    case Some(links) => if LinkHeader.Contains(links, "rel=\"next\"") then LinkHeader.NextLink(links) else None
  }

  /** The page array followed by the rest; `Array.getLength(null)` throws. */
  function Concat<E>(v: Value<E>, w: Value<E>): (r: Result<Value<E>>)
    ensures r.Ok? <==> v.Items? && w.Items?
    ensures r.Ok? ==> r.value == Items(v.items + w.items)
    ensures r.Err? ==> r.failure == NullPointer
  {
    if v.Items? && w.Items? then Ok(Items(v.items + w.items)) else Err(NullPointer)
  }

  /** One pass of the loop: either it ends `_to`, or `handleApiError` returned and the loop goes on. */
  datatype Turn<E> = Finished(outcome: Outcome<E>, state: State) | Again(state: State)

  /** The `catch (IOException e) { handleApiError(e); }` around the `try` block. */
  function Handle<E>(o: Outcome<E>, st: State): (t: Turn<E>)
    requires st.connection.Some?
    ensures t.state == st
    ensures !(o.Raised? && o.failure.IsIOException()) ==> t == Finished(o, st)
    ensures o.Raised? && o.failure.IsIOException() ==>
      (t.Again? <==> HandleApiError(st.connection.value, o.failure).Retry?)
    ensures o.Raised? && o.failure.IsIOException() && t.Finished? ==>
      t.outcome == Raised(HandleApiError(st.connection.value, o.failure).failure)
  {
    if o.Raised? && o.failure.IsIOException() then
      match HandleApiError(st.connection.value, o.failure)
      case Retry => Again(st)
      case Throw(f) => Finished(Raised(f), st)
    else Finished(o, st)
  }

  /** `_to`. */
  function Call<E>(p: Plan, tail: string, target: Target<E>, codec: Codec<E>, script: seq<Exchange>, st: State)
    : (r: (Outcome<E>, State))
    requires st.next <= |script|
    ensures st.next <= r.1.next <= |script|
    ensures st.connection.Some? ==> r.1.connection.Some?
    decreases |script| - st.next, 2
  {
    match RequestUrl(p, tail)
    case Err(f) => (Raised(f), st)
    case Ok(url) => Loop(p, url, target, codec, script, st)
  }

  /** The `while (true)` loop of `_to`, on the URL built before it. */
  function Loop<E>(p: Plan, url: string, target: Target<E>, codec: Codec<E>, script: seq<Exchange>, st: State)
    : (r: (Outcome<E>, State))
    requires st.next <= |script|
    ensures st.next <= r.1.next <= |script|
    ensures st.connection.Some? ==> r.1.connection.Some?
    decreases |script| - st.next, 1
  {
    match Attempt(p, url, target, codec, script, st)
    case Finished(o, st') => (o, st')
    case Again(st') => Loop(p, url, target, codec, script, st')
  }

  /** One pass of the loop body. */
  function Attempt<E>(p: Plan, url: string, target: Target<E>, codec: Codec<E>, script: seq<Exchange>, st: State)
    : (t: Turn<E>)
    requires st.next <= |script|
    ensures st.next <= t.state.next <= |script|
    ensures t.Again? ==> st.next < t.state.next
    ensures st.connection.Some? ==> t.state.connection.Some?
    decreases |script| - st.next, 0
  {
    if !p.connected then Finished(Raised(NullPointer), st)
    else if st.next == |script| then Finished(OutOfScript, st)
    else
      match script[st.next]
      case Refused(f) => Finished(Raised(f), st.(next := st.next + 1))
      case Reply(response) =>
        Written(p, target, codec, script, st.(next := st.next + 1), Build(p, NewConnection(p, url, response), st.body))
  }

  /**
   * After `buildRequest`, on the connection it wrote: an exception from
   * writing ends the pass (it is thrown outside the `try` block); otherwise
   * the `try` block and its `catch`.
   */
  function Written<E>(p: Plan, target: Target<E>, codec: Codec<E>, script: seq<Exchange>, st: State, b: Built)
    : (t: Turn<E>)
    requires st.next <= |script|
    ensures st.next <= t.state.next <= |script|
    ensures t.state.connection.Some?
    decreases |script| - st.next, 4
  {
    var st2 := st.(connection := Some(b.conn), body := b.body);
    if b.failure.Some? then Finished(Raised(b.failure.value), st2)
    else
      var r := Page(p, target, codec, script, st2, b.conn);
      Handle(r.0, r.1)
  }

  /** The `try` block: parse, then for an array target follow the next-page link. */
  function Page<E>(p: Plan, target: Target<E>, codec: Codec<E>, script: seq<Exchange>, st: State, conn: Conn)
    : (r: (Outcome<E>, State))
    requires st.next <= |script|
    ensures st.next <= r.1.next <= |script|
    ensures st.connection.Some? ==> r.1.connection.Some?
    decreases |script| - st.next, 3
  {
    match Parse(conn, target, codec)
    case Err(e) => (Raised(e), st)
    case Ok(v) =>
      if !target.ArrayOf? || NextPage(conn.response).None? then (Returned(v), st)
      else
        var (o, st') := Call(p, NextPage(conn.response).value, target, codec, script, st);
        if o.Returned? then
          match Concat(v, o.value)
          case Ok(w) => (Returned(w), st')
          case Err(f) => (Raised(f), st')
        else (o, st')
  }

  // ---------------------------------------------------------------------------
  // Properties of the request cycle

  /** Writing the request changes neither the URL nor the response of the connection. */
  lemma BuildKeeps(p: Plan, conn: Conn, body: BodyState)
    ensures Build(p, conn, body).conn.url == conn.url
    ensures Build(p, conn, body).conn.response == conn.response
  {
  }

  /**
   * What `buildRequest` does to the connection: nothing for a body-less
   * verb; otherwise output is enabled and `Content-type` set, a raw stream is
   * written whole and closed, and it throws exactly on an empty form or a
   * closed stream.
   */
  lemma BuildEffects(p: Plan, conn: Conn, body: BodyState)
    ensures var r := Build(p, conn, body);
      && (!WithBody(p) ==> r == Built(conn, body, None))
      && (WithBody(p) ==> r.conn.doOutput && r.conn.props == conn.props + [Header("Content-type", p.contentType)])
    ensures var r := Build(p, conn, body);
      && (r.failure.Some? <==> WithBody(p) && (body.Closed? || (body.NoBody? && p.args == [])))
      && (r.failure.Some? ==> r.failure.value == if body.Closed? then StreamClosed else IndexOutOfBounds(-1))
    ensures WithBody(p) && body.Unread? ==>
      Build(p, conn, body).body == Closed && Build(p, conn, body).conn.output == conn.output + body.rest
  {
  }

  /** With no raw body, a verb with a body writes the form text, UTF-8 encoded, on a fresh connection. */
  lemma FormWritten(p: Plan, conn: Conn)
    requires WithBody(p) && FormBody(p.args).Ok? && conn.output == []
    ensures Build(p, conn, NoBody).failure.None?
    ensures Build(p, conn, NoBody).conn.output == UrlEncoding.Utf8String(FormBody(p.args).value)
  {
  }

  /** One pass on a scripted reply, step by step: set up, write, then the `try` block and its `catch`. */
  lemma PassOnReply<E>(p: Plan, url: string, target: Target<E>, codec: Codec<E>, script: seq<Exchange>, st: State)
    requires p.connected && st.next < |script| && script[st.next].Reply?
    ensures var b := Build(p, NewConnection(p, url, script[st.next].response), st.body);
      var st2 := st.(next := st.next + 1, connection := Some(b.conn), body := b.body);
      Attempt(p, url, target, codec, script, st) ==
        if b.failure.Some? then Finished(Raised(b.failure.value), st2)
        else var r := Page(p, target, codec, script, st2, b.conn); Handle(r.0, r.1)
  {
    var response := script[st.next].response;
    var b := Build(p, NewConnection(p, url, response), st.body);
    assert script[st.next] == Reply(response);
    assert Attempt(p, url, target, codec, script, st) == Written(p, target, codec, script, st.(next := st.next + 1), b);
  }

  /** A body-less verb is exactly `GET` or `DELETE`, compared case-sensitively. */
  lemma VerbCaseSensitive(p: Plan)
    ensures WithBody(p) <==> p.forceBody || (p.verb != "GET" && p.verb != "DELETE")
    ensures p.verb == "get" ==> WithBody(p)
  {
  }

  /**
   * 304 gives null whatever the body and its encoding; 204 gives an empty
   * array to an array target whatever the body.
   */
  lemma StatusShortcuts<E>(conn: Conn, target: Target<E>, codec: Codec<E>, input: Stream, encoding: Option<string>)
    requires conn.response.status.Status?
    ensures var other := conn.(response := conn.response.(input := input, encoding := encoding));
      conn.response.status.code == 304 ==> Parse(other, target, codec) == Ok(Null)
    ensures var other := conn.(response := conn.response.(input := input, encoding := encoding));
      conn.response.status.code == 204 && target.ArrayOf? ==> Parse(other, target, codec) == Ok(Items([]))
  {
  }

  /** With neither a type nor an instance the body is still read: its failure is reported, its text ignored. */
  lemma DiscardReadsBody<E>(conn: Conn, codec: Codec<E>)
    requires conn.response.status.Status? && conn.response.status.code != 304
    ensures conn.response.input.Fails? ==> Parse(conn, Discard, codec).Err?
    ensures conn.response.input.Text? && AcceptedEncoding(conn.response.encoding) ==> Parse(conn, Discard, codec) == Ok(Null)
    ensures !AcceptedEncoding(conn.response.encoding) ==> Parse(conn, Discard, codec).Err?
  {
  }

  /**
   * `wrapStream`: a body in an encoding other than `gzip` is refused with an
   * unchecked exception, which `handleApiError` never sees.
   */
  lemma UnexpectedEncoding<E>(conn: Conn, target: Target<E>, codec: Codec<E>)
    requires conn.response.status.Status? && conn.response.status.code != 304
    requires !(conn.response.status.code == 204 && target.ArrayOf?)
    requires conn.response.input.Text? && !AcceptedEncoding(conn.response.encoding)
    ensures Parse(conn, target, codec) == Err(UnsupportedEncoding(conn.response.encoding.value))
    ensures !Parse(conn, target, codec).failure.IsIOException()
  {
  }

  /** A gzip body reads as the same text uncompressed: decompression is the transport's business. */
  lemma GzipTransparent<E>(conn: Conn, target: Target<E>, codec: Codec<E>)
    requires conn.response.encoding == Some("gzip")
    ensures Parse(conn, target, codec) == Parse(conn.(response := conn.response.(encoding := None)), target, codec)
  {
  }

  /** The `contains("rel=\"next\"")` test rejects nothing the pattern accepts. */
  lemma NextPageIsPattern(response: Response)
    ensures NextPage(response) ==
      if response.HeaderField("link").Some? then LinkHeader.NextLink(response.HeaderField("link").value) else None
  {
    if response.HeaderField("link").Some? {
      var links := response.HeaderField("link").value;
      if LinkHeader.NextLink(links).Some? {
        LinkHeader.MatchImpliesContains(links);
      }
    }
  }

  /**
   * 401 ends the run: the `HttpException` that `parse` made of the failed
   * body read is rethrown as it is, without retry and without reading the
   * error stream.
   */
  lemma UnauthorizedEndsRun<E>(p: Plan, url: string, target: Target<E>, codec: Codec<E>, script: seq<Exchange>, st: State)
    requires p.connected && st.next < |script| && script[st.next].Reply?
    requires var response := script[st.next].response;
      response.status.Status? && response.status.code == 401 && response.input.Fails?
      && response.input.failure.IsIOException() && !response.input.failure.NotFound?
    requires Build(p, NewConnection(p, url, script[st.next].response), st.body).failure.None?
    ensures var response := script[st.next].response;
      Loop(p, url, target, codec, script, st).0 ==
        Raised(HttpError(None, 401, response.status.message, Root.ApiUrl(p.apiUrl, url), Some(response.input.failure)))
  {
    var response := script[st.next].response;
    var b := Build(p, NewConnection(p, url, response), st.body);
    BuildKeeps(p, NewConnection(p, url, response), st.body);
    var e := Wrapped(401, response.status.message, b.conn, response.input.failure);
    var st2 := st.(next := st.next + 1, connection := Some(b.conn), body := b.body);
    assert Page(p, target, codec, script, st2, b.conn) == (Raised(e), st2) by {
      assert Parse(b.conn, target, codec) == Err(e);
    }
    assert HandleApiError(b.conn, e) == Throw(e);
    assert Attempt(p, url, target, codec, script, st) == Finished(Raised(e), st2) by {
      PassOnReply(p, url, target, codec, script, st);
    }
  }

  /**
   * A rate-limited answer: 403 with `Retry-After`, and reading the body
   * throws a checked exception (as `HttpURLConnection` does for 4xx).
   */
  predicate Throttled(response: Response) {
    && response.status.Status? && response.status.code == 403
    && response.HeaderField("Retry-After").Some?
    && response.input.Fails? && response.input.failure.IsIOException()
  }

  /** Writing the request again leaves the body state as it was: no raw stream is consumed. */
  predicate Resendable(p: Plan, st: State) {
    !WithBody(p) || (st.body.NoBody? && p.args != [])
  }

  /** Writing the request again succeeds and leaves the body state as it was. */
  lemma ResendableBuild(p: Plan, conn: Conn, st: State)
    requires Resendable(p, st)
    ensures Build(p, conn, st.body).failure.None? && Build(p, conn, st.body).body == st.body
  {
  }

  /** A rate-limited answer: reading it throws, and `handleApiError` returns normally. */
  lemma ThrottledHandled<E>(p: Plan, target: Target<E>, codec: Codec<E>, script: seq<Exchange>, st: State, conn: Conn)
    requires st.next <= |script| && st.connection == Some(conn) && Throttled(conn.response)
    ensures var r := Page(p, target, codec, script, st, conn); Handle(r.0, r.1) == Again(st)
  {
    var c := Caught(403, conn.response.status.message, conn, conn.response.input.failure);
    assert Parse(conn, target, codec) == Err(c);
    assert c.IsIOException() && HandleApiError(conn, c) == Retry;
  }

  /** A rate-limited answer makes `handleApiError` return, and the loop goes round again. */
  lemma ThrottledRetries<E>(p: Plan, url: string, target: Target<E>, codec: Codec<E>, script: seq<Exchange>, st: State)
    requires p.connected && st.next < |script| && script[st.next].Reply? && Throttled(script[st.next].response)
    requires Build(p, NewConnection(p, url, script[st.next].response), st.body).failure.None?
    ensures var t := Attempt(p, url, target, codec, script, st);
      && t.Again? && t.state.next == st.next + 1
      && t.state.body == Build(p, NewConnection(p, url, script[st.next].response), st.body).body
  {
    var response := script[st.next].response;
    var b := Build(p, NewConnection(p, url, response), st.body);
    var st2 := st.(next := st.next + 1, connection := Some(b.conn), body := b.body);
    assert Throttled(b.conn.response) by {
      BuildKeeps(p, NewConnection(p, url, response), st.body);
    }
    ThrottledHandled(p, target, codec, script, st2, b.conn);
    PassOnReply(p, url, target, codec, script, st);
  }

  /** When a pass ends in a retry, the loop continues from the state that pass left. */
  lemma LoopAgain<E>(p: Plan, url: string, target: Target<E>, codec: Codec<E>, script: seq<Exchange>, st: State)
    requires st.next <= |script| && Attempt(p, url, target, codec, script, st).Again?
    ensures Loop(p, url, target, codec, script, st) ==
      Loop(p, url, target, codec, script, Attempt(p, url, target, codec, script, st).state)
  {
  }

  /** A pass opens its own connection before anything reads the current one. */
  lemma AttemptIgnoresConnection<E>(p: Plan, url: string, target: Target<E>, codec: Codec<E>, script: seq<Exchange>,
                                    st: State, c: Option<Conn>)
    requires st.next <= |script|
    ensures var t1 := Attempt(p, url, target, codec, script, st);
      var t2 := Attempt(p, url, target, codec, script, st.(connection := c));
      && (t1.Again? <==> t2.Again?)
      && (t1.Again? ==> t1 == t2)
      && (t1.Finished? ==> t1.outcome == t2.outcome)
  {
    if p.connected && st.next < |script| && script[st.next].Reply? {
      var b := Build(p, NewConnection(p, url, script[st.next].response), st.body);
      var s2 := st.(next := st.next + 1, connection := Some(b.conn), body := b.body);
      assert st.(connection := c).(next := st.next + 1, connection := Some(b.conn), body := b.body) == s2;
      PassOnReply(p, url, target, codec, script, st);
      PassOnReply(p, url, target, codec, script, st.(connection := c));
      assert Attempt(p, url, target, codec, script, st) == Attempt(p, url, target, codec, script, st.(connection := c));
    }
  }

  /** Which connection was opened last does not change what the loop returns. */
  lemma ConnectionIrrelevant<E>(p: Plan, url: string, target: Target<E>, codec: Codec<E>, script: seq<Exchange>,
                                st: State, c: Option<Conn>)
    requires st.next <= |script|
    ensures Loop(p, url, target, codec, script, st).0 == Loop(p, url, target, codec, script, st.(connection := c)).0
  {
    var t1 := Attempt(p, url, target, codec, script, st);
    var t2 := Attempt(p, url, target, codec, script, st.(connection := c));
    AttemptIgnoresConnection(p, url, target, codec, script, st, c);
    assert Loop(p, url, target, codec, script, st) ==
      (if t1.Finished? then (t1.outcome, t1.state) else Loop(p, url, target, codec, script, t1.state));
    assert Loop(p, url, target, codec, script, st.(connection := c)) ==
      (if t2.Finished? then (t2.outcome, t2.state) else Loop(p, url, target, codec, script, t2.state));
  }

  /** One rate-limited pass of a resendable request: the run ends as one that starts at the next answer. */
  lemma ThrottledStep<E>(p: Plan, url: string, target: Target<E>, codec: Codec<E>, script: seq<Exchange>, st: State)
    requires p.connected && st.next < |script| && Resendable(p, st)
    requires script[st.next].Reply? && Throttled(script[st.next].response)
    ensures Loop(p, url, target, codec, script, st).0 == Loop(p, url, target, codec, script, st.(next := st.next + 1)).0
  {
    var s1 := Attempt(p, url, target, codec, script, st).state;
    assert s1.next == st.next + 1 && s1.body == st.body
        && Loop(p, url, target, codec, script, st) == Loop(p, url, target, codec, script, s1) by {
      ResendableBuild(p, NewConnection(p, url, script[st.next].response), st);
      ThrottledRetries(p, url, target, codec, script, st);
      LoopAgain(p, url, target, codec, script, st);
    }
    assert s1 == st.(next := st.next + 1).(connection := s1.connection);
    ConnectionIrrelevant(p, url, target, codec, script, st.(next := st.next + 1), s1.connection);
  }

  /**
   * The rate-limit retry: a run whose first `n` answers are rate-limited
   * ends exactly as a run that starts after them.  The outcome is decided by
   * the first answer that is not a retry.
   */
  lemma {:induction false} ThrottledSkipped<E>(p: Plan, url: string, target: Target<E>, codec: Codec<E>,
                                               script: seq<Exchange>, st: State, n: nat)
    requires p.connected && st.next + n <= |script| && Resendable(p, st)
    requires forall k :: st.next <= k < st.next + n ==> script[k].Reply? && Throttled(script[k].response)
    ensures Loop(p, url, target, codec, script, st).0 == Loop(p, url, target, codec, script, st.(next := st.next + n)).0
    decreases n
  {
    if n > 0 {
      var s1 := st.(next := st.next + 1);
      ThrottledStep(p, url, target, codec, script, st);
      ThrottledSkipped(p, url, target, codec, script, s1, n - 1);
      assert s1.(next := s1.next + (n - 1)) == st.(next := st.next + n);
    } else {
      assert st.(next := st.next + n) == st;
    }
  }

  /**
   * A raw body stream is written once: when the first answer is rate-limited
   * the retry reads the closed stream and the run fails with that error.
   */
  lemma RawBodyNotResent<E>(p: Plan, url: string, target: Target<E>, codec: Codec<E>, script: seq<Exchange>,
                            st: State, rest: seq<byte>)
    requires p.connected && WithBody(p) && st.body == Unread(rest)
    requires st.next + 1 < |script| && script[st.next].Reply? && Throttled(script[st.next].response)
    requires script[st.next + 1].Reply?
    ensures Loop(p, url, target, codec, script, st).0 == Raised(StreamClosed)
  {
    ThrottledRetries(p, url, target, codec, script, st);
    var s1 := Attempt(p, url, target, codec, script, st).state;
    assert s1.body == Closed && s1.next == st.next + 1;
    LoopAgain(p, url, target, codec, script, st);
    var b2 := Build(p, NewConnection(p, url, script[s1.next].response), Closed);
    assert b2.failure == Some(StreamClosed);
    PassOnReply(p, url, target, codec, script, s1);
  }

  /**
   * A page without a next link: the nested call returns what that page
   * parses to, and leaves its connection as the current one.
   */
  lemma LastPage<E>(p: Plan, link: string, codec: Codec<E>, script: seq<Exchange>, st: State, v: Value<E>)
    requires p.connected && RequestUrl(p, link).Ok? && st.next < |script| && script[st.next].Reply?
    requires NextPage(script[st.next].response).None?
    requires var b := Build(p, NewConnection(p, RequestUrl(p, link).value, script[st.next].response), st.body);
      b.failure.None? && Parse(b.conn, ArrayOf, codec) == Ok(v)
    ensures var b := Build(p, NewConnection(p, RequestUrl(p, link).value, script[st.next].response), st.body);
      Call(p, link, ArrayOf, codec, script, st) == (Returned(v), st.(next := st.next + 1, connection := Some(b.conn), body := b.body))
  {
    var url := RequestUrl(p, link).value;
    var b := Build(p, NewConnection(p, url, script[st.next].response), st.body);
    var st2 := st.(next := st.next + 1, connection := Some(b.conn), body := b.body);
    assert Page(p, ArrayOf, codec, script, st2, b.conn) == (Returned(v), st2) by {
      BuildKeeps(p, NewConnection(p, url, script[st.next].response), st.body);
    }
    assert Attempt(p, url, ArrayOf, codec, script, st) == Finished(Returned(v), st2) by {
      PassOnReply(p, url, ArrayOf, codec, script, st);
    }
  }

  /** A readable 200 answer whose body reads as the array `xs`. */
  ghost predicate ArrayPage<E>(response: Response, codec: Codec<E>, xs: seq<E>) {
    && response.status.Status? && response.status.code == 200
    && response.input.Text? && AcceptedEncoding(response.encoding)
    && codec.readArray(response.input.text) == Json(Some(xs))
  }

  /**
   * A first page with a next link: the pass follows the link with a nested
   * `_to` and appends what it returns; an exception from the nested call is
   * handled against the connection it left.
   */
  lemma FollowPage<E>(p: Plan, url: string, codec: Codec<E>, script: seq<Exchange>, st: State, xs: seq<E>)
    requires p.connected && st.next < |script| && script[st.next].Reply?
    requires ArrayPage(script[st.next].response, codec, xs) && NextPage(script[st.next].response).Some?
    requires Build(p, NewConnection(p, url, script[st.next].response), st.body).failure.None?
    ensures var b := Build(p, NewConnection(p, url, script[st.next].response), st.body);
      var st2 := st.(next := st.next + 1, connection := Some(b.conn), body := b.body);
      var r := Call(p, NextPage(script[st.next].response).value, ArrayOf, codec, script, st2);
      Attempt(p, url, ArrayOf, codec, script, st) ==
        Handle(if !r.0.Returned? then r.0
               else if r.0.value.Items? then Returned(Items(xs + r.0.value.items))
               else Raised(NullPointer), r.1)
  {
    var response := script[st.next].response;
    var b := Build(p, NewConnection(p, url, response), st.body);
    assert Parse(b.conn, ArrayOf, codec) == Ok(Items(xs)) && NextPage(b.conn.response) == NextPage(response) by {
      BuildKeeps(p, NewConnection(p, url, response), st.body);
    }
    PassOnReply(p, url, ArrayOf, codec, script, st);
  }

  /**
   * Pagination: when the first page links to a second, the result is the
   * first page's items followed by the second's, and the last connection is
   * the one to the linked URL.
   */
  lemma TwoPages<E>(p: Plan, tail: string, codec: Codec<E>, script: seq<Exchange>, st: State,
                    xs: seq<E>, ys: seq<E>)
    requires p.connected && RequestUrl(p, tail).Ok?
    requires st.next + 2 <= |script| && script[st.next].Reply? && script[st.next + 1].Reply?
    requires ArrayPage(script[st.next].response, codec, xs) && NextPage(script[st.next].response).Some?
    requires RequestUrl(p, NextPage(script[st.next].response).value).Ok?
    requires ArrayPage(script[st.next + 1].response, codec, ys) && NextPage(script[st.next + 1].response).None?
    requires Build(p, NewConnection(p, RequestUrl(p, tail).value, script[st.next].response), st.body).failure.None?
    requires Build(p, NewConnection(p, RequestUrl(p, NextPage(script[st.next].response).value).value,
                                    script[st.next + 1].response),
                   Build(p, NewConnection(p, RequestUrl(p, tail).value, script[st.next].response), st.body).body).failure.None?
    ensures var r := Call(p, tail, ArrayOf, codec, script, st);
      var link := NextPage(script[st.next].response).value;
      && r.0 == Returned(Items(xs + ys))
      && r.1.next == st.next + 2
      && r.1.connection.Some? && r.1.connection.value.url == Root.ApiUrl(p.apiUrl, RequestUrl(p, link).value)
  {
    var r1 := script[st.next].response;
    var r2 := script[st.next + 1].response;
    var url := RequestUrl(p, tail).value;
    var link := NextPage(r1).value;
    var b1 := Build(p, NewConnection(p, url, r1), st.body);
    var st2 := st.(next := st.next + 1, connection := Some(b1.conn), body := b1.body);
    var b2 := Build(p, NewConnection(p, RequestUrl(p, link).value, r2), b1.body);
    var st3 := st2.(next := st2.next + 1, connection := Some(b2.conn), body := b2.body);
    assert Call(p, link, ArrayOf, codec, script, st2) == (Returned(Items(ys)), st3) by {
      BuildKeeps(p, NewConnection(p, RequestUrl(p, link).value, r2), b1.body);
      assert Parse(b2.conn, ArrayOf, codec) == Ok(Items(ys));
      assert st2.next == st.next + 1 && st2.body == b1.body;
      LastPage(p, link, codec, script, st2, Items(ys));
    }
    assert Attempt(p, url, ArrayOf, codec, script, st) == Finished(Returned(Items(xs + ys)), st3) by {
      FollowPage(p, url, codec, script, st, xs);
    }
    assert b2.conn.url == Root.ApiUrl(p.apiUrl, RequestUrl(p, link).value) by {
      BuildKeeps(p, NewConnection(p, RequestUrl(p, link).value, r2), b1.body);
    }
  }

  /**
   * For a body-less verb the request to a next-page link carries the
   * parameters again, after the link's own query string if it has one.
   */
  lemma NextPageRepeatsQuery(p: Plan, link: string)
    requires !WithBody(p) && p.args != [] && AllPresent(p.args)
    ensures RequestUrl(p, link) == Ok(link + [if '?' in link then '&' else '?'] + Join(QueryPieces(p.args), "&"))
    ensures '?' in link ==> RequestUrl(p, link).value[..|link| + 1] == link + "&"
  {
    var q := Join(QueryPieces(p.args), "&");
    if '?' in link {
      assert (link + "&" + q)[..|link| + 1] == link + "&";
    }
  }

  /** A next page answered with 304 reads as null, and concatenating with null throws (it is not retried). */
  lemma NotModifiedNextPage<E>(p: Plan, tail: string, codec: Codec<E>, script: seq<Exchange>, st: State, xs: seq<E>)
    requires p.connected && RequestUrl(p, tail).Ok?
    requires st.next + 2 <= |script| && script[st.next].Reply? && script[st.next + 1].Reply?
    requires ArrayPage(script[st.next].response, codec, xs) && NextPage(script[st.next].response).Some?
    requires RequestUrl(p, NextPage(script[st.next].response).value).Ok?
    requires script[st.next + 1].response.status.Status? && script[st.next + 1].response.status.code == 304
    requires NextPage(script[st.next + 1].response).None?
    requires Build(p, NewConnection(p, RequestUrl(p, tail).value, script[st.next].response), st.body).failure.None?
    requires Build(p, NewConnection(p, RequestUrl(p, NextPage(script[st.next].response).value).value,
                                    script[st.next + 1].response),
                   Build(p, NewConnection(p, RequestUrl(p, tail).value, script[st.next].response), st.body).body).failure.None?
    ensures Call(p, tail, ArrayOf, codec, script, st).0 == Raised(NullPointer)
  {
    var r1 := script[st.next].response;
    var r2 := script[st.next + 1].response;
    var url := RequestUrl(p, tail).value;
    var link := NextPage(r1).value;
    var b1 := Build(p, NewConnection(p, url, r1), st.body);
    var st2 := st.(next := st.next + 1, connection := Some(b1.conn), body := b1.body);
    var b2 := Build(p, NewConnection(p, RequestUrl(p, link).value, r2), b1.body);
    var st3 := st2.(next := st2.next + 1, connection := Some(b2.conn), body := b2.body);
    assert Call(p, link, ArrayOf, codec, script, st2) == (Returned(Null), st3) by {
      BuildKeeps(p, NewConnection(p, RequestUrl(p, link).value, r2), b1.body);
      assert Parse(b2.conn, ArrayOf, codec) == Ok(Null);
      assert st2.next == st.next + 1 && st2.body == b1.body;
      LastPage(p, link, codec, script, st2, Null);
    }
    FollowPage(p, url, codec, script, st, xs);
    assert Handle<E>(Raised(NullPointer), st3) == Finished(Raised(NullPointer), st3);
  }
}
