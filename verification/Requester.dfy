/**
 * The `Requester` engine: a builder that accumulates parameters and headers
 * in place, then `To` (`_to`) sends the request over the transport, retries
 * while the API is rate-limited, parses the answer and follows next-page
 * links.  Every state-changing method states its new state, and `To` is
 * proved to compute exactly `Protocol.Call`.
 */
module Requester {
  import opened Wire
  import opened Params
  import Protocol
  import Root
  import UrlEncoding

  /** Size of the buffer a raw body is copied through. */
  const ChunkSize: nat := 32768

  const FormContentType: string := "application/x-www-form-urlencoded"

  /**
   * A request body stream holding `data`, read from `pos`.  `read` returns
   * as many bytes as fit, -1 at the end, and throws once the stream is closed.
   */
  class RawBody {
    var data: seq<byte>
    var pos: nat
    var closed: bool

    ghost predicate Valid()
      reads this
    {
      pos <= |data|
    }

    constructor(data: seq<byte>)
      ensures Valid() && this.data == data && pos == 0 && !closed
    {
      this.data := data;
      pos := 0;
      closed := false;
    }

    /** What is left to send: the unread bytes, or nothing more once closed. */
    function State(): Protocol.BodyState
      requires Valid()
      reads this
    {
      if closed then Protocol.Closed else Protocol.Unread(data[pos..])
    }

    /** `read(buf)`. */
    method Read(buf: array<byte>) returns (n: int, failure: Option<Failure>)
      requires Valid() && buf.Length > 0
      modifies this, buf
      ensures Valid() && data == old(data) && closed == old(closed)
      ensures closed ==> failure == Some(StreamClosed) && pos == old(pos)
      ensures !closed ==> failure.None?
      ensures !closed && old(pos) == |data| ==> n == -1 && pos == old(pos)
      ensures !closed && old(pos) < |data| ==>
        0 < n <= buf.Length && pos == old(pos) + n && buf[..n] == data[old(pos)..pos]
    {
      if closed {
        return 0, Some(StreamClosed);
      }
      if pos == |data| {
        return -1, None;
      }
      n := if |data| - pos < buf.Length then |data| - pos else buf.Length;
      forall k | 0 <= k < n {
        buf[k] := data[pos + k];
      }
      pos := pos + n;
      failure := None;
    }

    method Close()
      modifies this
      ensures closed && data == old(data) && pos == old(pos)
    {
      closed := true;
    }
  }

  /** The connector's answers, in the order connections are opened. */
  class Transport {
    const script: seq<Exchange>
    var next: nat

    ghost predicate Valid()
      reads this
    {
      next <= |script|
    }

    constructor(script: seq<Exchange>)
      ensures Valid() && this.script == script && next == 0
    {
      this.script := script;
      next := 0;
    }

    /** `connect(url)`: the next scripted answer, or `None` when none is left. */
    method Connect() returns (answer: Option<Exchange>)
      requires Valid()
      modifies this
      ensures Valid()
      ensures old(next) < |script| ==> answer == Some(script[old(next)]) && next == old(next) + 1
      ensures old(next) == |script| ==> answer.None? && next == old(next)
    {
      if next == |script| {
        return None;
      }
      answer := Some(script[next]);
      next := next + 1;
    }
  }

  /** What `setupConnection` ended with. */
  datatype Opened = Ready | Threw(failure: Failure) | NoAnswer

  class Requester {
    const root: Root.Elympics
    var args: seq<Entry>
    /** The header map, in insertion order; a `None` value was put as null. */
    var headers: seq<Slot>
    var verb: string
    var contentType: string
    var body: RawBody?
    /** The connection opened last, by this call or a nested one. */
    var connection: Option<Conn>
    var forceBody: bool

    ghost predicate Valid()
      reads this, body
    {
      DistinctNames(headers) && (body != null ==> body.Valid())
    }

    constructor(root: Root.Elympics)
      ensures Valid() && this.root == root
      ensures args == [] && headers == [] && verb == "POST" && contentType == FormContentType
      ensures body == null && connection.None? && !forceBody
    {
      this.root := root;
      args := [];
      headers := [];
      verb := "POST";
      contentType := FormContentType;
      body := null;
      connection := None;
      forceBody := false;
    }

    /** The configuration a request is made from. */
    function Plan(): Protocol.Plan
      reads this, root
    {
      Protocol.Plan(root.apiUrl, root.key, root.connector.Some?, args, headers, verb, contentType, forceBody)
    }

    function BodyState(): Protocol.BodyState
      requires Valid()
      reads this, body
    {
      if body == null then Protocol.NoBody else body.State()
    }

    /** The state `_to` threads through: transport position, current connection, body stream. */
    function Snapshot(net: Transport): Protocol.State
      requires Valid()
      reads this, body, net
    {
      Protocol.State(net.next, connection, BodyState())
    }

    // -------------------------------------------------------------------------
    // Headers

    /** `setHeader`: a new name is added at the end, a known one keeps its place and gets the new value. */
    method SetHeader(name: string, value: Option<string>)
      requires Valid()
      modifies this
      ensures Valid() && headers == Put(old(headers), name, value)
      ensures args == old(args) && verb == old(verb) && contentType == old(contentType)
      ensures body == old(body) && connection == old(connection) && forceBody == old(forceBody)
    {
      headers := Put(headers, name, value);
    }

    method WithHeader(name: string, value: Option<string>) returns (r: Requester)
      requires Valid()
      modifies this
      ensures r == this && Valid() && headers == Put(old(headers), name, value)
      ensures args == old(args) && verb == old(verb) && contentType == old(contentType)
      ensures body == old(body) && connection == old(connection) && forceBody == old(forceBody)
    {
      SetHeader(name, value);
      r := this;
    }

    /** `withPreview`: the `Accept` header. */
    method WithPreview(name: string) returns (r: Requester)
      requires Valid()
      modifies this
      ensures r == this && Valid() && headers == Put(old(headers), "Accept", Some(name))
      ensures args == old(args) && verb == old(verb) && contentType == old(contentType)
      ensures body == old(body) && connection == old(connection) && forceBody == old(forceBody)
    {
      r := WithHeader("Accept", Some(name));
    }

    // -------------------------------------------------------------------------
    // Parameters

    /** `_with`: a non-null value is appended; a null one is ignored. */
    method AddArg(key: string, value: Option<ArgValue>) returns (r: Requester)
      modifies this
      ensures r == this && args == old(args) + (if value.Some? then [Entry(key, value)] else [])
      ensures headers == old(headers) && verb == old(verb) && contentType == old(contentType)
      ensures body == old(body) && connection == old(connection) && forceBody == old(forceBody)
    {
      if value.Some? {
        args := args + [Entry(key, value)];
      }
      r := this;
    }

    /** `with(String, int)`. */
    method WithInt(key: string, value: int32) returns (r: Requester)
      modifies this
      ensures r == this && args == old(args) + [Entry(key, Some(Int(value)))]
      ensures headers == old(headers) && verb == old(verb) && contentType == old(contentType)
      ensures body == old(body) && connection == old(connection) && forceBody == old(forceBody)
    {
      r := AddArg(key, Some(Int(value)));
    }

    /** `with(String, Integer)`: null is skipped. */
    method WithInteger(key: string, value: Option<int32>) returns (r: Requester)
      modifies this
      ensures r == this && args == old(args) + (if value.Some? then [Entry(key, Some(Int(value.value)))] else [])
      ensures headers == old(headers) && verb == old(verb) && contentType == old(contentType)
      ensures body == old(body) && connection == old(connection) && forceBody == old(forceBody)
    {
      r := this;
      if value.Some? {
        r := AddArg(key, Some(Int(value.value)));
      }
    }

    /** `with(String, BigInteger)`: null is skipped. */
    method WithBigInteger(key: string, value: Option<int>) returns (r: Requester)
      modifies this
      ensures r == this && args == old(args) + (if value.Some? then [Entry(key, Some(Int(value.value)))] else [])
      ensures headers == old(headers) && verb == old(verb) && contentType == old(contentType)
      ensures body == old(body) && connection == old(connection) && forceBody == old(forceBody)
    {
      r := this;
      if value.Some? {
        r := AddArg(key, Some(Int(value.value)));
      }
    }

    /** `with(String, boolean)`. */
    method WithBoolean(key: string, value: bool) returns (r: Requester)
      modifies this
      ensures r == this && args == old(args) + [Entry(key, Some(Bool(value)))]
      ensures headers == old(headers) && verb == old(verb) && contentType == old(contentType)
      ensures body == old(body) && connection == old(connection) && forceBody == old(forceBody)
    {
      r := AddArg(key, Some(Bool(value)));
    }

    /** `with(String, Boolean)`: null is dropped by `_with`. */
    method WithBoxedBoolean(key: string, value: Option<bool>) returns (r: Requester)
      modifies this
      ensures r == this && args == old(args) + (if value.Some? then [Entry(key, Some(Bool(value.value)))] else [])
      ensures headers == old(headers) && verb == old(verb) && contentType == old(contentType)
      ensures body == old(body) && connection == old(connection) && forceBody == old(forceBody)
    {
      r := AddArg(key, if value.Some? then Some(Bool(value.value)) else None);
    }

    /** `with(String, Enum)`: the constant's name, lower-cased, with `_` replaced by `-`; null is skipped. */
    method WithEnum(key: string, constant: Option<string>) returns (r: Requester)
      modifies this
      ensures r == this
      ensures args == old(args) + (if constant.Some? then [Entry(key, Some(Str(EnumText(constant.value))))] else [])
      ensures headers == old(headers) && verb == old(verb) && contentType == old(contentType)
      ensures body == old(body) && connection == old(connection) && forceBody == old(forceBody)
    {
      if constant.None? {
        r := AddArg(key, None);
      } else {
        r := WithString(key, Some(EnumText(constant.value)));
      }
    }

    /** `with(String, String)`. */
    method WithString(key: string, value: Option<string>) returns (r: Requester)
      modifies this
      ensures r == this && args == old(args) + (if value.Some? then [Entry(key, Some(Str(value.value)))] else [])
      ensures headers == old(headers) && verb == old(verb) && contentType == old(contentType)
      ensures body == old(body) && connection == old(connection) && forceBody == old(forceBody)
    {
      r := AddArg(key, if value.Some? then Some(Str(value.value)) else None);
    }

    /** `with(String, Collection<String>)`. */
    method WithStrings(key: string, value: Option<seq<string>>) returns (r: Requester)
      modifies this
      ensures r == this && args == old(args) + (if value.Some? then [Entry(key, Some(Strings(value.value)))] else [])
      ensures headers == old(headers) && verb == old(verb) && contentType == old(contentType)
      ensures body == old(body) && connection == old(connection) && forceBody == old(forceBody)
    {
      r := AddArg(key, if value.Some? then Some(Strings(value.value)) else None);
    }

    /** `with(String, Map<String, String>)`, the map given by its entries in iteration order. */
    method WithMap(key: string, value: Option<seq<(string, string)>>) returns (r: Requester)
      modifies this
      ensures r == this && args == old(args) + (if value.Some? then [Entry(key, Some(Dict(value.value)))] else [])
      ensures headers == old(headers) && verb == old(verb) && contentType == old(contentType)
      ensures body == old(body) && connection == old(connection) && forceBody == old(forceBody)
    {
      r := AddArg(key, if value.Some? then Some(Dict(value.value)) else None);
    }

    /** `with(InputStream)`: the raw body, sent instead of the form parameters. */
    method WithBody(stream: RawBody?) returns (r: Requester)
      modifies this
      ensures r == this && body == stream
      ensures args == old(args) && headers == old(headers) && verb == old(verb) && contentType == old(contentType)
      ensures connection == old(connection) && forceBody == old(forceBody)
    {
      body := stream;
      r := this;
    }

    /**
     * `set`: the first entry with this key gets the new value, even a null
     * one, and nothing else changes; with no such entry it is `_with`.
     */
    method Set(key: string, value: Option<ArgValue>) returns (r: Requester)
      modifies this
      ensures r == this
      ensures FirstIndex(old(args), key).Some? ==> args == old(args)[FirstIndex(old(args), key).value := Entry(key, value)]
      ensures FirstIndex(old(args), key).None? ==> args == old(args) + (if value.Some? then [Entry(key, value)] else [])
      ensures headers == old(headers) && verb == old(verb) && contentType == old(contentType)
      ensures body == old(body) && connection == old(connection) && forceBody == old(forceBody)
    {
      var i := 0;
      while i < |args|
        invariant 0 <= i <= |args| && args == old(args)
        invariant forall j :: 0 <= j < i ==> args[j].key != key
      {
        if args[i].key == key {
          args := args[i := Entry(key, value)];
          return this;
        }
        i := i + 1;
      }
      r := AddArg(key, value);
    }

    method SetMethod(verb: string) returns (r: Requester)
      modifies this
      ensures r == this && this.verb == verb
      ensures args == old(args) && headers == old(headers) && contentType == old(contentType)
      ensures body == old(body) && connection == old(connection) && forceBody == old(forceBody)
    {
      this.verb := verb;
      r := this;
    }

    method SetContentType(contentType: string) returns (r: Requester)
      modifies this
      ensures r == this && this.contentType == contentType
      ensures args == old(args) && headers == old(headers) && verb == old(verb)
      ensures body == old(body) && connection == old(connection) && forceBody == old(forceBody)
    {
      this.contentType := contentType;
      r := this;
    }

    /** `inBody`: parameters go in the body whatever the verb. */
    method InBody() returns (r: Requester)
      modifies this
      ensures r == this && forceBody && Protocol.WithBody(Plan())
      ensures args == old(args) && headers == old(headers) && verb == old(verb) && contentType == old(contentType)
      ensures body == old(body) && connection == old(connection)
    {
      forceBody := true;
      r := this;
    }

    // -------------------------------------------------------------------------
    // Sending

    /**
     * `setupConnection`: open a connection through the root's connector, then
     * set the key, the caller's non-null headers in order, the verb, and
     * `Accept-Encoding: gzip`.  A connector that throws leaves `connection`
     * as it was.
     */
    method SetupConnection(url: string, net: Transport) returns (r: Opened)
      requires Valid() && net.Valid()
      modifies this, net
      ensures Valid() && net.Valid() && Plan() == old(Plan()) && body == old(body)
      ensures !Plan().connected ==> r == Threw(NullPointer) && net.next == old(net.next) && connection == old(connection)
      ensures Plan().connected && old(net.next) == |net.script| ==>
        r == NoAnswer && net.next == old(net.next) && connection == old(connection)
      ensures Plan().connected && old(net.next) < |net.script| ==>
        && net.next == old(net.next) + 1
        && match net.script[old(net.next)]
           case Refused(f) => r == Threw(f) && connection == old(connection)
           case Reply(response) => r == Ready && connection == Some(Protocol.NewConnection(Plan(), url, response))
    {
      var connector := root.GetConnector();
      if connector.None? {
        return Threw(NullPointer);
      }
      var answer := net.Connect();
      if answer.None? {
        return NoAnswer;
      }
      match answer.value
      case Refused(f) =>
        return Threw(f);
      case Reply(response) =>
        var conn := SetProperties(Conn(Root.ApiUrl(root.apiUrl, url), [], "GET", false, [], response), root.key, headers);
        conn := conn.(requestMethod := verb);
        conn := conn.(props := conn.props + [Protocol.AcceptGzip]);
        assert conn.props == Protocol.RequestHeaders(Plan()) by {
          assert [] + Protocol.KeyHeader(root.key) == Protocol.KeyHeader(root.key);
        }
        assert conn == Protocol.NewConnection(Plan(), url, response);
        connection := Some(conn);
        r := Ready;
    }

    /**
     * The form branch of `buildRequest`: `key=value&` per parameter in a
     * `StringBuilder`, then `deleteCharAt(length - 1)`, which throws on an
     * empty builder.
     */
    method FormText() returns (r: Result<string>)
      ensures r == FormBody(args)
    {
      var builder := "";
      var i := 0;
      while i < |args|
        invariant 0 <= i <= |args| && builder == Terminated(FormPieces(args[..i]))
      {
        FormStep(args, i);
        var piece := args[i].key + "=" + ValueOf(args[i].value);
        builder := builder + piece + "&";
        i := i + 1;
      }
      assert args[..i] == args;
      if |builder| == 0 {
        assert FormPieces(args) == [];
        return Err(IndexOutOfBounds(|builder| - 1));
      }
      TerminatedDropLast(FormPieces(args));
      r := Ok(builder[..|builder| - 1]);
    }

    /**
     * The stream branch of `buildRequest`: copy the raw body through a
     * 32768-byte buffer until `read` returns -1, then close it, also when
     * `read` threw.
     */
    method CopyBody(conn: Conn) returns (written: Conn, failure: Option<Failure>)
      requires Valid() && body != null
      modifies body
      ensures Valid() && body.closed && body.data == old(body.data)
      ensures old(body.closed) ==> written == conn && failure == Some(StreamClosed)
      ensures !old(body.closed) ==> written == conn.(output := conn.output + old(body.data[body.pos..])) && failure.None?
    {
      var bytes := new byte[ChunkSize];
      ghost var from := body.pos;
      written := conn;
      failure := None;
      while true
        invariant body.Valid() && body.data == old(body.data) && body.closed == old(body.closed)
        invariant from <= body.pos && written == conn.(output := conn.output + body.data[from..body.pos])
        invariant body.closed ==> body.pos == from
        invariant failure.None?
        decreases |body.data| - body.pos
      {
        var read, err := body.Read(bytes);
        if err.Some? {
          failure := err;
          break;
        }
        if read == -1 {
          break;
        }
        assert body.data[from..body.pos] == body.data[from..body.pos - read] + bytes[..read];
        written := written.(output := written.output + bytes[..read]);
      }
      assert old(body.closed) ==> written == conn;
      assert failure.None? ==> body.pos == |body.data|;
      body.Close();
    }

    /**
     * `buildRequest`: for a verb with a body, enable output and set the
     * content type, then write the form body or the raw stream.
     */
    method BuildRequest() returns (failure: Option<Failure>)
      requires Valid() && connection.Some?
      modifies this, body
      ensures Valid() && Plan() == old(Plan()) && body == old(body)
      ensures var b := Protocol.Build(old(Plan()), old(connection.value), old(BodyState()));
        connection == Some(b.conn) && BodyState() == b.body && failure == b.failure
    {
      if !Protocol.WithBody(Plan()) {
        return None;
      }
      var conn := connection.value.(doOutput := true);
      conn := conn.(props := conn.props + [Header("Content-type", contentType)]);
      connection := Some(conn);
      if body == null {
        var text := FormText();
        if text.Err? {
          return Some(text.failure);
        }
        connection := Some(conn.(output := conn.output + UrlEncoding.Utf8String(text.value)));
        failure := None;
      } else {
        var written;
        written, failure := CopyBody(conn);
        connection := Some(written);
      }
    }

    /**
     * `_to`: build the query string once for a body-less verb, then loop
     * while the API asks to retry.
     */
    method To<E>(tail: string, target: Protocol.Target<E>, codec: Protocol.Codec<E>, net: Transport)
      returns (o: Protocol.Outcome<E>)
      requires Valid() && net.Valid()
      modifies this, net, body
      ensures Valid() && net.Valid() && Plan() == old(Plan()) && body == old(body)
      ensures (o, Snapshot(net)) == Protocol.Call(old(Plan()), tail, target, codec, net.script, old(Snapshot(net)))
      decreases |net.script| - net.next, 1
    {
      var url := tail;
      if !Protocol.WithBody(Plan()) && args != [] {
        var query := AppendQuery(tail, args);
        if query.Err? {
          return Protocol.Raised(query.failure);
        }
        url := query.value;
      }
      assert Protocol.RequestUrl(Plan(), tail) == Ok(url);
      while true
        invariant Valid() && net.Valid() && Plan() == old(Plan()) && body == old(body)
        invariant old(net.next) <= net.next
        invariant Protocol.Loop(Plan(), url, target, codec, net.script, Snapshot(net))
               == Protocol.Call(old(Plan()), tail, target, codec, net.script, old(Snapshot(net)))
        decreases |net.script| - net.next
      {
        var again;
        o, again := Pass(url, target, codec, net);
        if !again {
          return;
        }
      }
    }

    /**
     * One pass of the `_to` loop: set up, write, then the `try` block and its
     * `catch`, which calls `handleApiError`.  `again` is set when
     * `handleApiError` returned normally.
     */
    method Pass<E>(url: string, target: Protocol.Target<E>, codec: Protocol.Codec<E>, net: Transport)
      returns (o: Protocol.Outcome<E>, again: bool)
      requires Valid() && net.Valid()
      modifies this, net, body
      ensures Valid() && net.Valid() && Plan() == old(Plan()) && body == old(body)
      ensures var t := Protocol.Attempt(old(Plan()), url, target, codec, net.script, old(Snapshot(net)));
        if again then t == Protocol.Again(Snapshot(net)) else t == Protocol.Finished(o, Snapshot(net))
      decreases |net.script| - net.next, 0
    {
      ghost var p := Plan();
      ghost var st := Snapshot(net);
      var setup := SetupConnection(url, net);
      if setup.Threw? {
        return Protocol.Raised(setup.failure), false;
      }
      if setup.NoAnswer? {
        return Protocol.OutOfScript, false;
      }
      assert p.connected && st.next < |net.script| && net.script[st.next].Reply?;
      ghost var response := net.script[st.next].response;
      assert connection == Some(Protocol.NewConnection(p, url, response)) && BodyState() == st.body;
      ghost var b := Protocol.Build(p, Protocol.NewConnection(p, url, response), st.body);
      ghost var st2 := st.(next := st.next + 1, connection := Some(b.conn), body := b.body);
      var failure := BuildRequest();
      assert Snapshot(net) == st2 && failure == b.failure;
      Protocol.PassOnReply(p, url, target, codec, net.script, st);
      if failure.Some? {
        return Protocol.Raised(failure.value), false;
      }
      o, again := TryParse(target, codec, net);
    }

    /**
     * The `try` block of `_to` (parse, and for an array target with a
     * next-page link fetch the rest and concatenate) and its `catch`, which
     * lets `handleApiError` decide between a retry and an exception.
     */
    method TryParse<E>(target: Protocol.Target<E>, codec: Protocol.Codec<E>, net: Transport)
      returns (o: Protocol.Outcome<E>, again: bool)
      requires Valid() && net.Valid() && connection.Some?
      modifies this, net, body
      ensures Valid() && net.Valid() && Plan() == old(Plan()) && body == old(body)
      ensures var r := Protocol.Page(old(Plan()), target, codec, net.script, old(Snapshot(net)), old(connection.value));
        r.1 == Snapshot(net) &&
        var t := Protocol.Handle(r.0, r.1);
        if again then t == Protocol.Again(Snapshot(net)) else t == Protocol.Finished(o, Snapshot(net))
      decreases |net.script| - net.next, 2
    {
      var conn := connection.value;
      var result: Protocol.Outcome<E>;
      var parsed := Protocol.Parse(conn, target, codec);
      if parsed.Err? {
        result := Protocol.Raised(parsed.failure);
      } else if !target.ArrayOf? || Protocol.NextPage(conn.response).None? {
        result := Protocol.Returned(parsed.value);
      } else {
        var rest := To(Protocol.NextPage(conn.response).value, target, codec, net);
        if rest.Returned? {
          var joined := Protocol.Concat(parsed.value, rest.value);
          result := if joined.Ok? then Protocol.Returned(joined.value) else Protocol.Raised(joined.failure);
        } else {
          result := rest;
        }
      }
      if result.Raised? && result.failure.IsIOException() {
        var decision := Protocol.HandleApiError(connection.value, result.failure);
        if decision.Retry? {
          return result, true;
        }
        return Protocol.Raised(decision.failure), false;
      }
      return result, false;
    }
  }

  // ---------------------------------------------------------------------------
  // Request properties

  /** The property loop of `setupConnection`: the key first, then every header that has a value, in order. */
  method SetProperties(conn: Conn, key: Option<string>, headers: seq<Slot>) returns (c: Conn)
    ensures c == conn.(props := conn.props + Protocol.KeyHeader(key) + Present(headers))
  {
    var props := conn.props;
    if key.Some? {
      props := props + [Header("key", key.value)];
    }
    ghost var start := props;
    var i := 0;
    while i < |headers|
      invariant 0 <= i <= |headers| && start == conn.props + Protocol.KeyHeader(key)
      invariant props == start + Present(headers[..i])
    {
      PresentStep(headers, i);
      if headers[i].value.Some? {
        var h := Header(headers[i].name, headers[i].value.value);
        assert props + [h] == start + (Present(headers[..i]) + [h]);
        props := props + [h];
      }
      i := i + 1;
    }
    assert headers[..i] == headers;
    c := conn.(props := props);
  }

  // ---------------------------------------------------------------------------
  // The query string

  /**
   * The query-string loop of `_to`: `?` (or `&` when the tail already has a
   * `?`), then `key=` and the encoded value per parameter, `&` between them.
   */
  method AppendQuery(tail: string, args: seq<Entry>) returns (r: Result<string>)
    requires args != []
    ensures r == QueryUrl(tail, args)
  {
    var url := tail + [if '?' in tail then '&' else '?'];
    ghost var prefix := url;
    var i := 0;
    while i < |args|
      invariant 0 <= i <= |args| && AllPresent(args[..i])
      invariant url == prefix + Join(QueryPieces(args[..i]), "&") + (if 0 < i < |args| then "&" else "")
    {
      var arg := args[i];
      if arg.value.None? {
        assert !AllPresent(args);
        return Err(NullPointer);
      }
      QueryStep(args, i, prefix, url);
      url := url + QueryPiece(arg);
      if i + 1 < |args| {
        url := url + "&";
      }
      i := i + 1;
    }
    assert args[..i] == args;
    assert url == prefix + Join(QueryPieces(args), "&");
    r := Ok(url);
  }

  // ---------------------------------------------------------------------------
  // Loop steps

  /** Appending one more query piece to the URL: joined with `&` unless it is the first. */
  lemma {:induction false} QueryStep(args: seq<Entry>, i: nat, prefix: string, url: string)
    requires i < |args| && AllPresent(args[..i]) && args[i].value.Some?
    requires url == prefix + Join(QueryPieces(args[..i]), "&") + (if 0 < i then "&" else "")
    ensures AllPresent(args[..i + 1])
    ensures url + QueryPiece(args[i]) == prefix + Join(QueryPieces(args[..i + 1]), "&")
  {
    QueryPiecesSnoc(args, i);
    JoinStep(prefix, QueryPieces(args[..i]), QueryPiece(args[i]), url);
  }

  lemma {:induction false} JoinStep(prefix: string, before: seq<string>, piece: string, url: string)
    requires url == prefix + Join(before, "&") + (if before != [] then "&" else "")
    ensures url + piece == prefix + Join(before + [piece], "&")
  {
    JoinSnoc(before, piece, "&");
    if before == [] {
      assert url == prefix;
    } else {
      var done := Join(before, "&");
      assert url + piece == prefix + (done + "&" + piece);
    }
  }

  lemma {:induction false} QueryPiecesSnoc(args: seq<Entry>, i: nat)
    requires i < |args| && AllPresent(args[..i]) && args[i].value.Some?
    ensures AllPresent(args[..i + 1])
    ensures QueryPieces(args[..i + 1]) == QueryPieces(args[..i]) + [QueryPiece(args[i])]
  {
    var init := args[..i + 1];
    assert init[..i] == args[..i];
    assert AllPresent(init);
  }

  lemma {:induction false} JoinSnoc(parts: seq<string>, last: string, sep: string)
    ensures Join(parts + [last], sep) == if parts == [] then last else Join(parts, sep) + sep + last
  {
    assert (parts + [last])[..|parts|] == parts;
  }

  /** One more header slot: its header is added when it has a value. */
  lemma {:induction false} PresentStep(slots: seq<Slot>, i: nat)
    requires i < |slots|
    ensures Present(slots[..i + 1]) ==
      Present(slots[..i]) + (if slots[i].value.Some? then [Header(slots[i].name, slots[i].value.value)] else [])
  {
    var init := slots[..i + 1];
    assert init[..i] == slots[..i];
  }

  /** Appending one more `key=value&` to the builder. */
  lemma {:induction false} FormStep(args: seq<Entry>, i: nat)
    requires i < |args|
    ensures Terminated(FormPieces(args[..i + 1])) == Terminated(FormPieces(args[..i])) + FormPiece(args[i]) + "&"
  {
    var init := args[..i + 1];
    assert init[..i] == args[..i];
    var ps := FormPieces(init);
    assert ps == FormPieces(args[..i]) + [FormPiece(args[i])];
    assert ps[..i] == FormPieces(args[..i]);
  }
}
