/**
 * Values exchanged between the request engine and the HTTP transport.
 *
 * The transport is a collaborator whose behaviour is given as data: for each
 * connection it opens, a scripted `Exchange` says whether `connect` failed or
 * what the server answered (status line, header lookups, content encoding,
 * the response body or the exception reading it, the error stream).  The
 * Java exceptions the engine throws or passes through are the `Failure`
 * datatype.
 */
module Wire {

  datatype Option<+T> = None | Some(value: T)

  /** A value or the exception that replaced it. */
  datatype Result<+T> = Ok(value: T) | Err(failure: Failure)

  type byte = b: int | 0 <= b < 256

  /** Java `int` and `long` ranges, for the overloads that take primitives. */
  type int32 = x: int | -0x8000_0000 <= x < 0x8000_0000
  type int64 = x: int | -0x8000_0000_0000_0000 <= x < 0x8000_0000_0000_0000

  /** One `setRequestProperty(name, value)` call on a connection. */
  datatype Header = Header(name: string, value: string)

  /**
   * The exceptions of the core, as data.  `cause` is the wrapped exception
   * (`initCause` / the cause constructor argument).  An `HttpError` whose
   * `message` is `None` was built by the constructor that takes no message
   * text and reports its cause instead.
   */
  datatype Failure =
    | IoError(message: Option<string>, cause: Option<Failure>)        // java.io.IOException
    | NotFound(message: Option<string>, cause: Option<Failure>)       // java.io.FileNotFoundException
    | HttpError(message: Option<string>, code: int, responseMessage: Option<string>,
                url: string, cause: Option<Failure>)                  // HttpException
    | JsonMapping(detail: string)                                     // JsonMappingException
    | JsonSyntax(detail: string)                                      // any other JsonProcessingException
    | UnsupportedEncoding(encoding: string)                           // UnsupportedOperationException
    | NullPointer                                                     // NullPointerException
    | IndexOutOfBounds(index: int)                                    // StringIndexOutOfBoundsException
  {
    /** The checked exceptions, i.e. those a `catch (IOException e)` intercepts. */
    predicate IsIOException() {
      IoError? || NotFound? || HttpError? || JsonMapping? || JsonSyntax?
    }
  }

  /** What reading a closed request-body stream throws. */
  const StreamClosed: Failure := IoError(Some("Stream closed"), None)

  /** `getResponseCode()` / `getResponseMessage()`, or the exception they throw. */
  datatype Status = Status(code: int, message: Option<string>) | Unreadable(failure: Failure)

  /** `getInputStream()`: the (decompressed, UTF-8 decoded) body text, or the exception. */
  datatype Stream = Text(text: string) | Fails(failure: Failure)

  /** What the server answered on one connection. */
  datatype Response = Response(
    status: Status,
    fields: map<string, string>,     // getHeaderField(name)
    encoding: Option<string>,        // getContentEncoding()
    input: Stream,                   // getInputStream()
    errorStream: Option<string>)     // getErrorStream(), as text; None when it is null
  {
    function HeaderField(name: string): Option<string> {
      if name in fields then Some(fields[name]) else None
    }
  }

  /** One scripted `connect(url)`: it throws, or it opens a connection that answers `response`. */
  datatype Exchange = Refused(failure: Failure) | Reply(response: Response)

  /**
   * An open connection: the URL it was opened on, the request properties set
   * on it (in call order), the request method, whether output was enabled,
   * the bytes written to its output stream, and the scripted answer.
   */
  datatype Conn = Conn(
    url: string,
    props: seq<Header>,
    requestMethod: string,
    doOutput: bool,
    output: seq<byte>,
    response: Response)
}
