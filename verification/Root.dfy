/**
 * The API root (`Elympics`): the base URL with one trailing slash removed,
 * the optional API key sent with every request, and the connector that opens
 * connections.  Resolving a request path against the base is a pure function,
 * `ApiUrl`; the connector is the one field that changes after construction.
 */
module Root {
  import opened Wire

  /** The production endpoint, used when no other is configured. */
  const ElympicsUrl: string := "https://dollarone.games/elympics"

  /** How a JRE connection is opened: directly or through a proxy. */
  datatype Route = Direct | ViaProxy(proxy: string)

  /**
   * An `HttpConnector`: the JRE connector wrapped with the default timeouts,
   * or a connector supplied by the caller (told apart by an identifier).
   */
  datatype Connector = Impatient(route: Route) | Custom(id: nat)

  /** `HttpConnector.DEFAULT`. */
  const Default: Connector := Impatient(Direct)

  /** `endsWith("/") ? substring(0, length - 1) : itself`: removes one trailing slash and no more. */
  function StripTrailingSlash(s: string): (r: string)
    ensures |s| > 0 && s[|s| - 1] == '/' ==> r + "/" == s
    ensures !(|s| > 0 && s[|s| - 1] == '/') ==> r == s
  {
    if |s| > 0 && s[|s| - 1] == '/' then s[..|s| - 1] else s
  }

  /**
   * `getApiURL`: a path starting with `/` is appended to the base URL;
   * anything else (an absolute URL such as a next-page link) is used as it is.
   */
  function ApiUrl(apiUrl: string, tail: string): (r: string)
    ensures |tail| <= |r| && r[|r| - |tail|..] == tail
    ensures |tail| > 0 && tail[0] == '/' ==> |r| == |apiUrl| + |tail| && r[..|apiUrl|] == apiUrl
    ensures !(|tail| > 0 && tail[0] == '/') ==> r == tail
  {
    if |tail| > 0 && tail[0] == '/' then apiUrl + tail else tail
  }

  /**
   * With an endpoint that does not end in `//`, a path is joined to it with
   * exactly one slash at the junction, whether or not the endpoint had a
   * trailing slash.
   */
  lemma SingleSlashJunction(endpoint: string, path: string)
    requires |path| > 0 && path[0] == '/'
    requires !(|endpoint| >= 2 && endpoint[|endpoint| - 2..] == "//")
    ensures var base := StripTrailingSlash(endpoint);
      ApiUrl(base, path) == base + path && (|base| > 0 ==> base[|base| - 1] != '/')
  {
    var base := StripTrailingSlash(endpoint);
    if |base| > 0 && |endpoint| > 0 && endpoint[|endpoint| - 1] == '/' {
      assert base == endpoint[..|endpoint| - 1];
      assert endpoint[|endpoint| - 2..] == [base[|base| - 1], '/'];
    }
  }

  /** Stripping is not repeated: an endpoint ending in `//` keeps one slash. */
  lemma StripsOnlyOne(s: string)
    requires |s| >= 2 && s[|s| - 2..] == "//"
    ensures var r := StripTrailingSlash(s); |r| == |s| - 1 && r[|r| - 1] == '/'
  {
    assert s[|s| - 2] == '/';
  }

  class Elympics {
    const apiUrl: string
    const key: Option<string>
    /** `None` once `setConnector(null)` has been called. */
    var connector: Option<Connector>

    /** A null connector keeps the default one. */
    constructor(apiUrl: string, key: Option<string>, connector: Option<Connector>)
      ensures this.apiUrl == StripTrailingSlash(apiUrl)
      ensures this.key == key
      ensures this.connector == (if connector.Some? then connector else Some(Default))
    {
      var url := apiUrl;
      if |url| > 0 && url[|url| - 1] == '/' {
        url := url[..|url| - 1];
      }
      this.apiUrl := url;
      this.key := key;
      this.connector := if connector.Some? then connector else Some(Default);
    }

    method SetConnector(connector: Option<Connector>)
      modifies this
      ensures this.connector == connector
    {
      this.connector := connector;
    }

    method GetConnector() returns (c: Option<Connector>)
      ensures c == connector
    {
      c := connector;
    }
  }
}
