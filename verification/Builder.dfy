/**
 * `ElympicsBuilder`: collects the endpoint, the key and the connector, each
 * setter changing its own field only, and `Build` creates the API root.
 */
module Builder {
  import opened Wire
  import Root

  class ElympicsBuilder {
    var endpoint: string
    var key: Option<string>
    var connector: Option<Root.Connector>

    /** The production endpoint, no key, no connector (the root then uses the default one). */
    constructor()
      ensures endpoint == Root.ElympicsUrl && key.None? && connector.None?
    {
      endpoint := Root.ElympicsUrl;
      key := None;
      connector := None;
    }

    method WithEndpoint(endpoint: string) returns (r: ElympicsBuilder)
      modifies this
      ensures r == this && this.endpoint == endpoint && key == old(key) && connector == old(connector)
    {
      this.endpoint := endpoint;
      r := this;
    }

    method WithKey(key: Option<string>) returns (r: ElympicsBuilder)
      modifies this
      ensures r == this && this.key == key && endpoint == old(endpoint) && connector == old(connector)
    {
      this.key := key;
      r := this;
    }

    method WithConnector(connector: Option<Root.Connector>) returns (r: ElympicsBuilder)
      modifies this
      ensures r == this && this.connector == connector && endpoint == old(endpoint) && key == old(key)
    {
      this.connector := connector;
      r := this;
    }

    /** A JRE connector with the default timeouts that opens every connection through `proxy`. */
    method WithProxy(proxy: string) returns (r: ElympicsBuilder)
      modifies this
      ensures r == this && connector == Some(Root.Impatient(Root.ViaProxy(proxy)))
      ensures endpoint == old(endpoint) && key == old(key)
    {
      r := WithConnector(Some(Root.Impatient(Root.ViaProxy(proxy))));
    }

    /** A new root: one trailing slash dropped from the endpoint, the default connector when none was set. */
    method Build() returns (e: Root.Elympics)
      ensures fresh(e)
      ensures e.apiUrl == Root.StripTrailingSlash(endpoint) && e.key == key
      ensures e.connector == (if connector.Some? then connector else Some(Root.Default))
    {
      e := new Root.Elympics(endpoint, key, connector);
    }
  }
}
