/**
 * The GraphQL client: an endpoint, a mutable header map, and the transport
 * handle every call goes through.
 */
module GqlClient {
  import opened Wrappers
  import opened Execution

  /** The caller's decode target: a location Execute writes into. */
  class Target<T> {
    var value: T

    constructor (initial: T)
      ensures value == initial
    {
      value := initial;
    }
  }

  /** The transport handle. It records every request it sends, in order. */
  class Transport {
    var sent: seq<HttpRequest>

    constructor ()
      ensures sent == []
    {
      sent := [];
    }

    /** Sends `req`; the network answers as `exchange` says. */
    method Do(req: HttpRequest, exchange: HttpRequest -> Result<Bytes, Fault>) returns (res: Result<Bytes, Fault>)
      modifies this
      ensures sent == old(sent) + [req]
      ensures res == exchange(req)
    {
      sent := sent + [req];
      res := exchange(req);
    }
  }

  /**
   * Copies every entry of `headers` onto a request's header map, as the
   * loop that sets each client header on the outgoing request does.
   */
  method AttachHeaders(base: map<string, string>, headers: map<string, string>) returns (attached: map<string, string>)
    ensures attached.Keys == base.Keys + headers.Keys
    ensures forall k :: k in headers ==> attached[k] == headers[k]
    ensures forall k :: k in base && k !in headers ==> attached[k] == base[k]
  {
    attached := base;
    var pending := headers.Keys;
    while pending != {}
      invariant pending <= headers.Keys
      invariant attached.Keys == base.Keys + (headers.Keys - pending)
      invariant forall k :: k in headers && k !in pending ==> attached[k] == headers[k]
      invariant forall k :: k in base && k !in headers.Keys - pending ==> attached[k] == base[k]
      decreases pending
    {
      var k :| k in pending;
      attached := attached[k := headers[k]];
      pending := pending - {k};
    }
  }

  class Client {
    const endpoint: string
    /** The header map; when `headersNil` holds it is Go's nil map, empty and not writable. */
    var headers: map<string, string>
    var headersNil: bool
    const transport: Transport

    /** A nil header map is always empty. */
    ghost predicate Valid()
      reads this
    {
      headersNil ==> headers == map[]
    }

    /** NewClient: stores the endpoint and the map as given (None is a nil map). */
    constructor (endpoint: string, initial: Option<map<string, string>>)
      ensures Valid()
      ensures this.endpoint == endpoint
      ensures headersNil == initial.None?
      ensures headers == if initial.Some? then initial.value else map[]
      ensures fresh(transport) && transport.sent == []
    {
      this.endpoint := endpoint;
      headersNil := initial.None?;
      headers := if initial.Some? then initial.value else map[];
      transport := new Transport();
    }

    /** Inserts `key` or overwrites its value; writing to a nil map would panic. */
    method SetHeader(key: string, value: string)
      requires Valid() && !headersNil
      modifies this`headers
      ensures Valid()
      ensures key in headers && headers[key] == value
      ensures headers == old(headers)[key := value]
    {
      headers := headers[key := value];
    }

    /**
     * Execute: runs the steps in order and stops at the first failure. The
     * request carries every current header; the header map itself is read,
     * never written.
     */
    method Execute<T>(r: Request, c: Collaborators<T>, target: Target<T>) returns (err: Option<ExecError>)
      requires Valid()
      modifies target, transport
      ensures transport.sent == old(transport.sent) + Outbound(c, endpoint, headers, r)
      ensures headersNil ==> forall q :: q in transport.sent[|old(transport.sent)|..] ==> q.header == map[]
      ensures (target.value, err) == Run(c, endpoint, headers, r, old(target.value))
    {
      var encoded := c.encode(r);
      if encoded.Err? {
        return Some(LibraryError(encoded.error));
      }
      var refused := c.newRequest(Post, endpoint);
      if refused.Some? {
        return Some(LibraryError(refused.value));
      }
      var attached := AttachHeaders(map[], headers);
      assert attached == headers;
      var res := transport.Do(HttpRequest(Post, endpoint, attached, encoded.value), c.exchange);
      if res.Err? {
        return Some(LibraryError(res.error));
      }
      var envelope := c.decodeEnvelope(res.value);
      if envelope.Err? {
        return Some(LibraryError(envelope.error));
      }
      var env := envelope.value;
      if env.data.Some? {
        var decoded := c.decodeData(env.data.value, target.value);
        target.value := decoded.0;
        if decoded.1.Some? {
          return Some(LibraryError(decoded.1.value));
        }
      }
      if env.errors.Some? {
        var errs := c.decodeErrors(env.errors.value);
        if errs.Err? {
          return Some(LibraryError(errs.error));
        }
        return Some(ServerErrors(errs.value));
      }
      return None;
    }

    /**
     * ExecuteWithHeaders: writes every extra header in, runs Execute, then
     * deletes every extra key. A key that existed before the call is removed,
     * not given back its old value.
     */
    method ExecuteWithHeaders<T>(r: Request, extras: map<string, string>, c: Collaborators<T>, target: Target<T>)
      returns (err: Option<ExecError>)
      requires Valid()
      requires !headersNil || extras == map[]
      modifies this`headers, target, transport
      ensures Valid()
      ensures headers == old(headers) - extras.Keys
      ensures transport.sent == old(transport.sent) + Outbound(c, endpoint, old(headers) + extras, r)
      ensures (target.value, err) == Run(c, endpoint, old(headers) + extras, r, old(target.value))
    {
      var pending := extras.Keys;
      while pending != {}
        invariant pending <= extras.Keys
        invariant Valid()
        invariant headers == old(headers) + map k | k in extras && k !in pending :: extras[k]
        invariant unchanged(target, transport)
        decreases pending
      {
        var k :| k in pending;
        SetHeader(k, extras[k]);
        pending := pending - {k};
      }
      assert headers == old(headers) + extras;
      err := Execute(r, c, target);
      ghost var merged := headers;
      ghost var ran := (target.value, err);
      ghost var sentNow := transport.sent;
      pending := extras.Keys;
      while pending != {}
        invariant pending <= extras.Keys
        invariant headers == merged - (extras.Keys - pending)
        invariant (target.value, err) == ran && transport.sent == sentNow
        decreases pending
      {
        var k :| k in pending;
        headers := headers - {k};
        pending := pending - {k};
      }
      assert headers == old(headers) - extras.Keys;
    }
  }

  /**
   * Merging the extras and then deleting their keys leaves the old map minus
   * those keys; that equals the old map exactly when no extra header named an
   * existing key.
   */
  lemma ScopedCallRestoresIff(before: map<string, string>, extras: map<string, string>)
    ensures (before + extras) - extras.Keys == before - extras.Keys
    ensures before - extras.Keys == before <==> before.Keys !! extras.Keys
  {
  }

  /** An extra header that overrode an existing one is gone after the call. */
  lemma OverriddenHeaderIsDropped(before: map<string, string>, extras: map<string, string>, k: string)
    requires k in before && k in extras
    ensures k !in (before + extras) - extras.Keys
  {
  }
}
