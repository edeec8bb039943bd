/**
 * `WTVPRequestRouter`: the per-connection object whose `handle_request`
 * frames, reads and routes one request, updating its attributes as it goes.
 * Each method below performs one stage of `handle_request` on the fields and
 * is proved to end as the function of module `Routing` for that stage says.
 */
module Router {
  import opened Wrappers
  import opened Text
  import opened Primitives
  import opened SecurityState
  import opened Security
  import opened Headers
  import opened Framing
  import opened ConnectionPool
  import opened Routing

  class RequestRouter {
    const config: Config
    var rfile: seq<byte>
    var output: seq<byte>
    var zfile: Option<seq<byte>>
    var securityOn: bool
    var closeConnection: bool
    var security: SecurityContext?
    var headers: map<string, string>
    var ssid: string
    var requestline: string
    var pool: Pool

    /** Encrypted mode has a security object, and the security object uses the router's primitives. */
    ghost predicate Valid()
      reads this
    {
      (securityOn ==> security != null) && (security != null ==> security.crypto == config.crypto)
    }

    /** The router's attributes as a value. */
    function State(): RState
      reads this, security
    {
      RState(rfile, output, zfile, securityOn, closeConnection,
             if security == null then None else Some(security.State()),
             headers, ssid, requestline, pool)
    }

    /**
     * A router for a new connection: plaintext, no security object, no
     * headers, no serial number, an empty pool, and set to close the
     * connection once the request is handled.
     */
    constructor(config: Config, rfile: seq<byte>)
      ensures Valid() && this.config == config
      ensures State() == RState(rfile, [], None, false, true, None, map[], "", "", map[])
    {
      this.config := config;
      this.rfile := rfile;
      output := [];
      zfile := None;
      securityOn := false;
      closeConnection := true;
      security := null;
      headers := map[];
      ssid := "";
      requestline := "";
      pool := map[];
    }

    // ------------------------------------------------------------ garbage_collection

    /** `close_connection = True` and `garbage_collection(self)`. */
    method Drop() returns (e: Event)
      modifies this`closeConnection, this`pool
      ensures (State(), e) == Routing.Drop(config, old(State()))
    {
      closeConnection := true;
      if ssid != "" {
        if ssid !in pool {
          return Raised(PoolFailed(UnknownSerial));
        }
        pool := pool[ssid := RemoveFirst(pool[ssid], Port(config))];
      }
      return Dropped;
    }

    // ------------------------------------------------------------ the framer

    /**
     * The byte loop: read one byte, decrypt it with the first ARC4 context,
     * append it, and stop at the end of the socket, at a byte that cannot be
     * decrypted, or once the buffer is terminated.
     */
    method ReadFrame() returns (f: Frame)
      requires security != null && security.crypto == config.crypto && Key1 !in security.foreignContexts
      modifies this`rfile, security`rc4Key1, security`rc4Key2
      ensures (security.rc4Key1, f, rfile) == Accumulate(config.crypto, old(security.rc4Key1), old(rfile), [])
      ensures security.rc4Key2 == old(security.rc4Key2)
    {
      var data: seq<byte> := [];
      while true
        invariant security.rc4Key2 == old(security.rc4Key2)
        invariant Accumulate(config.crypto, security.rc4Key1, rfile, data)
               == Accumulate(config.crypto, old(security.rc4Key1), old(rfile), [])
        decreases |rfile|
      {
        if rfile == [] {
          return Eof;
        }
        ghost var before := security.State();
        var rbyte := [rfile[0]];
        rfile := rfile[1..];
        var d := security.Decrypt(Key1, rbyte);
        DecryptedWithKey1(config.crypto, before, security.State(), d, rbyte);
        if d.Err? {
          return DecryptFailed(d.error);
        }
        data := data + d.value;
        if Terminated(data) {
          return Framed(data);
        }
      }
    }

    /** After the byte loop: a `POST` gets the bytes its length line announces, decrypted in one piece. */
    method CompleteFrame(f: Frame) returns (rcv: Received)
      requires security != null && security.crypto == config.crypto && Key1 !in security.foreignContexts
      modifies this`rfile, security`rc4Key1, security`rc4Key2
      ensures (security.rc4Key1, rcv, rfile) == Complete(config.crypto, old(security.rc4Key1), f, old(rfile))
      ensures security.rc4Key2 == old(security.rc4Key2)
    {
      match f
      case Eof => return Closed;
      case DecryptFailed(err) => return DecryptError(err);
      case Framed(head) =>
        if !StartsWith(head, PostMethod) {
          return Request(head);
        }
        var cl := PostLength(head);
        if cl.None? {
          return BadLength;
        }
        var read := ReadAtMost(rfile, cl.value);
        if read.None? {
          return BadLength;
        }
        ghost var before := security.State();
        var (body, after) := read.value;
        rfile := after;
        var d := security.Decrypt(Key1, body);
        DecryptedWithKey1(config.crypto, before, security.State(), d, body);
        if d.Err? {
          return BodyError(d.error);
        }
        return Request(head + d.value);
    }

    /** The framer: the byte loop, then the body of a `POST`. */
    method Frame() returns (rcv: Received)
      requires security != null && security.crypto == config.crypto && Key1 !in security.foreignContexts
      modifies this`rfile, security`rc4Key1, security`rc4Key2
      ensures (security.rc4Key1, rcv, rfile) == FrameRequest(config.crypto, old(security.rc4Key1), old(rfile))
      ensures security.State() == old(security.State()).(rc4Key1 := security.rc4Key1)
    {
      var f := ReadFrame();
      rcv := CompleteFrame(f);
    }

    /**
     * How a stage ended, against the stage's function in `Routing`: `Some`
     * event and the state it finished in, or `None` and the state it handed on.
     */
    ghost predicate Reached(p: Progress, r: Option<Event>)
      reads this, security
    {
      && (r.None? <==> p.Continue?)
      && (r.Some? ==> State() == p.after && r.value == p.event)
      && (r.None? ==> State() == p.next)
    }

    /**
     * The start of `handle_request`: plaintext reads straight from the socket;
     * encrypted mode frames a request and either ends the request or goes on
     * reading from the decrypted buffer.
     */
    method Receive() returns (r: Option<Event>)
      requires Valid()
      modifies this, security
      ensures Valid() && security == old(security)
      ensures Reached(Routing.Receive(config, old(State())), r)
    {
      if !securityOn {
        zfile := None;
        return None;
      }
      if Key1 in security.foreignContexts {
        r := RefuseFrame();
        return;
      }
      ghost var s := State();
      ghost var sec := security.State();
      var rcv := Frame();
      assert State() == s.(rfile := rfile, security := Some(sec.(rc4Key1 := security.rc4Key1)));
      assert Routing.Receive(config, s) == Routing.AfterFrame(config, State(), rcv);
      r := AfterFrame(rcv);
    }

    /**
     * Encrypted mode with a first context attribute that is not a cipher:
     * the end of the socket drops the connection, and the first byte read
     * raises `AttributeError` at its `decrypt`.
     */
    method RefuseFrame() returns (r: Option<Event>)
      requires Valid() && securityOn && Key1 in security.foreignContexts
      modifies this`rfile, this`output, this`zfile, this`closeConnection, this`pool
      ensures Reached(Routing.Receive(config, old(State())), r)
    {
      if rfile == [] {
        r := AfterFrame(Closed);
        return;
      }
      rfile := rfile[1..];
      return Some(Raised(SecurityFailed(WrongKind)));
    }

    /** The end of the framer: drop, the 500 line, a raised error, or the decrypted buffer to read from. */
    method AfterFrame(rcv: Received) returns (r: Option<Event>)
      modifies this`output, this`zfile, this`closeConnection, this`pool
      ensures Reached(Routing.AfterFrame(config, old(State()), rcv), r)
    {
      match rcv
      case Closed =>
        var e := Drop();
        return Some(e);
      case DecryptError(_) =>
        output := output + Ascii(DecryptFailure);
        return Some(Undecryptable);
      case BadLength =>
        return Some(Raised(LengthUnreadable));
      case BodyError(err) =>
        return Some(Raised(BodyFailed(err)));
      case Request(data) =>
        zfile := Some(data);
        return None;
    }

    // ------------------------------------------------------------ the request line

    /** `readline(65536).decode().strip()` from the decrypted buffer in encrypted mode, from the socket otherwise. */
    method ReadLineIn()
      modifies this`rfile, this`zfile, this`requestline
      ensures State() == LineRead(old(State()))
    {
      var source := if zfile.Some? then zfile.value else rfile;
      var (raw, rest) := ReadLine(source, LineLimit);
      if zfile.Some? {
        zfile := Some(rest);
      } else {
        rfile := rest;
      }
      requestline := Trim(Decode(raw), UnicodeSpace);
    }

    /** The request line: an empty one drops the connection. */
    method ReadRequest() returns (r: Option<Event>)
      modifies this`rfile, this`zfile, this`requestline, this`closeConnection, this`pool
      ensures Reached(Routing.ReadRequest(config, old(State())), r)
    {
      ReadLineIn();
      if requestline == [] {
        var e := Drop();
        return Some(e);
      }
      return None;
    }

    /** The 301 for an HTTP request, the 400 for an unknown method, or on to the headers. */
    method Classify() returns (r: Option<Event>)
      modifies this`output, this`closeConnection
      ensures Reached(Routing.Classify(old(State())), r)
    {
      var words := Split(requestline, ' ');
      if Probe(requestline) {
        output := output + MovedReply(words[|words| - 1]);
        return Some(Moved);
      } else if words[0] !in Methods {
        output := output + Ascii(BadRequestReply);
        closeConnection := true;
        return Some(BadRequest);
      }
      return None;
    }

    /** `parse_headers(self)` unless the router already holds headers. */
    method Admit() returns (r: Option<Event>)
      modifies this`headers, this`rfile
      ensures Reached(Routing.Admit(old(State())), r)
    {
      if headers == map[] {
        var parsed := ParseHeaders(rfile);
        if parsed.Err? {
          headers := parsed.error.partial;
          return Some(Raised(HeadersFailed(parsed.error)));
        }
        headers, rfile := parsed.value.0, parsed.value.1;
      }
      return None;
    }

    /** The serial number, taken from the headers when the router has none yet, and the connection noted. */
    method Identify() returns (r: Option<Event>)
      modifies this`ssid, this`pool
      ensures Reached(Routing.Identify(config, old(State())), r)
    {
      if ssid == "" {
        if SerialHeader !in headers {
          return Some(Raised(SerialMissing));
        }
        ssid := headers[SerialHeader];
      }
      NoteConnection();
      return None;
    }

    /** The tracking block: the serial number gets a list, and the connection is appended unless listed. */
    method NoteConnection()
      modifies this`pool
      ensures pool == Track(old(pool), ssid, Port(config))
    {
      if ssid !in pool {
        pool := pool[ssid := []];
      }
      var portdata := Port(config);
      if portdata !in pool[ssid] {
        pool := pool[ssid := pool[ssid] + [portdata]];
      }
    }

    /** `SECURE`, or the hand-over to the request handler with the connection kept open. */
    method Conclude() returns (e: Event)
      requires Valid()
      modifies this
      ensures Valid()
      ensures (State(), e) == Routing.Conclude(config, old(State()))
    {
      if Split(requestline, ' ')[0] == "SECURE" {
        e := Secure();
      } else {
        closeConnection := false;
        e := Dispatched;
      }
    }

    // ------------------------------------------------------------ SECURE

    /**
     * `SECURE`: the security object is built from the headers; then
     * encryption goes on, the headers are dropped and the connection is kept open.
     */
    method Secure() returns (e: Event)
      requires Valid()
      modifies this
      ensures Valid()
      ensures (State(), e) == Routing.Secure(config, old(State()))
    {
      var err := BuildSecurity();
      e := Activate(err);
    }

    /** The end of `SECURE`: raise the exception, or turn encryption on, drop the headers and keep the connection. */
    method Activate(err: Option<RouterError>) returns (e: Event)
      requires Valid() && (err.None? ==> security != null)
      modifies this`securityOn, this`headers, this`closeConnection
      ensures Valid()
      ensures (State(), e) == Routing.Activate(old(State()), err)
    {
      if err.Some? {
        return Raised(err.value);
      }
      securityOn := true;
      headers := map[];
      closeConnection := false;
      return Secured;
    }

    /**
     * A new security object replaces the old one as soon as it is built; the
     * ticket is imported, the incarnation set from its header, and both ARC4
     * contexts created. Returns the exception, if one was raised.
     */
    method BuildSecurity() returns (err: Option<RouterError>)
      requires Valid()
      modifies this`security
      ensures Valid() && (err.None? ==> security != null)
      ensures var k := Keying(config, headers);
              && err == k.1
              && (k.0.None? ==> security == old(security))
              && (k.0.Some? ==> security != null && fresh(security) && security.State() == k.0.value)
              && State() == if k.0.Some? then old(State()).(security := k.0) else old(State())
    {
      var created := SecurityContext.Create(config.crypto, config.initialKeyB64, 1);
      if created.Err? {
        return Some(SecurityFailed(created.error));
      }
      security := created.value;
      err := ImportTicket();
    }

    /** The ticket is imported into the new security object, then the incarnation set and the session started. */
    method ImportTicket() returns (err: Option<RouterError>)
      requires security != null && security.crypto == config.crypto
      modifies security
      ensures (security.State(), err) == TicketKeying(config, old(security.State()), headers)
    {
      if TicketHeader !in headers {
        return Some(TicketMissing);
      }
      var o := security.ImportDump(headers[TicketHeader]);
      if o.Fail? {
        return Some(SecurityFailed(o.error));
      }
      err := StartSession();
    }

    /** The incarnation is read from its header and both ARC4 contexts created. */
    method StartSession() returns (err: Option<RouterError>)
      requires security != null && security.crypto == config.crypto
      modifies security
      ensures (security.State(), err) == IncarnationKeying(config, old(security.State()), headers)
    {
      if IncarnationHeader !in headers {
        return Some(IncarnationMissing);
      }
      var n := ParseInt(headers[IncarnationHeader], UnicodeSpace);
      if n.None? {
        return Some(IncarnationUnreadable);
      }
      security.SetIncarnation(n.value);
      var o2 := security.SecureOn();
      if o2.Fail? {
        return Some(SecurityFailed(o2.error));
      }
      return None;
    }

    // ------------------------------------------------------------ handle_request

    /** `handle_request()`: the stream is chosen, then the request answered. */
    method HandleRequest() returns (e: Event)
      requires Valid()
      modifies this, security
      ensures Valid()
      ensures (State(), e) == Handle(config, old(State()))
      ensures Facts(config, old(State()), State(), e)
    {
      HandleFacts(config, State());
      var r := Receive();
      if r.Some? {
        return r.value;
      }
      e := Respond();
    }

    /** The request line, then routing. */
    method Respond() returns (e: Event)
      requires Valid()
      modifies this
      ensures Valid()
      ensures (State(), e) == Routing.Respond(config, old(State()))
    {
      var r := ReadRequest();
      if r.Some? {
        return r.value;
      }
      e := Route();
    }

    /** Classification, then the headers. */
    method Route() returns (e: Event)
      requires Valid()
      modifies this
      ensures Valid()
      ensures (State(), e) == Routing.Route(config, old(State()))
    {
      var r := Classify();
      if r.Some? {
        return r.value;
      }
      e := Accept();
    }

    /** The headers, then the serial number. */
    method Accept() returns (e: Event)
      requires Valid()
      modifies this
      ensures Valid()
      ensures (State(), e) == Routing.Accept(config, old(State()))
    {
      var r := Admit();
      if r.Some? {
        return r.value;
      }
      e := Register();
    }

    /** The serial number and tracking, then `SECURE` or the dispatch. */
    method Register() returns (e: Event)
      requires Valid()
      modifies this
      ensures Valid()
      ensures (State(), e) == Routing.Register(config, old(State()))
    {
      var r := Identify();
      if r.Some? {
        return r.value;
      }
      e := Conclude();
    }
  }
}
