/**
 * What `WTVPRequestRouter.handle_request` does to the router's attributes,
 * stated as functions from the attributes before the call to the attributes
 * after it and the way the call ended. The router class in module `Router`
 * performs the same steps field by field and is proved to end as these
 * functions say; the lemmas here state what a request does.
 */
module Routing {
  import opened Wrappers
  import opened Text
  import opened Primitives
  import opened SecurityState
  import Ticket
  import opened Headers
  import opened Framing
  import opened ConnectionPool

  /**
   * What the router reads but never changes: the primitives, both ports of
   * the connection, and the default initial key of `WTVNetworkSecurity()`
   * (the base64 of eight random bytes drawn once, when the class is defined).
   */
  datatype Config = Config(crypto: Crypto, clientPort: nat, serverPort: nat, initialKeyB64: string)

  /**
   * The router's attributes. `rfile` is what the socket will still deliver and
   * `output` what has been written to it; `zfile` is the decrypted request
   * buffer, `None` while `zfile` is the socket itself; the security object is
   * `None` while unset; an empty `headers` stands for both `None` and `{}`,
   * an empty `ssid` for `None`; `pool` is the Redis `connections` document.
   */
  datatype RState = RState(
    rfile: seq<byte>,
    output: seq<byte>,
    zfile: Option<seq<byte>>,
    securityOn: bool,
    closeConnection: bool,
    security: Option<SecState>,
    headers: map<string, string>,
    ssid: string,
    requestline: string,
    pool: Pool)

  /** The exceptions that leave `handle_request`. */
  datatype RouterError =
    | LengthUnreadable                  // a `POST` whose length field is missing, not an integer, or below -1
    | BodyFailed(cause: SecurityError)  // decrypting a `POST` body raised
    | HeadersFailed(reason: HeaderError) // `parse_headers` raised
    | SerialMissing                     // no `wtv-client-serial-number` header
    | PoolFailed(problem: PoolError)    // `garbage_collection` raised
    | SecurityFailed(failure: SecurityError) // `WTVNetworkSecurity()`, `importdump` or `secure_on` raised
    | TicketMissing                     // `SECURE` without `wtv-ticket`: `Exception('')`
    | IncarnationMissing                // no `wtv-incarnation` header: `KeyError`
    | IncarnationUnreadable             // `int()` of the incarnation raised `ValueError`
    | MissingMethod                     // `import_dump` is not an attribute of the security object: `AttributeError`

  /** How `handle_request` ended. */
  datatype Event =
    | Dropped        // the connection ended: nothing more to read, or an empty request line
    | Undecryptable  // a byte could not be decrypted; a 500 line was written
    | Moved          // an HTTP request was answered with a 301
    | BadRequest     // an unknown method was answered with a 400
    | Secured        // `SECURE` switched the connection to encrypted mode
    | Dispatched     // the request went to `WTVPRequestHandler`
    | Raised(error: RouterError)

  /** The longest request line read. */
  const LineLimit: nat := 65536

  const SerialHeader: string := "wtv-client-serial-number"
  const TicketHeader: string := "wtv-ticket"
  const IncarnationHeader: string := "wtv-incarnation"

  /** The methods the router accepts. */
  const Methods: set<string> := {"GET", "POST", "HEAD", "SECURE"}

  /**
   * What is written when a byte cannot be decrypted: `'500 '` and the message
   * of the `RuntimeError`, and the only error byte decryption raises is the
   * missing first context (`Framing.Decrypt1`).
   */
  const DecryptFailure: string := "500 Invalid RC4 decryption context"

  const BadRequestReply: string := "400 Bad Request\nConnection: close\n\n"

  /** The reply to an HTTP request, after the echoed last word of its request line. */
  const MovedTail: string :=
    " 301 Moved\nConnection: close\nContent-Length: 0\nContent-Type: text/html\nLocation: https://github.com/samicrusader/pyWebTV\n\n"

  /** An HTTP request line: the router answers it with a redirect. */
  predicate Probe(line: string) {
    EndsWith(line, "HTTP/1.0") || EndsWith(line, "HTTP/1.1")
  }

  /** The stream the request line is read from: the decrypted buffer, or else the socket. */
  function Source(s: RState): seq<byte> {
    if s.zfile.Some? then s.zfile.value else s.rfile
  }

  /** The state once that stream has only `rest` left. */
  function Consumed(s: RState, rest: seq<byte>): RState {
    if s.zfile.Some? then s.(zfile := Some(rest)) else s.(rfile := rest)
  }

  function Port(cfg: Config): string {
    PortData(cfg.clientPort, cfg.serverPort)
  }

  /** Where a stage of `handle_request` leaves the request: ended with an event, or handed on in a new state. */
  datatype Progress = Finished(after: RState, event: Event) | Continue(next: RState)

  /**
   * `handle_request()`: find the stream to read from, read the request line,
   * classify it, take the headers and the serial number, then end with
   * `SECURE` or the dispatch. Only an object in encrypted mode needs a
   * security object.
   */
  function Handle(cfg: Config, s: RState): (RState, Event)
    requires s.securityOn ==> s.security.Some?
  {
    match Receive(cfg, s)
    case Finished(t, e) => (t, e)
    case Continue(s1) => Respond(cfg, s1)
  }

  /** The rest of `handle_request` once the stream is chosen: the request line, then routing. */
  function Respond(cfg: Config, s: RState): (RState, Event) {
    match ReadRequest(cfg, s)
    case Finished(t, e) => (t, e)
    case Continue(s1) => Route(cfg, s1)
  }

  /** The rest once the request line is read: classification, then the headers. */
  function Route(cfg: Config, s: RState): (RState, Event) {
    match Classify(s)
    case Finished(t, e) => (t, e)
    case Continue(s1) => Accept(cfg, s1)
  }

  /** The rest once the request is a WTVP request: the headers, then the serial number. */
  function Accept(cfg: Config, s: RState): (RState, Event) {
    match Admit(s)
    case Finished(t, e) => (t, e)
    case Continue(s1) => Register(cfg, s1)
  }

  /** The rest once the headers are known: the serial number and tracking, then `SECURE` or the dispatch. */
  function Register(cfg: Config, s: RState): (RState, Event) {
    match Identify(cfg, s)
    case Finished(t, e) => (t, e)
    case Continue(s1) => Conclude(cfg, s1)
  }

  /**
   * Plain connections read from the socket; encrypted ones first frame one
   * request off the socket with the first ARC4 context. A first context
   * attribute that a ticket set to text, bytes or an integer has no `decrypt`:
   * the first byte read raises `AttributeError`, which the framer does not
   * catch.
   */
  function Receive(cfg: Config, s: RState): Progress
    requires s.securityOn ==> s.security.Some?
  {
    if !s.securityOn then Continue(s.(zfile := None))
    else if Key1 in s.security.value.foreignContexts then
      if s.rfile == [] then AfterFrame(cfg, s, Closed)
      else Finished(s.(rfile := s.rfile[1..]), Raised(SecurityFailed(WrongKind)))
    else
      var sec := s.security.value;
      var (ctx, rcv, rest) := FrameRequest(cfg.crypto, sec.rc4Key1, s.rfile);
      AfterFrame(cfg, s.(rfile := rest, security := Some(sec.(rc4Key1 := ctx))), rcv)
  }

  /** The end of the encrypted framer: drop, write the 500 line, raise, or go on with the buffer. */
  function AfterFrame(cfg: Config, s: RState, rcv: Received): Progress {
    match rcv
    case Closed => var (t, e) := Drop(cfg, s); Finished(t, e)
    case DecryptError(_) => Finished(s.(output := s.output + Ascii(DecryptFailure)), Undecryptable)
    case BadLength => Finished(s, Raised(LengthUnreadable))
    case BodyError(e) => Finished(s, Raised(BodyFailed(e)))
    case Request(data) => Continue(s.(zfile := Some(data)))
  }

  /** A dropped connection: `close_connection = True`, then `garbage_collection`. */
  function Drop(cfg: Config, s: RState): (RState, Event) {
    var s1 := s.(closeConnection := true);
    match Collect(s1.pool, s1.ssid, Port(cfg))
    case Err(e) => (s1, Raised(PoolFailed(e)))
    case Ok(p) => (s1.(pool := p), Dropped)
  }

  /** `readline(65536).decode().strip()` on the stream `Source` chooses: the request line, and the stream after it. */
  function LineRead(s: RState): RState {
    var (raw, rest) := ReadLine(Source(s), LineLimit);
    Consumed(s, rest).(requestline := Trim(Decode(raw), UnicodeSpace))
  }

  /** The request line: an empty one drops the connection. */
  function ReadRequest(cfg: Config, s: RState): Progress {
    var s1 := LineRead(s);
    if s1.requestline == [] then var (t, e) := Drop(cfg, s1); Finished(t, e) else Continue(s1)
  }

  /**
   * The reply to an HTTP request whose request line ends with `word`, encoded.
   * The fixed replies are ASCII, so they are written one byte per character,
   * which is their UTF-8 encoding (`Text.AsciiIsEncode`).
   */
  function MovedReply(word: string): seq<byte> {
    Encode(word) + Ascii(MovedTail)
  }

  /** The first word of the request line: `words[0]`. */
  function Verb(s: RState): string {
    Split(s.requestline, ' ')[0]
  }

  /** Classification of the request line: HTTP probe, unknown method, or a WTVP request. */
  function Classify(s: RState): Progress {
    var words := Split(s.requestline, ' ');
    if Probe(s.requestline) then
      Finished(s.(output := s.output + MovedReply(words[|words| - 1])), Moved)
    else if words[0] !in Methods then
      Finished(s.(output := s.output + Ascii(BadRequestReply), closeConnection := true), BadRequest)
    else Continue(s)
  }

  /** The box headers, parsed from the socket unless the router already holds some. */
  function Admit(s: RState): Progress {
    var parsed := if s.headers == map[] then HeaderBlock(s.rfile, map[]) else Ok((s.headers, s.rfile));
    match parsed
    case Err(e) => Finished(s.(headers := e.partial), Raised(HeadersFailed(e)))
    case Ok((h, rest)) => Continue(s.(headers := h, rfile := rest))
  }

  /** The serial number, taken from the headers the first time, and the connection noted in the pool. */
  function Identify(cfg: Config, s: RState): Progress {
    if s.ssid == "" && SerialHeader !in s.headers then Finished(s, Raised(SerialMissing))
    else
      var s1 := if s.ssid == "" then s.(ssid := s.headers[SerialHeader]) else s;
      Continue(s1.(pool := Track(s1.pool, s1.ssid, Port(cfg))))
  }

  /** `SECURE`, or the hand-over to `WTVPRequestHandler` with the connection kept open. */
  function Conclude(cfg: Config, s: RState): (RState, Event) {
    if Verb(s) == "SECURE" then Secure(cfg, s) else (s.(closeConnection := false), Dispatched)
  }

  /**
   * The security object `SECURE` builds from the headers: a new object with the
   * default key, the ticket imported, the incarnation taken from its header and
   * both ARC4 contexts created. Returns the object as far as it got (none if
   * the constructor itself raised) and the exception, if one was raised.
   */
  function Keying(cfg: Config, h: map<string, string>): (Option<SecState>, Option<RouterError>) {
    match InitialState(cfg.crypto, cfg.initialKeyB64, 1)
    case Err(e) => (None, Some(SecurityFailed(e)))
    case Ok(created) =>
      var (sec, err) := TicketKeying(cfg, created, h);
      (Some(sec), err)
  }

  /** `SECURE` from the ticket on, with the new security object `created`. */
  function TicketKeying(cfg: Config, created: SecState, h: map<string, string>): (SecState, Option<RouterError>) {
    if TicketHeader !in h then (created, Some(TicketMissing))
    else
      var (imported, o) := Ticket.ImportDump(cfg.crypto, created, h[TicketHeader]);
      if o.Fail? then (imported, Some(SecurityFailed(o.error)))
      else IncarnationKeying(cfg, imported, h)
  }

  /** `SECURE` from the incarnation header on, with the ticket imported into `imported`. */
  function IncarnationKeying(cfg: Config, imported: SecState, h: map<string, string>): (SecState, Option<RouterError>) {
    if IncarnationHeader !in h then (imported, Some(IncarnationMissing))
    else match ParseInt(h[IncarnationHeader], UnicodeSpace)
      case None => (imported, Some(IncarnationUnreadable))
      case Some(n) =>
        var (keyed, o2) := SessionKeying(cfg.crypto, WithIncarnation(imported, n));
        if o2.Fail? then (keyed, Some(SecurityFailed(o2.error)))
        else (keyed, None)
  }

  /**
   * `SECURE`: the router's security object is replaced as soon as the
   * constructor returns; a raised exception leaves the rest as it was, and
   * success turns encryption on, drops the headers and keeps the connection open.
   */
  function Secure(cfg: Config, s: RState): (RState, Event) {
    var (sec, err) := Keying(cfg, s.headers);
    Activate(if sec.Some? then s.(security := sec) else s, err)
  }

  /** The end of `SECURE`, once the security object is in place: raise, or go encrypted. */
  function Activate(s: RState, err: Option<RouterError>): (RState, Event) {
    if err.Some? then (s, Raised(err.value))
    else (s.(securityOn := true, headers := map[], closeConnection := false), Secured)
  }

  // ---------------------------------------------------------------- what a request does

  /** The router's standing facts: encrypted mode has a security object, and a known serial number has a list in the pool. */
  predicate Inv(s: RState) {
    (s.securityOn ==> s.security.Some?) && (s.ssid != "" ==> s.ssid in s.pool)
  }

  /**
   * `close_connection` by how the request ended: a dropped connection and an
   * unknown method close it, `SECURE` and a dispatched request keep it open,
   * and the 301 and 500 replies leave it as it was.
   */
  predicate KeepAliveRule(before: bool, t: RState, e: Event) {
    && (e == Dropped || e == BadRequest ==> t.closeConnection)
    && (e == Secured || e == Dispatched ==> !t.closeConnection)
    && (e == Moved || e == Undecryptable ==> t.closeConnection == before)
  }

  /**
   * What the facts compare with is kept by a stage that hands the request on:
   * `close_connection`, encrypted mode, a security object, the standing facts
   * and what was written.
   */
  predicate HandsOn(s: RState, t: RState) {
    && t.closeConnection == s.closeConnection && t.securityOn == s.securityOn
    && (s.security.Some? ==> t.security.Some?) && (Inv(s) ==> Inv(t))
    && t.output == s.output
  }

  /**
   * The facts every request keeps, from state `s` to state `t` ending with
   * `e`: the keep-alive rule; encrypted mode switches only at a `SECURE`,
   * which also clears the headers; a security object is never lost; the
   * standing facts are preserved, and under them dropping a connection never
   * raises; an admitted request has its connection in the pool; and only the
   * 301, the 400 and the 500 write to the socket.
   */
  predicate Facts(cfg: Config, s: RState, t: RState, e: Event) {
    && KeepAliveRule(s.closeConnection, t, e)
    && (e != Secured ==> t.securityOn == s.securityOn)
    && (e == Secured ==> t.securityOn && t.security.Some? && t.headers == map[])
    && (s.security.Some? ==> t.security.Some?)
    && (Inv(s) ==> Inv(t) && !(e.Raised? && e.error.PoolFailed?))
    && (e == Secured || e == Dispatched ==> Tracked(cfg, t))
    && (e != Moved && e != BadRequest && e != Undecryptable ==> t.output == s.output)
  }

  /** The connection is listed under the router's serial number. */
  predicate Tracked(cfg: Config, s: RState) {
    s.ssid in s.pool && Port(cfg) in s.pool[s.ssid]
  }

  /** A stage ends under the facts or hands on. */
  predicate StageFacts(cfg: Config, s: RState, p: Progress) {
    && (p.Finished? ==> Facts(cfg, s, p.after, p.event))
    && (p.Continue? ==> HandsOn(s, p.next))
  }

  /** The facts carry over a stage that handed on. */
  lemma FactsFrom(cfg: Config, s: RState, s1: RState, t: RState, e: Event)
    requires HandsOn(s, s1) && Facts(cfg, s1, t, e)
    ensures Facts(cfg, s, t, e)
  {
  }

  lemma DropFacts(cfg: Config, s: RState)
    ensures Facts(cfg, s, Drop(cfg, s).0, Drop(cfg, s).1)
    ensures Drop(cfg, s).1 == Dropped <==> s.ssid == "" || s.ssid in s.pool
    ensures Drop(cfg, s).1 != Dropped ==> Drop(cfg, s).1 == Raised(PoolFailed(UnknownSerial))
  {
  }

  /** The framer ends the request under the facts, or hands the buffer on. */
  lemma AfterFrameFacts(cfg: Config, s: RState, rcv: Received)
    ensures StageFacts(cfg, s, AfterFrame(cfg, s, rcv))
  {
    if rcv.Closed? {
      DropFacts(cfg, s);
    }
  }

  lemma ReceiveFacts(cfg: Config, s: RState)
    requires s.securityOn ==> s.security.Some?
    ensures StageFacts(cfg, s, Receive(cfg, s))
  {
    if s.securityOn && Key1 in s.security.value.foreignContexts {
      AfterFrameFacts(cfg, s, Closed);
    } else if s.securityOn {
      var sec := s.security.value;
      var (ctx, rcv, rest) := FrameRequest(cfg.crypto, sec.rc4Key1, s.rfile);
      var s1 := s.(rfile := rest, security := Some(sec.(rc4Key1 := ctx)));
      assert Receive(cfg, s) == AfterFrame(cfg, s1, rcv);
      AfterFrameFacts(cfg, s1, rcv);
    }
  }

  lemma ReadRequestFacts(cfg: Config, s: RState)
    ensures StageFacts(cfg, s, ReadRequest(cfg, s))
  {
    DropFacts(cfg, LineRead(s));
  }

  lemma ClassifyFacts(cfg: Config, s: RState)
    ensures StageFacts(cfg, s, Classify(s))
  {
  }

  lemma AdmitFacts(cfg: Config, s: RState)
    ensures StageFacts(cfg, s, Admit(s))
  {
  }

  /** Noting the connection keeps the standing facts and lists the connection. */
  lemma IdentifyFacts(cfg: Config, s: RState)
    ensures StageFacts(cfg, s, Identify(cfg, s))
    ensures Identify(cfg, s).Continue? ==> Tracked(cfg, Identify(cfg, s).next)
  {
    if !(s.ssid == "" && SerialHeader !in s.headers) {
      var s1 := if s.ssid == "" then s.(ssid := s.headers[SerialHeader]) else s;
      TrackRecords(s1.pool, s1.ssid, Port(cfg));
    }
  }

  /** How `SECURE` ends: encrypted and open, or raised with the rest as it was; the pool and the serial number never change. */
  predicate SecureOutcome(s: RState, t: RState, e: Event) {
    && (e == Secured || (e.Raised? && !e.error.PoolFailed?))
    && (e == Secured ==> t.securityOn && !t.closeConnection && t.headers == map[] && t.security.Some?)
    && (e != Secured ==> t.securityOn == s.securityOn && t.closeConnection == s.closeConnection)
    && (t.security.Some? || t.security == s.security) && t.pool == s.pool && t.ssid == s.ssid
    && t.output == s.output
  }

  lemma SecureFacts(cfg: Config, s: RState)
    ensures SecureOutcome(s, Secure(cfg, s).0, Secure(cfg, s).1)
  {
  }

  /** A tracked request ends with `SECURE` or the dispatch, under the facts. */
  lemma ConcludeFacts(cfg: Config, s: RState)
    requires Tracked(cfg, s)
    ensures Facts(cfg, s, Conclude(cfg, s).0, Conclude(cfg, s).1)
    ensures Conclude(cfg, s).1 == Secured || Conclude(cfg, s).1 == Dispatched || Conclude(cfg, s).1.Raised?
  {
    if Verb(s) == "SECURE" {
      SecureFacts(cfg, s);
    }
  }

  lemma RegisterFacts(cfg: Config, s: RState)
    ensures Facts(cfg, s, Register(cfg, s).0, Register(cfg, s).1)
  {
    IdentifyFacts(cfg, s);
    match Identify(cfg, s)
    case Finished(_, _) =>
    case Continue(s1) =>
      ConcludeFacts(cfg, s1);
      FactsFrom(cfg, s, s1, Conclude(cfg, s1).0, Conclude(cfg, s1).1);
  }

  lemma AcceptFacts(cfg: Config, s: RState)
    ensures Facts(cfg, s, Accept(cfg, s).0, Accept(cfg, s).1)
  {
    AdmitFacts(cfg, s);
    match Admit(s)
    case Finished(_, _) =>
    case Continue(s1) =>
      RegisterFacts(cfg, s1);
      FactsFrom(cfg, s, s1, Register(cfg, s1).0, Register(cfg, s1).1);
  }

  lemma RouteFacts(cfg: Config, s: RState)
    ensures Facts(cfg, s, Route(cfg, s).0, Route(cfg, s).1)
  {
    ClassifyFacts(cfg, s);
    match Classify(s)
    case Finished(_, _) =>
    case Continue(s1) =>
      AcceptFacts(cfg, s1);
      FactsFrom(cfg, s, s1, Accept(cfg, s1).0, Accept(cfg, s1).1);
  }

  lemma RespondFacts(cfg: Config, s: RState)
    ensures Facts(cfg, s, Respond(cfg, s).0, Respond(cfg, s).1)
  {
    ReadRequestFacts(cfg, s);
    match ReadRequest(cfg, s)
    case Finished(_, _) =>
    case Continue(s1) =>
      RouteFacts(cfg, s1);
      FactsFrom(cfg, s, s1, Route(cfg, s1).0, Route(cfg, s1).1);
  }

  /**
   * Every request keeps the facts: `close_connection` follows the keep-alive
   * rule, encrypted mode is switched on only by `SECURE`, the standing facts
   * hold afterwards and dropping never raises under them, an admitted
   * request has its connection tracked, and only the three error replies
   * write to the socket.
   */
  lemma HandleFacts(cfg: Config, s: RState)
    requires s.securityOn ==> s.security.Some?
    ensures Facts(cfg, s, Handle(cfg, s).0, Handle(cfg, s).1)
  {
    ReceiveFacts(cfg, s);
    match Receive(cfg, s)
    case Finished(_, _) =>
    case Continue(s1) =>
      RespondFacts(cfg, s1);
      FactsFrom(cfg, s, s1, Respond(cfg, s1).0, Respond(cfg, s1).1);
  }

  // ---------------------------------------------------------------- classification

  /**
   * The request line decides the reply: a line ending in `HTTP/1.0` or
   * `HTTP/1.1` gets the 301 with its last word echoed and nothing else
   * changes; otherwise a first word outside the four methods gets the 400 and
   * closes the connection; every other line goes on unchanged.
   */
  lemma ClassifyOutcome(s: RState)
    ensures var words := Split(s.requestline, ' ');
            && (Classify(s).Continue? <==> !Probe(s.requestline) && words[0] in Methods)
            && (Classify(s).Continue? ==> Classify(s).next == s)
            && (Probe(s.requestline) ==>
                  Classify(s) == Finished(s.(output := s.output + MovedReply(words[|words| - 1])), Moved))
            && (!Probe(s.requestline) && words[0] !in Methods ==>
                  Classify(s) == Finished(s.(output := s.output + Ascii(BadRequestReply), closeConnection := true), BadRequest))
  {
  }

  /** The word echoed in the 301 is itself the `HTTP/1.x` version the line ends with. */
  lemma ProbeEchoesVersion(line: string)
    requires Probe(line)
    ensures var words := Split(line, ' '); Probe(words[|words| - 1])
  {
    if EndsWith(line, "HTTP/1.0") {
      SplitKeepsSuffix(line, ' ', "HTTP/1.0");
    } else {
      SplitKeepsSuffix(line, ' ', "HTTP/1.1");
    }
  }

  /** Tracking a connection that is already listed changes nothing: a second request on it is noted once. */
  lemma IdentifyIdempotent(cfg: Config, s: RState)
    requires Identify(cfg, s).Continue?
    ensures Identify(cfg, Identify(cfg, s).next) == Identify(cfg, s)
  {
    var s1 := if s.ssid == "" then s.(ssid := s.headers[SerialHeader]) else s;
    TrackRecords(s1.pool, s1.ssid, Port(cfg));
    TrackIdempotent(s1.pool, s1.ssid, Port(cfg));
  }

  // ---------------------------------------------------------------- SECURE

  /**
   * With well-behaved primitives, `SECURE` succeeds exactly when the default
   * key is usable, a ticket is present and imports without leaving a session
   * key that is not bytes, and the incarnation header holds an integer in
   * 0 .. 2^32 - 1; a missing ticket always raises. On success the security
   * object is the imported one with that incarnation and both ARC4 contexts
   * at the start of the keystreams of MD5(session key ++ incarnation as 4
   * big-endian bytes ++ session key).
   */
  lemma KeyingOutcome(cfg: Config, h: map<string, string>)
    requires cfg.crypto.WellFormed()
    ensures var init := InitialState(cfg.crypto, cfg.initialKeyB64, 1);
            init.Ok? && TicketHeader !in h ==> Keying(cfg, h).1 == Some(TicketMissing)
    ensures var init := InitialState(cfg.crypto, cfg.initialKeyB64, 1);
            Keying(cfg, h).1.None? <==>
              && init.Ok? && TicketHeader in h
              && Ticket.ImportDump(cfg.crypto, init.value, h[TicketHeader]).1.Pass?
              && SessionKey1 !in Ticket.ImportDump(cfg.crypto, init.value, h[TicketHeader]).0.foreign
              && SessionKey2 !in Ticket.ImportDump(cfg.crypto, init.value, h[TicketHeader]).0.foreign
              && IncarnationHeader in h && ParseInt(h[IncarnationHeader], UnicodeSpace).Some?
              && 0 <= ParseInt(h[IncarnationHeader], UnicodeSpace).value < 0x1_0000_0000
    ensures Keying(cfg, h).1.None? ==>
              var imported := Ticket.ImportDump(cfg.crypto, InitialState(cfg.crypto, cfg.initialKeyB64, 1).value, h[TicketHeader]).0;
              var n := ParseInt(h[IncarnationHeader], UnicodeSpace).value;
              SessionStarted(cfg.crypto, imported, n, Keying(cfg, h).0)
  {
    match InitialState(cfg.crypto, cfg.initialKeyB64, 1)
    case Err(_) =>
    case Ok(created) =>
      if TicketHeader in h {
        var (imported, o) := Ticket.ImportDump(cfg.crypto, created, h[TicketHeader]);
        if o.Pass? && IncarnationHeader in h && ParseInt(h[IncarnationHeader], UnicodeSpace).Some? {
          var n := ParseInt(h[IncarnationHeader], UnicodeSpace).value;
          var s := WithIncarnation(imported, n);
          if !(0 <= n < 0x1_0000_0000) {
            assert SessionKeying(cfg.crypto, s).1.Fail?;
          } else if SessionKey1 in imported.foreign || SessionKey2 in imported.foreign {
            SessionKeyingWrongKind(cfg.crypto, s);
          } else {
            StartedBy(cfg.crypto, imported, n);
            assert Keying(cfg, h) == (Some(SessionKeying(cfg.crypto, s).0), None);
          }
        }
      }
  }

  /**
   * `sec` is `imported` with incarnation `n` and fresh ARC4 contexts for the
   * keys derived by `SecureOn`; every other attribute is the imported one.
   */
  ghost predicate SessionStarted(c: Crypto, imported: SecState, n: int, sec: Option<SecState>)
    requires 0 <= n < 0x1_0000_0000
  {
    var raw1 := c.md5(imported.sessionKey1 + BigEndian4(n) + imported.sessionKey1);
    var raw2 := c.md5(imported.sessionKey2 + BigEndian4(n) + imported.sessionKey2);
    && sec.Some? && GetAttr(sec.value, Incarnation) == VInt(n)
    && sec.value.rc4Key1 == Some(Rc4Context(raw1, 0)) && sec.value.rc4Key2 == Some(Rc4Context(raw2, 0))
    && GetAttr(sec.value, RawKey1) == VBytes(raw1) && GetAttr(sec.value, RawKey2) == VBytes(raw2)
    && Key1 !in sec.value.foreignContexts && Key2 !in sec.value.foreignContexts
    && sec.value.foreign == imported.foreign - {Incarnation, RawKey1, RawKey2}
    && sec.value.(incarnation := imported.incarnation, rc4Key1 := imported.rc4Key1, rc4Key2 := imported.rc4Key2,
                  rc4RawKey1 := imported.rc4RawKey1, rc4RawKey2 := imported.rc4RawKey2,
                  foreign := imported.foreign, foreignContexts := imported.foreignContexts) == imported
  }

  /** Setting the incarnation and calling `SecureOn` on an imported object whose session keys are bytes starts the session. */
  lemma StartedBy(c: Crypto, imported: SecState, n: int)
    requires c.KeysAccepted() && 0 <= n < 0x1_0000_0000
    requires SessionKey1 !in imported.foreign && SessionKey2 !in imported.foreign
    ensures SessionKeying(c, WithIncarnation(imported, n)).1 == Pass
    ensures SessionStarted(c, imported, n, Some(SessionKeying(c, WithIncarnation(imported, n)).0))
  {
    var s := WithIncarnation(imported, n);
    SessionKeyingEffect(c, s);
    var t := SessionKeying(c, s).0;
    assert t.foreign == imported.foreign - {Incarnation} - {RawKey1, RawKey2};
  }

  /** A request that ends `Secured` leaves the router with the security object `Keying` built from its headers. */
  lemma SecuredUsesKeying(cfg: Config, s: RState)
    ensures Secure(cfg, s).1 == Secured <==> Keying(cfg, s.headers).1.None?
    ensures Secure(cfg, s).1 == Secured ==> Secure(cfg, s).0.security == Keying(cfg, s.headers).0
    ensures Secure(cfg, s).1 == Raised(TicketMissing) <==> Keying(cfg, s.headers).1 == Some(TicketMissing)
  {
  }

  // ---------------------------------------------------------------- SECURE as written

  /**
   * `SECURE` as the router writes it: `import_dump` is not an attribute of
   * `WTVNetworkSecurity` (its method is `importdump`), so with a ticket
   * present the call raises `AttributeError` right after the new object is
   * installed, before the incarnation is read or `secure_on` (also undefined;
   * the method is `SecureOn`) is reached.
   */
  function SecureAsWritten(cfg: Config, s: RState): (RState, Event) {
    match InitialState(cfg.crypto, cfg.initialKeyB64, 1)
    case Err(e) => (s, Raised(SecurityFailed(e)))
    case Ok(created) =>
      (s.(security := Some(created)), Raised(if TicketHeader in s.headers then MissingMethod else TicketMissing))
  }

  /**
   * As written, `SECURE` always raises and leaves encrypted mode as it was;
   * with a usable default key and a ticket the error is the missing
   * `import_dump`. Every request the corrected `Secure` switches to encrypted
   * mode is one of these.
   */
  lemma SecureAsWrittenNeverSecures(cfg: Config, s: RState)
    ensures SecureAsWritten(cfg, s).1.Raised? && SecureAsWritten(cfg, s).0.securityOn == s.securityOn
    ensures InitialState(cfg.crypto, cfg.initialKeyB64, 1).Ok? && TicketHeader in s.headers ==>
              SecureAsWritten(cfg, s).1 == Raised(MissingMethod)
    ensures Secure(cfg, s).1 == Secured ==> SecureAsWritten(cfg, s).1 == Raised(MissingMethod)
  {
    SecuredUsesKeying(cfg, s);
  }

  // ---------------------------------------------------------------- end of input

  /** Nothing more to read: the connection is dropped and closed, without raising under the standing facts. */
  lemma EmptyInputDrops(cfg: Config, s: RState)
    requires Inv(s) && s.rfile == []
    ensures Handle(cfg, s).1 == Dropped && Handle(cfg, s).0.closeConnection
  {
    ReceiveEmpty(cfg, s);
    match Receive(cfg, s)
    case Finished(_, _) =>
    case Continue(s1) =>
      ReadRequestEmpty(cfg, s1);
      assert Respond(cfg, s1) == (ReadRequest(cfg, s1).after, ReadRequest(cfg, s1).event);
  }

  lemma ReceiveEmpty(cfg: Config, s: RState)
    requires Inv(s) && s.rfile == []
    ensures Receive(cfg, s).Finished? ==> Receive(cfg, s).event == Dropped && Receive(cfg, s).after.closeConnection
    ensures Receive(cfg, s).Continue? ==> Inv(Receive(cfg, s).next) && Source(Receive(cfg, s).next) == []
  {
    if s.securityOn && Key1 in s.security.value.foreignContexts {
      assert Receive(cfg, s) == AfterFrame(cfg, s, Closed);
    } else if s.securityOn {
      var sec := s.security.value;
      assert FrameRequest(cfg.crypto, sec.rc4Key1, []) == (sec.rc4Key1, Closed, []);
      var s1 := s.(security := Some(sec.(rc4Key1 := sec.rc4Key1)));
      assert Receive(cfg, s) == AfterFrame(cfg, s1, Closed);
    }
  }

  lemma ReadRequestEmpty(cfg: Config, s: RState)
    requires Inv(s) && Source(s) == []
    ensures ReadRequest(cfg, s).Finished? && ReadRequest(cfg, s).event == Dropped && ReadRequest(cfg, s).after.closeConnection
  {
    assert ReadLine([], LineLimit) == ([], []);
    assert Trim(Decode([]), UnicodeSpace) == [];
    assert LineRead(s).requestline == [];
  }
}
