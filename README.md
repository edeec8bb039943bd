# pyWebTV WTVP server core, modelled in Dafny

pyWebTV is a server for the WebTV protocol (WTVP), the HTTP-like protocol that
WebTV / MSN TV set-top boxes speak. This project models the sequential core of
its request path and proves properties of that model:

- **The per-connection security object** (`WTVNetworkSecurity`, modules
  `SecurityState`, `Ticket`, `Security`). It covers:
  - the two-slot rotating DES shared-key history;
  - the challenge/response construction and its byte layout;
  - the derivation of the two ARC4 session keys from the session keys and the
    incarnation;
  - the guarded encrypt/decrypt calls;
  - the tagged, escaped ticket serialisation (`dump` / `importdump`).

  `Security.SecurityContext` is a class whose methods update its fields as the
  Python methods do. Each method is proved equal to a state-transition function
  in `SecurityState` or `Ticket`, and the lemmas about those functions state
  what the operations promise.
- **The request router** (`WTVPRequestRouter.handle_request`, modules `Framing`,
  `Headers`, `ConnectionPool`, `Routing`, `Router`). It covers:
  - the encrypted-mode framer, which decrypts and buffers one byte at a time up
    to a tolerated terminator, then reads the `POST` body;
  - request-line classification: the 301 for HTTP, the 400 for an unknown
    method, and the `SECURE` switch to encrypted mode;
  - header parsing;
  - the serial number;
  - connection tracking in the pool;
  - the garbage-collection step when a connection drops.

  `Router.RequestRouter` is a class with the router's attributes as fields. Each
  stage of `handle_request` is a method proved against the matching function of
  `Routing`, and `Routing.HandleFacts` states what every request keeps.
- **The request handler's parsers** (modules `Urls` and `FilePath`):
  - `parse_url`;
  - `decode_data_params`;
  - the four-candidate static-file lookup `return_filepath`, with its traversal
    guard.
- **The response serialiser** (`WTVPResponse`, module `Response`):
  - the status table;
  - the keep-alive line;
  - the handler's headers, with the `^n` marker cut;
  - `Content-Length`, `Content-Type`, the blank line and the body.

  The proved round trip says what a client reads back from a response.
- **The `wtv-service` header builder** `return_service` (module `Service`).

The cryptographic and encoding primitives are uninterpreted:
- DES-ECB;
- MD5;
- ARC4, as a keystream indexed by position;
- base64;
- JSON encoding and decoding.

They are fields of a `Primitives.Crypto` value. The only laws the proofs use are
collected in `Crypto.WellFormed`: lengths, the base64 and JSON round trips, and
ARC4 as a stream cipher that XORs the data with the keystream from its
position on. Lemmas about `SecureOn` need only the two laws in
`Crypto.KeysAccepted`: MD5 gives 16 bytes, and `ARC4.new` accepts a 16-byte
key. That ARC4 undoes itself is proved from the XOR law
(`Primitives.Rc4Involution`). These laws are assumed only where a lemma's `requires`
names them. Bytes are the newtype `Primitives.byte` (0 .. 255). Text is
`string`.

Some of the code's behaviour that the model keeps as written:
- The status table holds 200, 302 and 500 only. Any other code fails to
  serialise.
- `SecureOn` does not check that session keys were set. It raises only when
  the incarnation or a session key is not of its kind, or when the incarnation
  cannot be written as 4 big-endian bytes.
- The class's attributes are dynamically typed. `setattr` in `importdump`
  stores a value of any kind under any attribute, including the two ARC4
  context attributes. The model keeps such values, and a later use that
  Python would reject raises `WrongKind`.
- Header parsing in the router reads the raw socket even in encrypted mode,
  where the decrypted buffer holds the request. The model has both streams, as
  the code does.
- The router calls `import_dump`, `secure_on` and `decrypt(1, ..)`, which the
  security class does not define. `Routing.SecureAsWritten` models `SECURE` as
  written. The rest of the model calls the evidently intended `importdump`,
  `SecureOn` and `DecryptKey1` (see "## Findings").
- The router stores the value of `list.append` as the serial number's list,
  so a connection is never recorded. `ConnectionPool.TrackAsWritten` models
  that. The router's model instead appends in place when it notes a
  connection (`ConnectionPool.Track`, see "## Findings"), so the pool
  never holds `null`.

## Model

| member | source | states |
|---|---|---|
| SecurityState.Rotate | pywebtv/security.py:99-106 | the new current key is the key and its base64 mirror; the first call (empty past key) puts the key into the past slot too, every later call moves the old current key and mirror into the past slot; no other attribute changes |
| SecurityState.ShiftPast | pywebtv/security.py:99-104 | the past slot of `SetSharedKey`: the key and its base64 when the past key is `b''`, otherwise whatever the current key and its mirror hold |
| SecurityState.Install | pywebtv/security.py:105-106 | the current slot of `SetSharedKey`: the key and its base64 |
| SecurityState.KeyRotation | pywebtv/security.py:98-108 | `SetSharedKey` succeeds exactly for an 8-byte key and then rotates; any other length raises "Invalid shared key length" and leaves the state unchanged |
| SecurityState.RotatePreservesConsistent | pywebtv/security.py:98-106 | rotation keeps both slots 8 bytes long with up-to-date base64 mirrors |
| SecurityState.RotateTwice | pywebtv/security.py:99-106 | after two successful calls the first key is in the past slot (with its base64) and the second is current |
| SecurityState.InitialState | pywebtv/security.py:41-50 | a new object records the initial key and its base64, the incarnation, and installs the key in both slots; a bad base64 key or a key that is not 8 bytes raises |
| SecurityState.InitialStateConsistent | pywebtv/security.py:41-50 | a newly created object is consistent (8-byte keys with their mirrors) |
| SecurityState.ChallengeProcessing | pywebtv/security.py:123-156 | an undecodable challenge raises the base64 error, a decoded one of 8 bytes or fewer raises "Invalid challenge length", and a past key that is not bytes raises `TypeError`, all with the state unchanged; "Couldn't solve challenge" also leaves the state unchanged; success implies a decoded challenge longer than 8 bytes, a past key of bytes and session keys of bytes |
| SecurityState.ChallengeProcessingSuccess | pywebtv/security.py:132-154 | success means MD5 of plaintext 0..80 equals plaintext 80..96; the keys rotated with plaintext 72..80, the session keys are plaintext 40..56 and 56..72, and the response decodes to challenge 0..8, the DES encryption under the new key of MD5(echo) ++ echo, and 8 zero bytes |
| SecurityState.ChallengeProcessingOk | pywebtv/security.py:132-154 | a successful `ProcessChallenge` rotated the keys with plaintext 72..80, set the session keys to plaintext 40..56 and 56..72, and answered challenge 0..8 ++ the DES encryption of MD5(echo) ++ echo ++ 8 zero bytes |
| SecurityState.WithSessionKeys | pywebtv/security.py:145-146 | the two session-key attributes hold the given bytes and nothing else changes |
| SecurityState.ChallengeSecretLayout | pywebtv/security.py:185-190 | the secret is 104 bytes: echo 0..40, session keys 40..56 and 56..72, next key 72..80, MD5 of the puzzle 80..96, zeros 96..104 |
| SecurityState.DropLast4 | pywebtv/security.py:200 | `s[:-4]`: the text without its last four characters, empty when shorter |
| SecurityState.ChallengeIssue | pywebtv/security.py:178-201 | `IssueChallenge` with its random draws as arguments; the session keys are recorded first, so a current key that is not bytes raises `TypeError`, and one that is not 8 bytes raises the DES key error, each with only the session keys changed |
| SecurityState.ChallengeSecret | pywebtv/security.py:185-190 | the secret: echo, both session keys and the next key, their MD5, and 8 zero bytes |
| SecurityState.ChallengeIssueSolves | pywebtv/security.py:178-201 | from a consistent state `IssueChallenge` never raises, returns the cut challenge and the response computed under the next key, and leaves both key slots at the next key with the drawn session keys |
| SecurityState.ChallengeSolved | pywebtv/security.py:123-154 | a challenge whose plaintext carries its own MD5 is always answered, and the new state and response are fixed by the plaintext |
| SecurityState.BigEndian4 | pywebtv/security.py:211 | `to_bytes(4, 'big')`: four bytes, most significant first |
| SecurityState.BigEndian4RoundTrip | pywebtv/security.py:211 | the four bytes read back big-endian give the incarnation, and every 4-byte string encodes its own value |
| SecurityState.Rc4KeyMaterial | pywebtv/security.py:210-212 | the raw ARC4 key: the MD5 digest of the session key followed by the incarnation as 4 big-endian bytes and the session key again |
| SecurityState.SessionKeying | pywebtv/security.py:210-218 | `SecureOn` raises with nothing changed when the incarnation is not an integer; for an integer incarnation it raises the `to_bytes` overflow with nothing changed exactly when the incarnation lies outside 0 .. 2^32-1; a first session key that is not bytes raises with nothing changed |
| SecurityState.SessionKeyingEffect | pywebtv/security.py:210-218 | with an integer incarnation in 0 .. 2^32-1 and session keys of bytes `SecureOn` succeeds, both contexts start at position 0 of the derived keys and hold ciphers, and only the four ARC4 attributes change |
| SecurityState.SessionKeyingWrongKind | pywebtv/security.py:211-216 | a session key that is not bytes makes `SecureOn` raise: the first one with nothing changed, the second once the first raw key and context are in place |
| SecurityState.DeriveKey | pywebtv/security.py:211-218 | one half of `SecureOn`: a seed that is not bytes raises with nothing changed; success stores the raw key MD5(seed ++ incarnation ++ seed) and a fresh cipher on it |
| SecurityState.WithIncarnation | pywebtv/security.py:110-112 | the incarnation attribute holds the integer `n` and nothing else changes |
| SecurityState.WithRawKey | pywebtv/security.py:212 | the slot's raw-key attribute holds the given bytes |
| SecurityState.WithCipher | pywebtv/security.py:213 | the slot's context is a cipher at position 0 of the given key |
| SecurityState.StreamCrypt | pywebtv/security.py:221-244 | `Encrypt`/`Decrypt` (and the Key1/Key2 wrappers) raise the "Invalid RC4 ... context" error when the context is absent, and `AttributeError` when the context attribute holds a value that is not a cipher, both with nothing changed; otherwise the output has the input's length, the context advances by it, and the other context is untouched |
| SecurityState.StreamCryptInverse | pywebtv/security.py:221-231 | from the keystream-XOR law alone: two contexts with the same key and position stay in step, and what one encrypts the other decrypts back |
| Ticket.FieldNamedName | pywebtv/security.py:58-69 | every dumped attribute is found under its own name, so no two share a name |
| SecurityState.GetAttr | pywebtv/security.py:59 | `getattr(self, name)`: a value of another kind stored under the attribute, or else the typed field |
| SecurityState.SetField | pywebtv/security.py:84 | after `setattr` the attribute reads back as the value, whatever its kind; the value sits in the typed field exactly when it is of the attribute's declared kind |
| SecurityState.Store | pywebtv/security.py:84 | a value of the attribute's own kind sets that typed field and no other |
| Ticket.SetAttr | pywebtv/security.py:84 | `setattr(self, name, value)` stores any value: a dumped attribute is set as `SetField` says; `hRC4_Key1` or `hRC4_Key2` then holds the value instead of a cipher, with nothing else changed; any other name changes nothing |
| SecurityState.SetFieldFrame | pywebtv/security.py:84 | setting one attribute leaves every other attribute, its kind and both ARC4 contexts unchanged |
| SecurityState.SameAttrs | pywebtv/security.py:26-39 | two states holding only values of their own kind that agree on every attribute and on both contexts are equal |
| Ticket.ImportValue | pywebtv/security.py:80-83 | an integer and an untagged string are read as they are; a value that is neither raises |
| Ticket.ImportDumpValue | pywebtv/security.py:58-69 | every value `dump` writes is read back by `importdump` as it was |
| Ticket.UnescapeEscape | pywebtv/security.py:70 | unescaping `\./` undoes escaping `:` on text with no backslash |
| Ticket.Escape | pywebtv/security.py:70 | `replace(':', '\\./')` on the JSON text |
| Ticket.Unescape | pywebtv/security.py:78 | `replace('\\./', ':')` before `json.loads` |
| Ticket.TicketObject | pywebtv/security.py:57-69 | the dumped object has one member per dumped attribute, in the source's order |
| Ticket.RebuildContexts | pywebtv/security.py:85-88 | the two context rebuilds after the loop, `hRC4_Key1` first; an error in the first skips the second |
| Ticket.Rebuild | pywebtv/security.py:85-88 | a raw key equal to `b''` keeps its context; one that is not bytes raises `TypeError` in `ARC4.new`; one `ARC4.new` refuses raises; any other gets a fresh cipher at position 0; nothing else changes |
| Ticket.Dump | pywebtv/security.py:52-71 | `dump` raises `TypeError` exactly when an attribute holds a value it cannot write (anything but text in a text attribute, bytes in the incarnation); otherwise the escaped dump holds no `:` |
| Ticket.PlainDumpable | pywebtv/security.py:57-69 | a state whose attributes hold values of their own kind can always be dumped |
| Ticket.ImportDump | pywebtv/security.py:73-88 | `importdump`: text that does not decode as JSON raises before anything changes |
| Ticket.ApplyMembers | pywebtv/security.py:79-84 | the member loop: each member's value is read and `setattr` stores it; a value that cannot be read raises, keeping what was set |
| Ticket.ApplyMembersRaises | pywebtv/security.py:79-84 | the member loop raises exactly when some member's value cannot be read: no name and no kind of value is refused |
| Ticket.ApplyTicketMember | pywebtv/security.py:79-84 | one member of a dumped object sets its attribute to the source's value |
| Ticket.ApplyTicketMembers | pywebtv/security.py:79-84 | the members from position `i` on set those attributes to the source's values and leave the rest and both contexts |
| Ticket.ImportDumpRoundTrip | pywebtv/security.py:52-88 | importing the dump of a state whose attributes hold values of their own kind and whose text is JSON-safe sets every dumped attribute to the state's value and gives each non-empty raw key a fresh cipher at the start of its keystream |
| Ticket.DumpDecodes | pywebtv/security.py:70-78 | an escaped JSON dump decodes back to the ticket object |
| Ticket.AppliesTicket | pywebtv/security.py:79-84 | applying a whole ticket sets every dumped attribute and keeps both contexts |
| Ticket.RebuildsContexts | pywebtv/security.py:85-88 | with raw keys of bytes that are empty or acceptable, the non-empty ones get ciphers at position 0 and nothing else changes |
| Security.SecurityContext.WithDefaults | pywebtv/security.py:26-39 | an object with the class-level defaults |
| Security.SecurityContext.Create | pywebtv/security.py:41-50 | the constructor: a new object in `InitialState`, or the error it raises |
| Security.SecurityContext.SetSharedKey | pywebtv/security.py:90-108 | the fields change as `KeyRotation` says, and the outcome is its outcome |
| Security.SecurityContext.ShiftPast | pywebtv/security.py:99-104 | the past slot changes as `SecurityState.ShiftPast` says |
| Security.SecurityContext.Install | pywebtv/security.py:105-106 | the current slot changes as `SecurityState.Install` says |
| Security.SecurityContext.SetIncarnation | pywebtv/security.py:110-112 | the fields change as `WithIncarnation` says: only the incarnation |
| Security.SecurityContext.ProcessChallenge | pywebtv/security.py:114-156 | fields and result as `ChallengeProcessing` |
| Security.SecurityContext.SetSessionKeys | pywebtv/security.py:145-146 | the fields change as `WithSessionKeys` says |
| Security.SecurityContext.IssueChallenge | pywebtv/security.py:158-201 | fields and result as `ChallengeIssue` |
| Security.SecurityContext.SecureOn | pywebtv/security.py:203-218 | fields and outcome as `SessionKeying` |
| Security.SecurityContext.DeriveKey | pywebtv/security.py:211-218 | fields and outcome as `SecurityState.DeriveKey` |
| Security.SecurityContext.SetRawKey | pywebtv/security.py:212 | fields as `WithRawKey` |
| Security.SecurityContext.SetCipher | pywebtv/security.py:213 | fields as `WithCipher` |
| Security.SecurityContext.Crypt | pywebtv/security.py:221-231 | the context of the slot moves as `StreamCrypt` says |
| Security.SecurityContext.Encrypt | pywebtv/security.py:221-238 | `StreamCrypt` with the encryption-context error |
| Security.SecurityContext.Decrypt | pywebtv/security.py:227-244 | `StreamCrypt` with the decryption-context error |
| Security.SecurityContext.Dump | pywebtv/security.py:52-71 | the loops return `Ticket.Dump` of the state, raising where it does |
| Security.SecurityContext.SetField | pywebtv/security.py:84 | the fields change as `SecurityState.SetField` says; no value is refused |
| Security.SecurityContext.Store | pywebtv/security.py:84 | the fields change as `SecurityState.Store` says |
| Security.SecurityContext.StoreBytes | pywebtv/security.py:84 | a bytes attribute set as `SecurityState.Store` says |
| Security.SecurityContext.StoreOther | pywebtv/security.py:84 | a text attribute or the incarnation set as `SecurityState.Store` says |
| Security.SecurityContext.SetAttr | pywebtv/security.py:84 | the fields change as `Ticket.SetAttr` says; no name or value is refused |
| Security.SecurityContext.ImportDump | pywebtv/security.py:73-88 | fields and outcome as `Ticket.ImportDump` |
| Security.SecurityContext.ApplyMembers | pywebtv/security.py:79-84 | the member loop, as `Ticket.ApplyMembers` |
| Security.SecurityContext.RebuildContexts | pywebtv/security.py:85-88 | the two context rebuilds, as `Ticket.RebuildContexts` (each step `Ticket.Rebuild`) |
| Primitives.Zeros | pywebtv/security.py:190 | `b'\x00' * n`: n zero bytes |
| Primitives.Slice | pywebtv/security.py:133-134 | Python slicing with clamped bounds: the length is what remains between the bounds |
| Primitives.WellFormedStreams | pywebtv/security.py:221-231 | the primitives' laws include ARC4 keeping lengths and running on across a concatenation |
| Primitives.Xor | pywebtv/security.py:221-231 | bytewise XOR, the operation ARC4 applies between the data and its keystream |
| Primitives.XorTwice | pywebtv/security.py:221-231 | XORing twice with the same keystream gives the data back |
| Primitives.XorBitsTwice | pywebtv/security.py:221-231 | bitwise XOR of the low `k` bits, applied twice with the same bits, gives back any number below `2^k`; `XorByteTwice` is its 8-bit case |
| Primitives.Rc4Involution | pywebtv/security.py:221-231 | from the keystream-XOR law, ARC4 from one position undoes itself: decrypting what was encrypted gives the data |
| Primitives.Rc4BytewiseIsStream | pywebtv/server.py:113-126 | decrypting one byte at a time gives the same bytes as decrypting the whole buffer |
| Primitives.Rc4BytewiseAppend | pywebtv/server.py:113-126 | byte-at-a-time decryption over a concatenation is the two runs one after the other |
| Framing.Decrypt1 | pywebtv/server.py:122 | `decrypt` with the first context: no context raises and changes nothing, otherwise the context advances by the data's length |
| Framing.Decrypt1IsStreamCrypt | pywebtv/server.py:122 | when the first context attribute holds a cipher or `None`, the framer's decryption is the security object's `DecryptKey1` |
| Framing.DecryptedWithKey1 | pywebtv/server.py:122 | when the first context attribute holds a cipher or `None`, one `DecryptKey1` call moves the first context as `Decrypt1` says and leaves the second |
| Framing.Accumulate | pywebtv/server.py:113-132 | the byte loop consumes a prefix of the socket, and an exhausted socket leaves nothing unread |
| Framing.AccumulateDecrypts | pywebtv/server.py:113-127 | with a context the loop never fails to decrypt; the buffer grows by the byte-at-a-time decryption of exactly the bytes read and the keystream advances by their number |
| Framing.AccumulateGoesOn | pywebtv/server.py:126-127 | a byte that leaves the buffer unterminated is decrypted and the loop goes on |
| Framing.AccumulateStopsFirst | pywebtv/server.py:113-132 | the loop stops at the first terminated buffer (`\r\n\r\n`, `\r\r`, `\n\n`, `\r\n\r`, `\n\r\n`); no earlier buffer was terminated |
| Framing.AccumulateWithout | pywebtv/server.py:114-125 | an exhausted socket or a missing context frames nothing |
| Framing.ReadAtMost | pywebtv/server.py:131 | `read(n)` on the buffered socket: -1 reads to the end, any other `n` returns at most `n` bytes and leaves the rest, and a length below -1 raises `ValueError` |
| Framing.ReadBodyKeyed | pywebtv/server.py:128-131 | with a context and a length of -1 or more the body is the decryption of the bytes read after the header, and the keystream advances over them; a length below -1 raises and reads nothing |
| Framing.CompleteKeyed | pywebtv/server.py:128-132 | with a context nothing after the byte loop fails to decrypt |
| Framing.FrameRequest | pywebtv/server.py:111-133 | the framer: the byte loop, then what follows it, a `POST` announcing a length below -1 raising at `read` |
| Framing.Complete | pywebtv/server.py:128-132 | after the loop: end of input, an undecryptable byte, a request that is not a `POST` as it is, a `POST` without a readable length, or its body read (which raises for a length below -1) |
| Framing.PostLength | pywebtv/server.py:129-130 | `int(data.split(b'ength:')[1].split(b'\n')[0].strip())`, none when the split has no second piece or `int` raises |
| Framing.ReadBody | pywebtv/server.py:131 | the body of the announced length read after the header and decrypted in one piece with the first context; a length below -1 raises `ValueError` in `read` |
| Framing.FrameRequestParts | pywebtv/server.py:111-133 | a framed request is the header decrypted one byte at a time followed by the body decrypted in one piece |
| Framing.FrameRequestDecrypts | pywebtv/server.py:111-133 | once keyed, a framed request is the stream decryption of exactly the bytes the framer read, header and body |
| Framing.PostBodyLength | pywebtv/server.py:128-131 | a framed `POST` whose length field after `ength:` reads `n` carries exactly `n` body bytes after the shortest terminated header |
| Framing.PostNegativeLength | pywebtv/server.py:128-131 | a framed `POST` whose length reads below -1 raises at `read` and leaves the rest of the socket unread; a length of -1 reads the socket to its end |
| Framing.FrameRequestWithoutKeys | pywebtv/server.py:121-125 | without a first context the first byte read fails to decrypt |
| Headers.ReadLine | pywebtv/server.py:286 | `readline(limit)`: at most `limit` bytes up to the first newline; line and rest make up the stream |
| Headers.HeaderBlock | pywebtv/server.py:284-295 | the header loop on a stream; an empty stream ends it with the dictionary as given |
| Headers.LongLineRejected | pywebtv/server.py:287-288 | a first line longer than 65536 bytes raises "Header is too long." |
| Headers.ParseHeaders | pywebtv/server.py:280-295 | the loop of `parse_headers` computes `HeaderBlock` from the empty dictionary |
| Headers.BlankLineEnds | pywebtv/server.py:289-290 | `\r\n` or `\n` ends the block, leaving the stream just after it |
| Headers.HeaderBlockStep | pywebtv/server.py:291-294 | a line's name is the text before its first colon and its value the stripped text between its first and second colons |
| Headers.ReadHeaderLine | pywebtv/server.py:286-294 | one written header line reads back as its name and value |
| Headers.ReadHeaderText | pywebtv/server.py:284-295 | a block of plain headers and a blank line reads back as the dictionary of its lines, a later name winning, the stream left after the blank line |
| ConnectionPool.PortDataInjective | pywebtv/server.py:167 | different port pairs give different `client:server` strings |
| ConnectionPool.RemoveFirst | pywebtv/server.py:100-104 | `remove` with its error swallowed: an absent connection leaves the list as it was |
| ConnectionPool.RemoveFirstCounts | pywebtv/server.py:102 | removal takes exactly one occurrence away |
| ConnectionPool.RemoveFirstReinsert | pywebtv/server.py:102 | removal keeps the order of the rest |
| ConnectionPool.Track | pywebtv/server.py:164-172 | the intended tracking: a serial number without a list gets one, and the port string is appended unless the list holds it |
| ConnectionPool.TrackRecords | pywebtv/server.py:164-172 | after tracking, the serial number's list holds the connection, grows by at most one, and other serial numbers are untouched |
| ConnectionPool.TrackIdempotent | pywebtv/server.py:170 | tracking the same connection twice is tracking it once |
| ConnectionPool.TrackKeepsListsDistinct | pywebtv/server.py:170-171 | no list ever holds a connection twice |
| ConnectionPool.Collect | pywebtv/server.py:97-105 | no serial number does nothing; a serial number without a list raises `KeyError`; otherwise the connection is removed |
| ConnectionPool.CollectRemovesOne | pywebtv/server.py:99-105 | collection changes only that serial number's list, by one removal |
| ConnectionPool.CollectUndoesTrack | pywebtv/server.py:97-172 | dropping a connection tracked while new undoes the tracking, leaving at most an empty list |
| ConnectionPool.TrackAsWritten | pywebtv/server.py:164-172 | tracking as written: a missing or `null` list becomes `[]`, then the `None` that `append` returns is stored; a listed connection writes nothing back |
| ConnectionPool.TrackAsWrittenNeverRecords | pywebtv/server.py:171 | as written, a new connection is never recorded: the list becomes `null` |
| ConnectionPool.TrackAsWrittenTwice | pywebtv/server.py:171 | two requests on one connection still record nothing |
| Routing.Handle | pywebtv/server.py:91-193 | `handle_request`: choose the stream, then the rest of the request |
| Routing.Receive | pywebtv/server.py:111-136 | plaintext resets the decrypted buffer; encrypted mode frames one request with the first context, and a first context that is not a cipher raises on the first byte |
| Routing.AfterFrame | pywebtv/server.py:114-133 | the framer's endings: drop on end of input, the 500 line for an undecryptable byte, a raised error for an unreadable length, a length below -1 or an undecryptable body, or the decrypted buffer to read from |
| Routing.Drop | pywebtv/server.py:97-119 | `close_connection = True`, then `garbage_collection` on the pool |
| Routing.LineRead | pywebtv/server.py:138 | `readline(65536).decode().strip()` on the decrypted buffer in encrypted mode, on the socket otherwise |
| Routing.ReadRequest | pywebtv/server.py:138-144 | the request line; an empty one drops the connection |
| Routing.Respond | pywebtv/server.py:138-193 | the request line, then routing |
| Routing.Route | pywebtv/server.py:145-193 | classification, then the headers onward |
| Routing.Accept | pywebtv/server.py:155-193 | the headers, then the serial number onward |
| Routing.Register | pywebtv/server.py:160-193 | the serial number and tracking, then `SECURE` or the dispatch |
| Routing.Classify | pywebtv/server.py:145-153 | a line ending in `HTTP/1.0` or `HTTP/1.1` gets the 301 echoing its last word; a first word outside GET, POST, HEAD, SECURE gets the 400 and closes; anything else goes on |
| Routing.Admit | pywebtv/server.py:155-157 | the headers are parsed from the socket when the router holds none; a parse error raises, keeping the lines read so far |
| Routing.Identify | pywebtv/server.py:160-172 | the serial number comes from the headers the first time, and a missing one raises `KeyError`; the connection is then noted with the intended `ConnectionPool.Track` |
| Routing.Conclude | pywebtv/server.py:173-193 | `SECURE`, or the hand-over to the request handler with `close_connection` False |
| Routing.Secure | pywebtv/server.py:173-185 | the new security object is installed as soon as it exists, then `Activate` ends the request |
| Routing.Activate | pywebtv/server.py:179-185 | a raised error ends the request; success turns encryption on, clears the headers and keeps the connection open |
| Routing.Keying | pywebtv/server.py:174-178 | a new object with the default key and incarnation 1, or the constructor's error, then the ticket |
| Routing.TicketKeying | pywebtv/server.py:175-182 | no ticket raises; otherwise the ticket is imported with the intended `importdump`, and an import error raises |
| Routing.IncarnationKeying | pywebtv/server.py:177-178 | a missing incarnation header raises `KeyError` and an unreadable one `ValueError`; otherwise the incarnation is set and the intended `SecureOn` runs |
| Routing.DropFacts | pywebtv/server.py:97-119 | dropping closes the connection and raises only for a serial number with no list |
| Routing.AfterFrameFacts | pywebtv/server.py:114-133 | the framer ends the request keeping the facts, or hands the buffer on |
| Routing.ReceiveFacts | pywebtv/server.py:111-136 | choosing the stream keeps the facts, including when a first context attribute that is not a cipher raises on the first byte |
| Routing.ReadRequestFacts | pywebtv/server.py:138-144 | an empty request line drops the connection under the facts |
| Routing.ClassifyFacts | pywebtv/server.py:145-153 | classification keeps the facts |
| Routing.AdmitFacts | pywebtv/server.py:155-157 | taking the headers keeps the facts |
| Routing.IdentifyFacts | pywebtv/server.py:160-172 | the serial number and tracking keep the standing facts and list the connection |
| Routing.SecureFacts | pywebtv/server.py:173-185 | `SECURE` ends encrypted and open, or raises with the pool and serial number unchanged |
| Routing.ConcludeFacts | pywebtv/server.py:173-193 | a tracked request ends with `SECURE` or the dispatch under the facts |
| Routing.RegisterFacts | pywebtv/server.py:160-193 | the serial number, tracking and the ending keep the facts |
| Routing.AcceptFacts | pywebtv/server.py:155-193 | headers onward keep the facts |
| Routing.RouteFacts | pywebtv/server.py:145-193 | classification onward keeps the facts |
| Routing.RespondFacts | pywebtv/server.py:138-193 | request line onward keeps the facts |
| Routing.HandleFacts | pywebtv/server.py:111-193 | every request: `close_connection` follows the keep-alive rule; encrypted mode goes on only at `SECURE`, which clears the headers; the security object is never lost; the standing facts hold and dropping never raises under them; a `SECURE` or dispatched request has its connection listed; only the 301, 400 and 500 replies write |
| Routing.ClassifyOutcome | pywebtv/server.py:145-153 | a line ending in `HTTP/1.0` or `HTTP/1.1` gets the 301 echoing its last word with nothing else changed; otherwise a first word outside GET, POST, HEAD, SECURE gets the 400 and closes the connection; every other line goes on unchanged |
| Routing.ProbeEchoesVersion | pywebtv/server.py:145-148 | the echoed last word is itself the HTTP version |
| Routing.IdentifyIdempotent | pywebtv/server.py:160-172 | a second request on a listed connection changes nothing |
| Routing.KeyingOutcome | pywebtv/server.py:173-182 | `SECURE` succeeds exactly when the default key is usable, the ticket is present and imports, the imported session keys are bytes, and `wtv-incarnation` holds an integer in 0 .. 2^32-1; a missing ticket raises; on success the object is the imported one with that incarnation and both contexts fresh on MD5(session key ++ incarnation ++ session key) |
| Routing.StartedBy | pywebtv/server.py:177-178 | setting the incarnation and calling `SecureOn` on an imported object whose session keys are bytes succeeds and starts the session: the incarnation, the raw keys and both ciphers are set, and every other attribute is the imported one |
| Routing.SecuredUsesKeying | pywebtv/server.py:173-185 | a request ends `Secured` exactly when keying succeeds, leaving the keyed object; a missing ticket is the raised error |
| Routing.SecureAsWritten | pywebtv/server.py:173-185 | `SECURE` as written: the constructor's error, or the new object installed and then `AttributeError` at `import_dump` when a ticket is present, the bare `Exception` when none is |
| Routing.SecureAsWrittenNeverSecures | pywebtv/server.py:173-185 | as written, `SECURE` always raises and never turns encryption on; with a usable default key and a ticket it raises `AttributeError` for `import_dump`; every request the corrected `Secure` switches to encryption is one of these |
| Routing.EmptyInputDrops | pywebtv/server.py:114-143 | with nothing left to read the connection is dropped and closed without raising |
| Router.RequestRouter.constructor | pywebtv/server.py:41-70 | a new router: plaintext, `close_connection` True, no security object, headers or serial number, and an empty connection document |
| Router.RequestRouter.Drop | pywebtv/server.py:97-119 | fields as `Routing.Drop` |
| Router.RequestRouter.ReadFrame | pywebtv/server.py:112-132 | the byte loop computes `Framing.Accumulate` from the empty buffer |
| Router.RequestRouter.CompleteFrame | pywebtv/server.py:128-131 | the `POST` body step computes `Framing.Complete`, raising for a length below -1 before reading |
| Router.RequestRouter.Frame | pywebtv/server.py:111-133 | the framer computes `Framing.FrameRequest` and moves the first context |
| Router.RequestRouter.Receive | pywebtv/server.py:111-136 | the start of a request, as `Routing.Receive` |
| Router.RequestRouter.RefuseFrame | pywebtv/server.py:111-122 | with a first context attribute that is not a cipher: the end of the socket drops the connection, and the first byte read is consumed and raises `AttributeError`, as `Routing.Receive` says |
| Router.RequestRouter.AfterFrame | pywebtv/server.py:114-133 | as `Routing.AfterFrame` |
| Router.RequestRouter.ReadLineIn | pywebtv/server.py:138 | the request line and the stream after it, as `Routing.LineRead` |
| Router.RequestRouter.ReadRequest | pywebtv/server.py:138-144 | as `Routing.ReadRequest` |
| Router.RequestRouter.Classify | pywebtv/server.py:145-153 | as `Routing.Classify` |
| Router.RequestRouter.Admit | pywebtv/server.py:155-157 | as `Routing.Admit` |
| Router.RequestRouter.Identify | pywebtv/server.py:160-172 | as `Routing.Identify` |
| Router.RequestRouter.NoteConnection | pywebtv/server.py:164-172 | the pool becomes `Track` of the old pool |
| Router.RequestRouter.Conclude | pywebtv/server.py:173-193 | as `Routing.Conclude` |
| Router.RequestRouter.Secure | pywebtv/server.py:173-185 | as `Routing.Secure` |
| Router.RequestRouter.Activate | pywebtv/server.py:179-185 | as `Routing.Activate` |
| Router.RequestRouter.BuildSecurity | pywebtv/server.py:174-178 | the router's security object is the one `Routing.Keying` builds, with its error |
| Router.RequestRouter.ImportTicket | pywebtv/server.py:175-182 | as `Routing.TicketKeying` |
| Router.RequestRouter.StartSession | pywebtv/server.py:177-178 | as `Routing.IncarnationKeying` |
| Router.RequestRouter.HandleRequest | pywebtv/server.py:91-193 | fields and ending event as `Routing.Handle` |
| Router.RequestRouter.Respond | pywebtv/server.py:138-193 | as `Routing.Respond` |
| Router.RequestRouter.Route | pywebtv/server.py:145-193 | as `Routing.Route` |
| Router.RequestRouter.Accept | pywebtv/server.py:155-193 | as `Routing.Accept` |
| Router.RequestRouter.Register | pywebtv/server.py:160-193 | as `Routing.Register` |
| Urls.HexDigit | pywebtv/server.py:314 | a hex digit of value `v` reads back as `v` |
| Urls.Unquote | pywebtv/server.py:314 | `unquote` never lengthens its text |
| Urls.UnquotePlain | pywebtv/server.py:314 | text without `%` is unchanged |
| Urls.PercentEncode | pywebtv/server.py:314 | a client's percent-encoding writes only unreserved characters and `%` escapes |
| Urls.UnquotePercentEncode | pywebtv/server.py:314 | percent-decoding undoes percent-encoding |
| Urls.ParamEntry | pywebtv/server.py:311-320 | the empty item is skipped; an item without `=` maps its decoded key to `''` |
| Urls.AddParams | pywebtv/server.py:310-320 | the query items add keys and never remove one |
| Urls.Query | pywebtv/server.py:306 | the query exists exactly when the URL holds `?`, and holds no `?` |
| Urls.NonEmpty | pywebtv/server.py:323 | `filter(str, ..)` keeps only non-empty pieces of the input |
| Urls.ParsedUrl | pywebtv/server.py:303-325 | a URL without `:` raises; otherwise the service is the text before the first `:` |
| Urls.ParseUrl | pywebtv/server.py:298-325 | the loops of `parse_url` compute `ParsedUrl` |
| Urls.ItemEntry | pywebtv/server.py:311-314 | an encoded `key=value` item reads back as its pair |
| Urls.ColonAfterService | pywebtv/server.py:303 | the first `:` of a URL follows the service name |
| Urls.ParsedUrlPlain | pywebtv/server.py:303-325 | a URL without a query parses to its service, its non-empty segments and no parameters |
| Urls.ParsedUrlQuery | pywebtv/server.py:303-325 | a URL with a query parses to its service, its segments and the query's items |
| Urls.ParsedUrlText | pywebtv/server.py:303-325 | round trip: a URL written from a service, segments and ASCII pairs parses back to them, the pairs as a dictionary |
| Urls.ParsedUrlLastWins | pywebtv/server.py:310-314 | a later query item for a key overwrites an earlier one |
| Urls.FormParams | pywebtv/server.py:335-337 | the items fail exactly when one lacks `=`; keys are only added |
| Urls.DataParams | pywebtv/server.py:328-338 | `decode_data_params`: the body decoded and split at `&`, each item split at `=` into the dictionary |
| Urls.DecodeDataParams | pywebtv/server.py:328-338 | the loop of `decode_data_params` computes `DataParams` |
| Urls.EmptyBodyRejected | pywebtv/server.py:335-337 | an empty body raises: its one item has no `=` |
| Urls.FormParamsItems | pywebtv/server.py:335-337 | `key=value` items decode to the dictionary of their pairs |
| Urls.DataParamsText | pywebtv/server.py:328-338 | round trip: a body `k1=v1&k2=v2...` decodes to the dictionary of its pairs, a later key winning |
| FilePath.PathJoin | pywebtv/server.py:261-268 | POSIX `os.path.join`: an absolute part replaces, otherwise one slash separates |
| FilePath.Candidates | pywebtv/server.py:260-269 | there are exactly four candidates |
| FilePath.CandidateLayout | pywebtv/server.py:260-264 | the first two candidates are `<dir>/static/<path>` and the same with `.html` |
| FilePath.CandidatesWithoutDash | pywebtv/server.py:265-268 | without a `-` the last two candidates repeat the first two |
| FilePath.LastFile | pywebtv/server.py:270-277 | reference definition of the answer: the normalised form of the last candidate that is a file, or none |
| FilePath.LastFileMeaning | pywebtv/server.py:270-277 | the reference answer is a candidate that is a file with no file after it, or none when no candidate is a file |
| FilePath.Resolve | pywebtv/server.py:270-277 | the candidate loop: a normalised candidate outside the service directory raises `IOError`; one that is a file becomes the answer so far; at the end the answer, or `UnboundLocalError` when there is none |
| FilePath.ResolveMeaning | pywebtv/server.py:270-277 | the candidate loop is stated without its running answer |
| FilePath.ReturnFilepath | pywebtv/server.py:256-277 | `return_filepath`: the candidate loop over the four candidates |
| FilePath.ReturnFilepathMeaning | pywebtv/server.py:256-277 | `IOError` exactly when a normalised candidate leaves the service directory; otherwise the last candidate that is a file, and `UnboundLocalError` when none is |
| FilePath.ReturnedPathIsConfinedFile | pywebtv/server.py:270-277 | a returned path is a file that starts with the service directory |
| FilePath.ReturnFilePath | pywebtv/server.py:256-277 | the loop over the candidates computes `ReturnFilepath` |
| Response.StatusText | pywebtv/decorators.py:11-15 | the status table is defined exactly for 200, 302 and 500 |
| Response.StatusLineLeadsWithCode | pywebtv/decorators.py:11-15 | each status line begins with its code and a space |
| Response.HeaderKey | pywebtv/decorators.py:37-38 | a key holding `^n` is cut at its first marker, leaving no marker; other keys are unchanged |
| Response.Emitted | pywebtv/decorators.py:36-39 | the handler's headers keep their order and values, with the keys cut |
| Response.AllHeaders | pywebtv/decorators.py:35-41 | the header lines in order: keep-alive, the handler's headers with the keys cut, `Content-Length`, `Content-Type` |
| Response.Wire | pywebtv/decorators.py:33-44 | the status line, the header lines and a blank line, encoded, then the body |
| Response.Serialize | pywebtv/decorators.py:27-45 | `generate_response`: the status table's line or its error, then the wire bytes |
| Response.SerializeFailsOnUnknownStatus | pywebtv/decorators.py:33 | serialising fails exactly for a code outside the table |
| Response.HeaderTextAppend | pywebtv/decorators.py:36-42 | a header block is the lines of its first part followed by the block of the rest |
| Response.AllHeadersText | pywebtv/decorators.py:35-42 | the header block is keep-alive, the handler's lines, length, type, blank line |
| Response.ResponseTextLayout | pywebtv/decorators.py:33-42 | the text is the status line followed by the header block |
| Response.WtvpResponse.constructor | pywebtv/decorators.py:17-25 | the fields hold the arguments and the content length is the body's length |
| Response.WtvpResponse.GenerateResponse | pywebtv/decorators.py:27-45 | the appended text, encoded, then the body, is `Serialize` of the fields |
| Response.SerializeFrame | pywebtv/decorators.py:33-44 | the output starts with the status line and `Connection: Keep-Alive` and ends with the body |
| Response.KeepAlivePlain | pywebtv/decorators.py:35 | the keep-alive header reads back as written |
| Response.LengthPlain | pywebtv/decorators.py:40 | the length header of a body under 4 GiB reads back as written |
| Response.ReadSerializedHeaders | pywebtv/decorators.py:27-45 | round trip: `parse_headers` on a response after its status line gets the dictionary of every header line and leaves exactly the body |
| Response.ReadBackLengthAndType | pywebtv/decorators.py:40-41 | the read-back `Content-Length` parses to the body's length and `Content-Type` is the constructor's type |
| Service.FlagTotal | pywebtv/functions.py:118-129 | the flag total: 1, 2, 4, 10 and 40 added for the flags set |
| Service.FlagText | pywebtv/functions.py:131-134 | as written: no text for a zero total, otherwise the constant ` flags=0x00000011` |
| Service.ConnectionsText | pywebtv/functions.py:135-136 | ` connections=N`, absent for -1 |
| Service.ServiceText | pywebtv/functions.py:138 | `name=.. host=.. port=..`, then the flag text, then the connections text |
| Service.FlagTotalZero | pywebtv/functions.py:118-133 | the total is 0 exactly when no flag is set |
| Service.FlagTotalInjective | pywebtv/functions.py:118-129 | the weights 1, 2, 4, 10, 40 never sum alike, so the total determines the flags |
| Service.ReturnService | pywebtv/functions.py:105-138 | the method builds `name=.. host=.. port=..`, then the flag text, then the connections text |
| Service.ServiceTextFields | pywebtv/functions.py:131-138 | splitting a header at spaces gives the name, host and port fields, then the flag and connection fields only when present |
| Service.FlagTextCollides | pywebtv/functions.py:131-134 | for every name, host, port and connection count, two flag sets give the same header exactly when both or neither are empty, so all non-empty flag sets collide |
| Service.Pad8 | pywebtv/functions.py:134 | `format(n, "08")`: at least eight digits |
| Service.Pad8Value | pywebtv/functions.py:134 | the padded digits read back as the number |
| Service.FlagTextFixed | pywebtv/functions.py:131-134 | the corrected flag text: the total zero-padded to eight digits |
| Service.ServiceTextFixed | pywebtv/functions.py:138 | the header with the corrected flag text |
| Service.FlagTextFixedInjective | pywebtv/functions.py:131-134 | the corrected flag text tells every flag set apart |
| Service.FixedAgreesWhereWrittenIsRight | pywebtv/functions.py:131-134 | the corrected text agrees with the written one with no flags and with the flags totalling 11 |
| Text.IndexOf | pywebtv/decorators.py:37 | `find` gives the first occurrence, or none at any index |
| Text.Before | pywebtv/decorators.py:38 | `split(pat)[0]` is a prefix |
| Text.After | pywebtv/server.py:129 | the text after an occurrence, present exactly when the pattern occurs |
| Text.Split | pywebtv/server.py:145 | `split(sep)` gives at least one piece, none holding the separator |
| Text.JoinSplit | pywebtv/server.py:145 | joining the pieces of a split gives the text back |
| Text.SplitJoin | pywebtv/server.py:145 | splitting a join of separator-free pieces gives the pieces back |
| Text.SplitMany | pywebtv/server.py:292 | a text splits into two or more pieces exactly when it holds the separator |
| Text.SplitKeepsSuffix | pywebtv/server.py:146-148 | an ending without the separator is an ending of the last piece |
| Text.ReplaceAll | pywebtv/server.py:314 | `replace` keeps the length and every other character, and removes the replaced one |
| Text.UpdateAll | pywebtv/server.py:293-294 | repeated `update` gives the given keys plus every updated key |
| Text.UpdateAllOthers | pywebtv/server.py:293-294 | updates with other keys leave an entry alone |
| Text.UpdateAllLastWins | pywebtv/server.py:293-294 | the last update of a key wins |
| Text.TrimPadded | pywebtv/server.py:294 | `strip` removes whitespace padding and nothing else |
| Text.NatToString | pywebtv/functions.py:136 | `str(n)` is a non-empty digit string |
| Text.DigitsValueOfNat | pywebtv/functions.py:136 | the digits of `str(n)` read back as `n` |
| Text.ParseIntOfString | pywebtv/server.py:177 | `int(str(i)) == i` |
| Text.Decode | pywebtv/server.py:294 | one character per byte, with the byte's value |
| Text.Encode | pywebtv/decorators.py:43 | UTF-8 is at least as long as the text, and as long as it on ASCII |
| Text.DecodeEncodeAscii | pywebtv/decorators.py:43 | on ASCII text, decoding undoes encoding |
| Text.EncodeAppend | pywebtv/decorators.py:43 | encoding distributes over concatenation |
| Text.AsciiIsEncode | pywebtv/server.py:147-151 | on ASCII text, UTF-8 is one byte per character |

## Left out

- Sockets, threads and the keep-alive loop `handle` (pywebtv/server.py:73-89) are not modelled. The socket is a byte sequence the router reads from, and what it writes is appended to an output sequence.
- The IP-blacklist query and the Redis and SQL engines (pywebtv/server.py:62-70,81) are external stores. The connection document is an in-memory map.
- The session sweep in `garbage_collection` (pywebtv/server.py:106-110) is not modelled. It uses an undefined name, and its length test sits inside a truthiness test that excludes it. Only the removal from the list is modelled.
- The dispatch to `WTVPRequestHandler` (pywebtv/server.py:186-193 and its `handle_request`) is one event, `Dispatched`. The dynamic `import service`/`getattr` lookup, the handler's own header and body reads, and `return_file` are external code. The parsers this handler calls are modelled.
- `Box` and `WTVPError` are not part of this model: they are imported but not defined in any file shown. The router's `self.box` is left out.
- DES, MD5, ARC4, base64, JSON and `get_random_bytes` are uninterpreted. `IssueChallenge` takes its five random strings as arguments.
- The random default key of `WTVNetworkSecurity()` is drawn once, when the function is defined, which is a host effect. It is a configuration parameter (`Config.initialKeyB64`).
- `os.path.normpath` and `os.path.isfile` are uninterpreted functions of a file-system parameter. Only candidate order and the prefix guard are modelled.
- `bytes.decode()` is modelled as Latin-1, one character per byte, rather than UTF-8. A request holding non-ASCII UTF-8 would decode differently and may raise in the source.
- `int()` on text is modelled (`Text.ParseInt`) with ASCII digits, sign, surrounding whitespace and single underscores. Non-ASCII digits are not covered.
- Urls.Unquote: every `%XX` is the one character with that code. Python decodes escapes of 0x80 and above as UTF-8, with U+FFFD for an invalid byte, so a non-ASCII escape differs.
- The logging calls, and the `print` calls where they do nothing else, are left out.
- After an exception the framer's stream position, and anything the exception's handler does beyond the router's fields, are not modelled. A raised error is the ending event `Raised`.
- The `forceEncrypt` and `forceEncryptObj` arguments of `WTVPResponse` are accepted and ignored by the source, so the constructor does not take them.
- The hand-written reply literals (the 301, 400 and 500 lines) are ASCII. They are written one byte per character, which `Text.AsciiIsEncode` shows is their UTF-8 encoding; the lemma is not restated for each literal.
- Routing.Identify, Router.RequestRouter.NoteConnection: the connection is noted with the intended in-place append (`ConnectionPool.Track`). The source as written stores `null` instead (server.py:171), and a request on a connection whose list is `null` is not modelled by the router.
- Ticket.SetAttr: a member named neither after a dumped attribute nor after `hRC4_Key1`/`hRC4_Key2` changes nothing in the model. The source adds that attribute to the object, and a name such as `SecureOn` or `dump` shadows the method, so a later call of it raises. These extra attributes are not state of the model.
- Ticket.ImportDumpRoundTrip: proved only for a state whose attributes hold values of their own kind. The dump of a bytes attribute holding text is that text untagged, and it reads back only when the text starts with neither `b~!` nor `c~!`. That case is not stated.

## Findings

| source | as written | input that shows it | evidently intended | confidence | as-written member | corrected member |
|---|---|---|---|---|---|---|
| pywebtv/functions.py:131-134 | the flag text is always ` flags=0x00000011`, the literal `format(11, "#08")`, whatever flags are set | `DontEncryptRequests=True` and `UseHTTP=True` on their own give the same header | the flag total in the text (its decimal digits read as the bit mask the weights 1, 2, 4, 10, 40 spell) | high, not executed | Service.FlagTextCollides | Service.FlagTextFixedInjective |
| pywebtv/server.py:171 | `connectionlist[ssid] = connectionlist[ssid].append(portdata)` stores `None`, the value of `append` | any first request on a connection: its serial number's list becomes `null` | append in place, so the connection is listed | high, not executed | ConnectionPool.TrackAsWrittenNeverRecords | ConnectionPool.TrackRecords |
| pywebtv/server.py:176-178 | `SECURE` calls `self.security.import_dump(..)` and `self.security.secure_on()`, and the framer calls `self.security.decrypt(1, ..)` (line 122); `WTVNetworkSecurity` defines none of them | any `SECURE` request with a `wtv-ticket` header: `import_dump` raises `AttributeError`, so `security_on` never becomes True and the encrypted framer is never reached | `importdump(..)`, `SecureOn()` and `DecryptKey1(..)` | high, not executed | Routing.SecureAsWrittenNeverSecures | Routing.KeyingOutcome |
