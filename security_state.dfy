/**
 * The state of a `WTVNetworkSecurity` object as a value, and each of its
 * operations as a function from the old state (and the arguments) to the new
 * state and the operation's result. The class in module `Security` performs
 * the same steps field by field and is proved equal to these functions; the
 * lemmas here state what the operations promise.
 */
module SecurityState {
  import opened Wrappers
  import opened Text
  import opened Primitives

  /** The exceptions the security context raises. */
  datatype SecurityError =
    | InvalidSharedKeyLength   // ValueError("Invalid shared key length")
    | InvalidChallengeLength   // ValueError("Invalid challenge length")
    | ChallengeNotSolved       // ValueError("Couldn't solve challenge")
    | BadBase64                // binascii.Error from base64.b64decode
    | DesKeyLength             // ValueError from DES.new: the key is not 8 bytes
    | DesAlignment             // ValueError from DES in ECB mode: data not a whole number of 8-byte blocks
    | IncarnationOutOfRange    // OverflowError from int.to_bytes(4, 'big')
    | Rc4KeyLength             // ValueError from ARC4.new
    | NoEncryptionContext      // RuntimeError("Invalid RC4 encryption context")
    | NoDecryptionContext      // RuntimeError("Invalid RC4 decryption context")
    | BadTicket                // json.loads raises
    | TicketValueNotText       // AttributeError: a ticket value that is neither int nor str
    | WrongKind                // TypeError or AttributeError: an attribute holds a value of a kind the operation cannot use

  /** An ARC4 cipher object: its key and how much of its keystream has been used. */
  datatype Rc4Context = Rc4Context(rawKey: seq<byte>, position: nat)

  datatype Slot = Key1 | Key2

  /** A value an attribute can be given: bytes, text or an integer. */
  datatype Value = VBytes(bytes: seq<byte>) | VText(text: string) | VInt(number: int)

  /** The attributes other than the two ARC4 contexts, which are the ones `dump` writes. */
  datatype Field =
    | InitialSharedKey | CurrentSharedKey | PastSharedKey | SessionKey1 | SessionKey2 | RawKey1 | RawKey2
    | InitialSharedKeyB64 | CurrentSharedKeyB64 | PastSharedKeyB64 | SessionToken | Incarnation

  /**
   * The attributes of the object. Python attributes take a value of any kind,
   * and `importdump` may store one of another kind than the class gives the
   * attribute: such a value is kept in `foreign` (for `hRC4_Key1` and
   * `hRC4_Key2`, in `foreignContexts`), and the typed field of that attribute
   * is then stale.
   */
  datatype SecState = SecState(
    initialSharedKey: seq<byte>,
    initialSharedKeyB64: string,
    currentSharedKey: seq<byte>,
    currentSharedKeyB64: string,
    pastSharedKey: seq<byte>,
    pastSharedKeyB64: string,
    incarnation: int,
    sessionKey1: seq<byte>,
    sessionKey2: seq<byte>,
    rc4Key1: Option<Rc4Context>,
    rc4RawKey1: seq<byte>,
    rc4Key2: Option<Rc4Context>,
    rc4RawKey2: seq<byte>,
    sessionToken: string,
    foreign: map<Field, Value>,
    foreignContexts: map<Slot, Value>)

  /** The class-level defaults: every key empty, incarnation 1, no ARC4 context. */
  function Defaults(): SecState {
    SecState([], "", [], "", [], "", 1, [], [], None, [], None, [], "", map[], map[])
  }

  // ------------------------------------------------------------ attributes

  /** The attributes the class declares as bytes. */
  predicate BytesField(f: Field) {
    f.InitialSharedKey? || f.CurrentSharedKey? || f.PastSharedKey? || f.SessionKey1? || f.SessionKey2?
    || f.RawKey1? || f.RawKey2?
  }

  /** `v` is of the kind the class declares for attribute `f`. */
  predicate OfKind(f: Field, v: Value) {
    if BytesField(f) then v.VBytes? else if f == Incarnation then v.VInt? else v.VText?
  }

  /** The typed field of attribute `f`, as a value. */
  function Declared(s: SecState, f: Field): (v: Value)
    ensures OfKind(f, v)
  {
    match f
    case InitialSharedKey => VBytes(s.initialSharedKey)
    case CurrentSharedKey => VBytes(s.currentSharedKey)
    case PastSharedKey => VBytes(s.pastSharedKey)
    case SessionKey1 => VBytes(s.sessionKey1)
    case SessionKey2 => VBytes(s.sessionKey2)
    case RawKey1 => VBytes(s.rc4RawKey1)
    case RawKey2 => VBytes(s.rc4RawKey2)
    case InitialSharedKeyB64 => VText(s.initialSharedKeyB64)
    case CurrentSharedKeyB64 => VText(s.currentSharedKeyB64)
    case PastSharedKeyB64 => VText(s.pastSharedKeyB64)
    case SessionToken => VText(s.sessionToken)
    case Incarnation => VInt(s.incarnation)
  }

  /** `getattr(self, name)`: the value stored of another kind, if any, and otherwise the typed field. */
  function GetAttr(s: SecState, f: Field): Value {
    if f in s.foreign then s.foreign[f] else Declared(s, f)
  }

  /**
   * `setattr(self, name, value)` for an attribute other than a context: the
   * attribute holds `value` afterwards, in its typed field when the value is
   * of the declared kind and as a value of another kind otherwise.
   */
  function SetField(s: SecState, f: Field, v: Value): (t: SecState)
    ensures GetAttr(t, f) == v
    ensures f in t.foreign <==> !OfKind(f, v)
  {
    if OfKind(f, v) then Store(s, f, v).(foreign := s.foreign - {f}) else s.(foreign := s.foreign[f := v])
  }

  /** The typed field of attribute `f` set to `v`, which is of the attribute's own kind. */
  function Store(s: SecState, f: Field, v: Value): (t: SecState)
    requires OfKind(f, v)
    ensures Declared(t, f) == v && t.foreign == s.foreign
    ensures forall g :: g != f ==> Declared(t, g) == Declared(s, g)
    ensures t.rc4Key1 == s.rc4Key1 && t.rc4Key2 == s.rc4Key2 && t.foreignContexts == s.foreignContexts
  {
    match f
    case InitialSharedKey => s.(initialSharedKey := v.bytes)
    case CurrentSharedKey => s.(currentSharedKey := v.bytes)
    case PastSharedKey => s.(pastSharedKey := v.bytes)
    case SessionKey1 => s.(sessionKey1 := v.bytes)
    case SessionKey2 => s.(sessionKey2 := v.bytes)
    case RawKey1 => s.(rc4RawKey1 := v.bytes)
    case RawKey2 => s.(rc4RawKey2 := v.bytes)
    case InitialSharedKeyB64 => s.(initialSharedKeyB64 := v.text)
    case CurrentSharedKeyB64 => s.(currentSharedKeyB64 := v.text)
    case PastSharedKeyB64 => s.(pastSharedKeyB64 := v.text)
    case SessionToken => s.(sessionToken := v.text)
    case Incarnation => s.(incarnation := v.number)
  }

  /** Setting one attribute leaves every other attribute, its typed field and both ARC4 contexts as they were. */
  lemma SetFieldFrame(s: SecState, f: Field, v: Value)
    ensures forall g :: g != f ==> GetAttr(SetField(s, f, v), g) == GetAttr(s, g)
    ensures forall g :: g != f ==> Declared(SetField(s, f, v), g) == Declared(s, g)
    ensures forall g :: g != f ==> (g in SetField(s, f, v).foreign <==> g in s.foreign)
    ensures var t := SetField(s, f, v);
      t.rc4Key1 == s.rc4Key1 && t.rc4Key2 == s.rc4Key2 && t.foreignContexts == s.foreignContexts
  {
    var t := SetField(s, f, v);
    if OfKind(f, v) {
      var u := Store(s, f, v);
      assert t == u.(foreign := s.foreign - {f});
      forall g | g != f ensures Declared(t, g) == Declared(s, g) {
        DeclaredIgnoresForeign(u, s.foreign - {f}, g);
      }
    } else {
      assert t == s.(foreign := s.foreign[f := v]);
      forall g | g != f ensures Declared(t, g) == Declared(s, g) {
        DeclaredIgnoresForeign(s, s.foreign[f := v], g);
      }
    }
  }

  /** The typed fields do not depend on what is held of another kind. */
  lemma DeclaredIgnoresForeign(s: SecState, m: map<Field, Value>, f: Field)
    ensures Declared(s.(foreign := m), f) == Declared(s, f)
  {
  }

  /** Two states with no value of another kind that agree on every attribute and on both contexts are equal. */
  lemma SameAttrs(a: SecState, b: SecState)
    requires forall f :: GetAttr(a, f) == GetAttr(b, f)
    requires a.foreign == map[] && b.foreign == map[]
    requires a.rc4Key1 == b.rc4Key1 && a.rc4Key2 == b.rc4Key2 && a.foreignContexts == b.foreignContexts
    ensures a == b
  {
    assert GetAttr(a, InitialSharedKey) == GetAttr(b, InitialSharedKey);
    assert GetAttr(a, CurrentSharedKey) == GetAttr(b, CurrentSharedKey);
    assert GetAttr(a, PastSharedKey) == GetAttr(b, PastSharedKey);
    assert GetAttr(a, SessionKey1) == GetAttr(b, SessionKey1);
    assert GetAttr(a, SessionKey2) == GetAttr(b, SessionKey2);
    assert GetAttr(a, RawKey1) == GetAttr(b, RawKey1);
    assert GetAttr(a, RawKey2) == GetAttr(b, RawKey2);
    assert GetAttr(a, InitialSharedKeyB64) == GetAttr(b, InitialSharedKeyB64);
    assert GetAttr(a, CurrentSharedKeyB64) == GetAttr(b, CurrentSharedKeyB64);
    assert GetAttr(a, PastSharedKeyB64) == GetAttr(b, PastSharedKeyB64);
    assert GetAttr(a, SessionToken) == GetAttr(b, SessionToken);
    assert GetAttr(a, Incarnation) == GetAttr(b, Incarnation);
  }

  /** `to` takes over what `from` holds of another kind, if anything: the bookkeeping of `self.to = self.from`. */
  function Carry(m: map<Field, Value>, from: Field, to: Field): (r: map<Field, Value>)
    ensures from in m ==> r == m[to := m[from]]
    ensures from !in m ==> r == m - {to}
  {
    if from in m then m[to := m[from]] else m - {to}
  }

  /** The four attributes of the key history. */
  const KeySlots: set<Field> := {CurrentSharedKey, CurrentSharedKeyB64, PastSharedKey, PastSharedKeyB64}

  /**
   * The state's own invariant: both key slots hold 8-byte keys whose base64
   * mirrors are up to date.
   */
  ghost predicate Consistent(c: Crypto, s: SecState) {
    && (forall f :: f in KeySlots ==> f !in s.foreign)
    && |s.currentSharedKey| == 8 && |s.pastSharedKey| == 8
    && s.currentSharedKeyB64 == c.b64encode(s.currentSharedKey)
    && s.pastSharedKeyB64 == c.b64encode(s.pastSharedKey)
  }

  // ------------------------------------------------------------ SetSharedKey

  /** `self.past_shared_key == bytes()`: the past slot holds the empty byte string (text or an integer never equals it). */
  predicate PastEmpty(s: SecState) {
    GetAttr(s, PastSharedKey) == VBytes([])
  }

  /** The two-slot history after installing `key` (the successful branch of `SetSharedKey`). */
  function Rotate(c: Crypto, s: SecState, key: seq<byte>): (t: SecState)
    ensures t.currentSharedKey == key && t.currentSharedKeyB64 == c.b64encode(key)
    ensures CurrentSharedKey !in t.foreign && CurrentSharedKeyB64 !in t.foreign
    ensures PastEmpty(s) ==> t.pastSharedKey == key && t.pastSharedKeyB64 == c.b64encode(key)
    ensures PastEmpty(s) ==> PastSharedKey !in t.foreign && PastSharedKeyB64 !in t.foreign
    ensures !PastEmpty(s) ==> GetAttr(t, PastSharedKey) == GetAttr(s, CurrentSharedKey)
    ensures !PastEmpty(s) ==> GetAttr(t, PastSharedKeyB64) == GetAttr(s, CurrentSharedKeyB64)
    ensures t.foreign - KeySlots == s.foreign - KeySlots
    ensures t.(currentSharedKey := s.currentSharedKey, currentSharedKeyB64 := s.currentSharedKeyB64,
               pastSharedKey := s.pastSharedKey, pastSharedKeyB64 := s.pastSharedKeyB64, foreign := s.foreign) == s
  {
    Install(c, ShiftPast(c, s, key), key)
  }

  /** The past slot of `SetSharedKey`: `key` itself when the past slot is empty, the current key otherwise. */
  function ShiftPast(c: Crypto, s: SecState, key: seq<byte>): SecState {
    if PastEmpty(s) then
      s.(pastSharedKey := key, pastSharedKeyB64 := c.b64encode(key),
         foreign := s.foreign - {PastSharedKey, PastSharedKeyB64})
    else
      s.(pastSharedKey := s.currentSharedKey, pastSharedKeyB64 := s.currentSharedKeyB64,
         foreign := Carry(Carry(s.foreign, CurrentSharedKey, PastSharedKey), CurrentSharedKeyB64, PastSharedKeyB64))
  }

  /** The current slot of `SetSharedKey`: `key` and its base64 text. */
  function Install(c: Crypto, s: SecState, key: seq<byte>): SecState {
    s.(currentSharedKey := key, currentSharedKeyB64 := c.b64encode(key),
       foreign := s.foreign - {CurrentSharedKey, CurrentSharedKeyB64})
  }

  /** `SetSharedKey(key)`: rotate when the key is 8 bytes long, otherwise raise and change nothing. */
  function KeyRotation(c: Crypto, s: SecState, key: seq<byte>): (r: (SecState, Outcome<SecurityError>))
    ensures r.1.Pass? <==> |key| == 8
    ensures r.1.Fail? ==> r.1.error == InvalidSharedKeyLength && r.0 == s
    ensures r.1.Pass? ==> r.0 == Rotate(c, s, key)
  {
    if |key| == 8 then (Rotate(c, s, key), Pass) else (s, Fail(InvalidSharedKeyLength))
  }

  /** Rotation keeps the state consistent: an 8-byte key joins an 8-byte history. */
  lemma RotatePreservesConsistent(c: Crypto, s: SecState, key: seq<byte>)
    requires Consistent(c, s) && |key| == 8
    ensures Consistent(c, Rotate(c, s, key))
  {
  }

  /**
   * Two successful calls leave the first key in the past slot and the second
   * in the current one, unless the current slot held the empty byte string
   * while the past slot did not.
   */
  lemma RotateTwice(c: Crypto, s: SecState, k1: seq<byte>, k2: seq<byte>)
    requires |k1| == 8 && |k2| == 8
    requires PastEmpty(s) || GetAttr(s, CurrentSharedKey) != VBytes([])
    ensures var t := KeyRotation(c, KeyRotation(c, s, k1).0, k2).0;
      t.currentSharedKey == k2 && t.pastSharedKey == k1 && t.pastSharedKeyB64 == c.b64encode(k1)
      && PastSharedKey !in t.foreign && PastSharedKeyB64 !in t.foreign
  {
    var t1 := KeyRotation(c, s, k1).0;
    assert t1.currentSharedKey == k1 && !PastEmpty(t1);
  }

  // ------------------------------------------------------------ __init__

  /**
   * `WTVNetworkSecurity(wtv_initial_key, wtv_incarnation)`: decode the base64
   * key, record it as the initial key and install it with `SetSharedKey`.
   */
  function InitialState(c: Crypto, initialKeyB64: string, incarnation: int): (r: Result<SecState, SecurityError>)
    ensures r.Ok? ==> c.b64decode(initialKeyB64).Some? && |r.value.initialSharedKey| == 8
    ensures r.Ok? ==> r.value.currentSharedKey == r.value.pastSharedKey == r.value.initialSharedKey
    ensures r.Ok? ==> r.value.initialSharedKeyB64 == initialKeyB64 && r.value.incarnation == incarnation
    ensures r.Err? ==> r.error == (if c.b64decode(initialKeyB64).None? then BadBase64 else InvalidSharedKeyLength)
  {
    match c.b64decode(initialKeyB64)
    case None => Err(BadBase64)
    case Some(key) =>
      var s := Defaults().(initialSharedKeyB64 := initialKeyB64, initialSharedKey := key, incarnation := incarnation);
      var (t, o) := KeyRotation(c, s, key);
      if o.Fail? then Err(o.error) else Ok(t)
  }

  /** A freshly created context is consistent when base64 round-trips. */
  lemma InitialStateConsistent(c: Crypto, initialKeyB64: string, incarnation: int)
    requires c.WellFormed()
    requires InitialState(c, initialKeyB64, incarnation).Ok?
    ensures Consistent(c, InitialState(c, initialKeyB64, incarnation).value)
  {
  }

  // ------------------------------------------------------------ ProcessChallenge

  /** `self.session_key1 = k1` and `self.session_key2 = k2`. */
  function WithSessionKeys(s: SecState, k1: seq<byte>, k2: seq<byte>): (t: SecState)
    ensures GetAttr(t, SessionKey1) == VBytes(k1) && GetAttr(t, SessionKey2) == VBytes(k2)
    ensures t.(sessionKey1 := s.sessionKey1, sessionKey2 := s.sessionKey2, foreign := s.foreign) == s
    ensures t.foreign == s.foreign - {SessionKey1, SessionKey2}
  {
    s.(sessionKey1 := k1, sessionKey2 := k2, foreign := s.foreign - {SessionKey1, SessionKey2})
  }

  /**
   * `ProcessChallenge(wtv_challenge)`: decode; reject 8 bytes or fewer;
   * decrypt bytes 8.. under the past key; check the MD5 of the first 80
   * plaintext bytes against the next 16; then install plaintext bytes 72..80 as
   * the shared key, take the two session keys from bytes 40..56 and 56..72, and
   * answer with the challenge id, the DES encryption under the new key of
   * MD5(echo) followed by the 40-byte echo, and 8 zero bytes, in base64.
   */
  function ChallengeProcessing(c: Crypto, s: SecState, challengeB64: string): (r: (SecState, Result<string, SecurityError>))
    ensures c.b64decode(challengeB64).None? ==> r == (s, Err(BadBase64))
    ensures c.b64decode(challengeB64).Some? && |c.b64decode(challengeB64).value| <= 8 ==>
              r == (s, Err(InvalidChallengeLength))
    ensures c.b64decode(challengeB64).Some? && |c.b64decode(challengeB64).value| > 8 && PastSharedKey in s.foreign ==>
              r == (s, Err(WrongKind))
    ensures r.1 == Err(ChallengeNotSolved) ==> r.0 == s
    ensures r.1.Ok? ==> c.b64decode(challengeB64).Some? && |c.b64decode(challengeB64).value| > 8
    ensures r.1.Ok? ==> PastSharedKey !in s.foreign && SessionKey1 !in r.0.foreign && SessionKey2 !in r.0.foreign
  {
    match c.b64decode(challengeB64)
    case None => (s, Err(BadBase64))
    case Some(challenge) =>
      if |challenge| <= 8 then (s, Err(InvalidChallengeLength))
      else if PastSharedKey in s.foreign then (s, Err(WrongKind))
      else if |s.pastSharedKey| != 8 then (s, Err(DesKeyLength))
      else if (|challenge| - 8) % 8 != 0 then (s, Err(DesAlignment))
      else
        var plain := c.desDecrypt(s.pastSharedKey, challenge[8..]);
        if Slice(plain, 80, 96) != c.md5(Slice(plain, 0, 80)) then (s, Err(ChallengeNotSolved))
        else
          var (keyed, o) := KeyRotation(c, s, Slice(plain, 72, 80));
          if o.Fail? then (s, Err(o.error))
          else
            var echo := Slice(plain, 0, 40);
            var echoMd5 := c.md5(echo);
            var t := WithSessionKeys(keyed, Slice(plain, 40, 56), Slice(plain, 56, 72));
            if |echoMd5 + echo| % 8 != 0 then (t, Err(DesAlignment))
            else (t, Ok(c.b64encode(challenge[..8] + c.desEncrypt(t.currentSharedKey, echoMd5 + echo) + Zeros(8))))
  }

  /**
   * What a successful `ProcessChallenge` means: the plaintext carried its own
   * checksum, the new shared key and the session keys are the plaintext's
   * bytes 72..80, 40..56 and 56..72, the key history rotated, and the response,
   * decrypted under the new key, gives back MD5(echo) and the echo.
   */
  lemma ChallengeProcessingSuccess(c: Crypto, s: SecState, challengeB64: string)
    requires c.WellFormed()
    requires ChallengeProcessing(c, s, challengeB64).1.Ok?
    ensures var challenge := c.b64decode(challengeB64).value;
      var plain := c.desDecrypt(s.pastSharedKey, challenge[8..]);
      var (t, r) := ChallengeProcessing(c, s, challengeB64);
      && |plain| >= 96 && plain[80..96] == c.md5(plain[..80])
      && t == WithSessionKeys(Rotate(c, s, plain[72..80]), plain[40..56], plain[56..72])
      && c.b64decode(r.value).Some?
      && var response := c.b64decode(r.value).value;
      && |response| == 72 && response[..8] == challenge[..8] && response[64..] == Zeros(8)
      && c.desDecrypt(t.currentSharedKey, response[8..64]) == c.md5(plain[..40]) + plain[..40]
  {
    var challenge := c.b64decode(challengeB64).value;
    var plain := c.desDecrypt(s.pastSharedKey, challenge[8..]);
    ChallengeProcessingOk(c, s, challengeB64);
    var (t, r) := ChallengeProcessing(c, s, challengeB64);
    var echo := plain[..40];
    var block := c.md5(echo) + echo;
    var enc := c.desEncrypt(plain[72..80], block);
    var bytes := challenge[..8] + enc + Zeros(8);
    assert r.value == c.b64encode(bytes);
    assert |enc| == 56;
    assert bytes[8..64] == enc;
    assert bytes[64..] == Zeros(8);
  }

  /** The state and the response of a successful `ProcessChallenge`, in terms of the plaintext. */
  lemma ChallengeProcessingOk(c: Crypto, s: SecState, challengeB64: string)
    requires c.WellFormed()
    requires ChallengeProcessing(c, s, challengeB64).1.Ok?
    ensures var challenge := c.b64decode(challengeB64).value;
      var plain := c.desDecrypt(s.pastSharedKey, challenge[8..]);
      var (t, r) := ChallengeProcessing(c, s, challengeB64);
      && |challenge| > 8 && |plain| >= 96 && plain[80..96] == c.md5(plain[..80])
      && t == WithSessionKeys(Rotate(c, s, plain[72..80]), plain[40..56], plain[56..72])
      && r.value == c.b64encode(challenge[..8] + c.desEncrypt(plain[72..80], c.md5(plain[..40]) + plain[..40]) + Zeros(8))
  {
    var challenge := c.b64decode(challengeB64).value;
    var plain := c.desDecrypt(s.pastSharedKey, challenge[8..]);
    assert |Slice(plain, 80, 96)| == 16;
    assert Slice(plain, 72, 80) == plain[72..80] && Slice(plain, 0, 40) == plain[..40];
    assert Slice(plain, 40, 56) == plain[40..56] && Slice(plain, 56, 72) == plain[56..72];
  }

  // ------------------------------------------------------------ IssueChallenge

  /** The 104-byte secret of a challenge: puzzle (echo, two session keys, next key), its MD5, 8 zero bytes. */
  function ChallengeSecret(c: Crypto, echo: seq<byte>, sk1: seq<byte>, sk2: seq<byte>, nextKey: seq<byte>): seq<byte> {
    var puzzle := echo + sk1 + sk2 + nextKey;
    puzzle + c.md5(puzzle) + Zeros(8)
  }

  /** The layout of the secret, byte range by byte range. */
  lemma ChallengeSecretLayout(c: Crypto, echo: seq<byte>, sk1: seq<byte>, sk2: seq<byte>, nextKey: seq<byte>)
    requires c.WellFormed()
    requires |echo| == 40 && |sk1| == 16 && |sk2| == 16 && |nextKey| == 8
    ensures var secret := ChallengeSecret(c, echo, sk1, sk2, nextKey);
      && |secret| == 104
      && secret[..40] == echo && secret[40..56] == sk1 && secret[56..72] == sk2 && secret[72..80] == nextKey
      && secret[80..96] == c.md5(secret[..80]) && secret[96..] == Zeros(8)
  {
    var puzzle := echo + sk1 + sk2 + nextKey;
    var secret := ChallengeSecret(c, echo, sk1, sk2, nextKey);
    assert secret[..80] == puzzle;
    assert puzzle[..40] == echo && puzzle[40..56] == sk1 && puzzle[56..72] == sk2 && puzzle[72..80] == nextKey;
  }

  /** Python's `s[:-4]`: the last four characters dropped (nothing left when shorter). */
  function DropLast4(s: string): (r: string)
    ensures |s| >= 4 ==> r + s[|s| - 4..] == s
    ensures |s| < 4 ==> r == []
  {
    if |s| >= 4 then s[..|s| - 4] else []
  }

  /**
   * `IssueChallenge()` with the five random strings it draws given as
   * arguments: record the session keys, encrypt the secret under the current
   * key, install the next key, answer the full challenge with
   * `ProcessChallenge`, and return the challenge without its last four
   * base64 characters together with that response.
   */
  function ChallengeIssue(c: Crypto, s: SecState, id: seq<byte>, echo: seq<byte>, sk1: seq<byte>,
                          sk2: seq<byte>, nextKey: seq<byte>): (r: (SecState, Result<(string, string), SecurityError>))
    requires |id| == 8 && |echo| == 40 && |sk1| == 16 && |sk2| == 16 && |nextKey| == 8
    ensures CurrentSharedKey in s.foreign ==> r == (WithSessionKeys(s, sk1, sk2), Err(WrongKind))
    ensures CurrentSharedKey !in s.foreign && |s.currentSharedKey| != 8 ==>
              r == (WithSessionKeys(s, sk1, sk2), Err(DesKeyLength))
  {
    var s1 := WithSessionKeys(s, sk1, sk2);
    var secret := ChallengeSecret(c, echo, sk1, sk2, nextKey);
    if CurrentSharedKey in s1.foreign then (s1, Err(WrongKind))
    else if |s1.currentSharedKey| != 8 then (s1, Err(DesKeyLength))
    else if |secret| % 8 != 0 then (s1, Err(DesAlignment))
    else
      var secreted := c.desEncrypt(s1.currentSharedKey, secret);
      var (s2, _) := KeyRotation(c, s1, nextKey);
      var challenge := c.b64encode(id + secreted);
      var (s3, response) := ChallengeProcessing(c, s2, challenge);
      match response
      case Err(e) => (s3, Err(e))
      case Ok(resp) => (s3, Ok((DropLast4(challenge), resp)))
  }

  /** The response `IssueChallenge` computes for its own challenge. */
  function ExpectedResponse(c: Crypto, id: seq<byte>, echo: seq<byte>, nextKey: seq<byte>): string {
    c.b64encode(id + c.desEncrypt(nextKey, c.md5(echo) + echo) + Zeros(8))
  }

  /**
   * The server can always answer its own challenge: from a consistent state
   * `IssueChallenge` never raises; it returns the challenge (encrypted under the
   * old current key) minus four characters and the response computed under the
   * next key; and it leaves both key slots holding the next key and the session
   * keys it drew.
   */
  lemma ChallengeIssueSolves(c: Crypto, s: SecState, id: seq<byte>, echo: seq<byte>, sk1: seq<byte>,
                             sk2: seq<byte>, nextKey: seq<byte>)
    requires c.WellFormed() && Consistent(c, s)
    requires |id| == 8 && |echo| == 40 && |sk1| == 16 && |sk2| == 16 && |nextKey| == 8
    ensures var (t, r) := ChallengeIssue(c, s, id, echo, sk1, sk2, nextKey);
      var full := c.b64encode(id + c.desEncrypt(s.currentSharedKey, ChallengeSecret(c, echo, sk1, sk2, nextKey)));
      && r == Ok((DropLast4(full), ExpectedResponse(c, id, echo, nextKey)))
      && t.currentSharedKey == nextKey && t.pastSharedKey == nextKey
      && t.sessionKey1 == sk1 && t.sessionKey2 == sk2
      && Consistent(c, t)
  {
    var s1 := WithSessionKeys(s, sk1, sk2);
    var secret := ChallengeSecret(c, echo, sk1, sk2, nextKey);
    ChallengeSecretLayout(c, echo, sk1, sk2, nextKey);
    var secreted := c.desEncrypt(s.currentSharedKey, secret);
    assert |secreted| == 104 && c.desDecrypt(s.currentSharedKey, secreted) == secret;
    var s2 := Rotate(c, s1, nextKey);
    assert s2.pastSharedKey == s.currentSharedKey;
    var bytes := id + secreted;
    var challenge := c.b64encode(bytes);
    assert c.b64decode(challenge) == Some(bytes);
    assert bytes[8..] == secreted && bytes[..8] == id;
    assert (forall d :: |c.md5(d)| == 16);
    ChallengeSolved(c, s2, challenge, bytes);
    var p := ChallengeProcessing(c, s2, challenge);
    assert ChallengeIssue(c, s, id, echo, sk1, sk2, nextKey) == (p.0, Ok((DropLast4(challenge), p.1.value))) by {
      assert KeyRotation(c, s1, nextKey).0 == s2;
    }
  }

  /** A challenge whose plaintext carries its own checksum is answered, and the answer is fixed by the plaintext. */
  lemma ChallengeSolved(c: Crypto, s: SecState, challengeB64: string, bytes: seq<byte>)
    requires forall d :: |c.md5(d)| == 16
    requires c.b64decode(challengeB64) == Some(bytes) && |bytes| > 8
    requires PastSharedKey !in s.foreign && |s.pastSharedKey| == 8 && (|bytes| - 8) % 8 == 0
    requires var plain := c.desDecrypt(s.pastSharedKey, bytes[8..]);
      |plain| >= 96 && plain[80..96] == c.md5(plain[..80])
    ensures var plain := c.desDecrypt(s.pastSharedKey, bytes[8..]);
      ChallengeProcessing(c, s, challengeB64)
        == (WithSessionKeys(Rotate(c, s, plain[72..80]), plain[40..56], plain[56..72]),
            Ok(c.b64encode(bytes[..8] + c.desEncrypt(plain[72..80], c.md5(plain[..40]) + plain[..40]) + Zeros(8))))
  {
    var plain := c.desDecrypt(s.pastSharedKey, bytes[8..]);
    assert Slice(plain, 80, 96) == plain[80..96] && Slice(plain, 0, 80) == plain[..80];
    assert Slice(plain, 72, 80) == plain[72..80];
    assert |c.md5(plain[..40]) + plain[..40]| == 56;
  }

  // ------------------------------------------------------------ SecureOn

  /** `n.to_bytes(4, byteorder='big')`: the base-256 digits of `n`, most significant first. */
  function BigEndian4(n: int): (b: seq<byte>)
    requires 0 <= n < 0x1_0000_0000
    ensures |b| == 4
  {
    var q1 := n / 0x100;
    var q2 := q1 / 0x100;
    var q3 := q2 / 0x100;
    [q3 as byte, (q2 % 0x100) as byte, (q1 % 0x100) as byte, (n % 0x100) as byte]
  }

  /** `int.from_bytes(b, byteorder='big')`. */
  function FromBigEndian(b: seq<byte>): nat {
    if b == [] then 0 else FromBigEndian(b[..|b| - 1]) * 0x100 + b[|b| - 1] as int
  }

  /** The four big-endian bytes of the incarnation determine it, and every 4-byte string is one. */
  lemma BigEndian4RoundTrip(n: int, b: seq<byte>)
    requires 0 <= n < 0x1_0000_0000 && |b| == 4
    ensures FromBigEndian(BigEndian4(n)) == n
    ensures FromBigEndian(b) < 0x1_0000_0000 && BigEndian4(FromBigEndian(b)) == b
  {
    BigEndian4Decodes(n);
    BigEndian4Encodes(b);
  }

  lemma BigEndian4Decodes(n: int)
    requires 0 <= n < 0x1_0000_0000
    ensures FromBigEndian(BigEndian4(n)) == n
  {
    var b := BigEndian4(n);
    FromBigEndian4(b);
    var q1 := n / 0x100;
    var q2 := q1 / 0x100;
    assert b[0] as int * 0x100 + b[1] as int == q2;
    assert q2 * 0x100 + b[2] as int == q1;
    assert q1 * 0x100 + b[3] as int == n;
  }

  lemma BigEndian4Encodes(b: seq<byte>)
    requires |b| == 4
    ensures FromBigEndian(b) < 0x1_0000_0000 && BigEndian4(FromBigEndian(b)) == b
  {
    FromBigEndian4(b);
    var q2 := b[0] as int * 0x100 + b[1] as int;
    var q1 := q2 * 0x100 + b[2] as int;
    var n := q1 * 0x100 + b[3] as int;
    DivideByte(n, q1, b[3] as int);
    DivideByte(q1, q2, b[2] as int);
    DivideByte(q2, b[0] as int, b[1] as int);
    assert BigEndian4(n) == [b[0], b[1], b[2], b[3]];
  }

  /** Division by 256 undoes appending a base-256 digit. */
  lemma DivideByte(n: int, q: int, r: int)
    requires n == q * 0x100 + r && 0 <= r < 0x100
    ensures n / 0x100 == q && n % 0x100 == r
  {
  }

  lemma FromBigEndian4(b: seq<byte>)
    requires |b| == 4
    ensures FromBigEndian(b) == ((b[0] as int * 0x100 + b[1] as int) * 0x100 + b[2] as int) * 0x100 + b[3] as int
  {
    assert b[..3][..2][..1] == [b[0]] && b[..3][..2] == [b[0], b[1]] && b[..3] == [b[0], b[1], b[2]];
    assert FromBigEndian([b[0]]) == b[0] as int by {
      assert [b[0]][..0] == [];
    }
    assert FromBigEndian([b[0], b[1]]) == b[0] as int * 0x100 + b[1] as int by {
      assert [b[0], b[1]][..1] == [b[0]];
    }
    assert FromBigEndian([b[0], b[1], b[2]]) == (b[0] as int * 0x100 + b[1] as int) * 0x100 + b[2] as int by {
      assert [b[0], b[1], b[2]][..2] == [b[0], b[1]];
    }
  }

  /** The raw ARC4 key `SecureOn` derives: MD5(seed ++ incarnation as 4 big-endian bytes ++ seed). */
  function Rc4KeyMaterial(c: Crypto, seed: seq<byte>, incarnation: int): seq<byte>
    requires 0 <= incarnation < 0x1_0000_0000
  {
    c.md5(seed + BigEndian4(incarnation) + seed)
  }

  /** `self.incarnation = n`, as `set_incarnation` and the router do. */
  function WithIncarnation(s: SecState, n: int): (t: SecState)
    ensures GetAttr(t, Incarnation) == VInt(n)
    ensures t.(incarnation := s.incarnation, foreign := s.foreign) == s && t.foreign == s.foreign - {Incarnation}
  {
    s.(incarnation := n, foreign := s.foreign - {Incarnation})
  }

  /** `self.hRC4_rawkeyN = raw` for the slot's number N. */
  function WithRawKey(s: SecState, slot: Slot, raw: seq<byte>): (t: SecState)
    ensures GetAttr(t, RawKeyOf(slot)) == VBytes(raw)
  {
    if slot == Key1 then s.(rc4RawKey1 := raw, foreign := s.foreign - {RawKey1})
    else s.(rc4RawKey2 := raw, foreign := s.foreign - {RawKey2})
  }

  /** `self.hRC4_KeyN = ARC4.new(key)` for the slot's number N: a cipher at the start of the key's keystream. */
  function WithCipher(s: SecState, slot: Slot, key: seq<byte>): (t: SecState)
    ensures Context(t, slot) == Some(Rc4Context(key, 0)) && slot !in t.foreignContexts
  {
    if slot == Key1 then s.(rc4Key1 := Some(Rc4Context(key, 0)), foreignContexts := s.foreignContexts - {Key1})
    else s.(rc4Key2 := Some(Rc4Context(key, 0)), foreignContexts := s.foreignContexts - {Key2})
  }

  /** `self.hRC4_rawkeyN = raw` and `self.hRC4_KeyN = ARC4.new(raw)` for the slot's number N. */
  function Keyed(s: SecState, slot: Slot, raw: seq<byte>): SecState {
    WithCipher(WithRawKey(s, slot, raw), slot, raw)
  }

  /** The session key a slot's raw ARC4 key is derived from. */
  function SeedOf(slot: Slot): Field {
    if slot == Key1 then SessionKey1 else SessionKey2
  }

  /**
   * One half of `SecureOn`: `self.hRC4_rawkeyN` becomes the key material of
   * session key N, and `self.hRC4_KeyN` a fresh cipher on it. A session key
   * that is not bytes cannot be added to bytes and raises before anything
   * changes; a raw key `ARC4.new` refuses raises once it is stored.
   */
  function DeriveKey(c: Crypto, s: SecState, slot: Slot): (r: (SecState, Outcome<SecurityError>))
    requires 0 <= s.incarnation < 0x1_0000_0000
    ensures SeedOf(slot) in s.foreign ==> r == (s, Fail(WrongKind))
    ensures r.1.Pass? ==> SeedOf(slot) !in s.foreign
    ensures r.1.Pass? ==> r.0 == Keyed(s, slot, Rc4KeyMaterial(c, Declared(s, SeedOf(slot)).bytes, s.incarnation))
  {
    if SeedOf(slot) in s.foreign then (s, Fail(WrongKind))
    else
      var raw := Rc4KeyMaterial(c, Declared(s, SeedOf(slot)).bytes, s.incarnation);
      if !c.rc4KeyOk(raw) then (WithRawKey(s, slot, raw), Fail(Rc4KeyLength))
      else (Keyed(s, slot, raw), Pass)
  }

  /** The attribute for a slot's raw ARC4 key. */
  function RawKeyOf(slot: Slot): Field {
    if slot == Key1 then RawKey1 else RawKey2
  }

  /**
   * `SecureOn()`: derive both raw keys and create fresh ARC4 contexts from
   * them. Evaluating `self.incarnation.to_bytes(4, 'big')` raises first, before
   * anything changes: an incarnation that is not an integer has no `to_bytes`,
   * and one outside 0 .. 2^32 - 1 overflows.
   */
  function SessionKeying(c: Crypto, s: SecState): (r: (SecState, Outcome<SecurityError>))
    ensures Incarnation in s.foreign ==> r == (s, Fail(WrongKind))
    ensures Incarnation !in s.foreign ==> (!(0 <= s.incarnation < 0x1_0000_0000) <==> r == (s, Fail(IncarnationOutOfRange)))
    ensures Incarnation !in s.foreign && 0 <= s.incarnation < 0x1_0000_0000 && SessionKey1 in s.foreign ==>
              r == (s, Fail(WrongKind))
  {
    if Incarnation in s.foreign then (s, Fail(WrongKind))
    else if !(0 <= s.incarnation < 0x1_0000_0000) then (s, Fail(IncarnationOutOfRange))
    else
      var (s1, o) := DeriveKey(c, s, Key1);
      if o.Fail? then (s1, o) else DeriveKey(c, s1, Key2)
  }

  /**
   * With an integer incarnation in 0 .. 2^32 - 1 and byte-string session keys
   * `SecureOn` succeeds, and both contexts start at the beginning of the
   * keystream of the derived keys; nothing but the four ARC4 attributes
   * changes, and they hold values of their own kind afterwards.
   */
  lemma SessionKeyingEffect(c: Crypto, s: SecState)
    requires c.KeysAccepted() && 0 <= s.incarnation < 0x1_0000_0000
    requires Incarnation !in s.foreign && SessionKey1 !in s.foreign && SessionKey2 !in s.foreign
    ensures var (t, o) := SessionKeying(c, s);
      var raw1 := c.md5(s.sessionKey1 + BigEndian4(s.incarnation) + s.sessionKey1);
      var raw2 := c.md5(s.sessionKey2 + BigEndian4(s.incarnation) + s.sessionKey2);
      && o == Pass
      && t == s.(rc4RawKey1 := raw1, rc4Key1 := Some(Rc4Context(raw1, 0)),
                 rc4RawKey2 := raw2, rc4Key2 := Some(Rc4Context(raw2, 0)),
                 foreign := s.foreign - {RawKey1, RawKey2}, foreignContexts := s.foreignContexts - {Key1, Key2})
    ensures Key1 !in SessionKeying(c, s).0.foreignContexts && Key2 !in SessionKeying(c, s).0.foreignContexts
  {
    var raw1 := Rc4KeyMaterial(c, s.sessionKey1, s.incarnation);
    var raw2 := Rc4KeyMaterial(c, s.sessionKey2, s.incarnation);
    assert |raw1| == 16 && |raw2| == 16;
    var s1 := Keyed(s, Key1, raw1);
    assert DeriveKey(c, s, Key1) == (s1, Pass);
    var t := Keyed(s1, Key2, raw2);
    assert DeriveKey(c, s1, Key2) == (t, Pass);
    assert SessionKeying(c, s) == (t, Pass);
    assert t.foreignContexts == s.foreignContexts - {Key1} - {Key2};
    assert t.foreign == s.foreign - {RawKey1} - {RawKey2};
  }

  /**
   * A session key that is not bytes makes `SecureOn` raise: the first before
   * anything changes, the second once the first context is in place.
   */
  lemma SessionKeyingWrongKind(c: Crypto, s: SecState)
    requires c.KeysAccepted() && 0 <= s.incarnation < 0x1_0000_0000 && Incarnation !in s.foreign
    requires SessionKey1 in s.foreign || SessionKey2 in s.foreign
    ensures SessionKeying(c, s).1 == Fail(WrongKind)
    ensures SessionKey1 in s.foreign ==> SessionKeying(c, s).0 == s
    ensures SessionKey1 !in s.foreign ==>
              SessionKeying(c, s).0 == Keyed(s, Key1, c.md5(s.sessionKey1 + BigEndian4(s.incarnation) + s.sessionKey1))
  {
  }

  // ------------------------------------------------------------ Encrypt / Decrypt

  function Context(s: SecState, slot: Slot): Option<Rc4Context> {
    if slot == Key1 then s.rc4Key1 else s.rc4Key2
  }

  function WithContext(s: SecState, slot: Slot, ctx: Option<Rc4Context>): SecState {
    if slot == Key1 then s.(rc4Key1 := ctx) else s.(rc4Key2 := ctx)
  }

  /**
   * `Encrypt(context, data)` / `Decrypt(context, data)` on the context of
   * `slot`: raise `missing` when there is no context, and `WrongKind` when the
   * attribute holds text or an integer (it has no `encrypt` or `decrypt`);
   * otherwise run the data through the keystream and advance it.
   */
  function StreamCrypt(c: Crypto, s: SecState, slot: Slot, data: seq<byte>, missing: SecurityError)
    : (r: (SecState, Result<seq<byte>, SecurityError>))
    ensures r.1.Err? <==> slot in s.foreignContexts || Context(s, slot).None?
    ensures r.1.Err? ==> r == (s, Err(if slot in s.foreignContexts then WrongKind else missing))
    ensures r.1.Ok? ==> c.WellFormed() ==> |r.1.value| == |data|
    ensures r.1.Ok? ==>
              Context(r.0, slot) == Some(Context(s, slot).value.(position := Context(s, slot).value.position + |data|))
    ensures Context(r.0, if slot == Key1 then Key2 else Key1) == Context(s, if slot == Key1 then Key2 else Key1)
    ensures r.0.foreignContexts == s.foreignContexts
  {
    if slot in s.foreignContexts then (s, Err(WrongKind))
    else match Context(s, slot)
      case None => (s, Err(missing))
      case Some(ctx) =>
        (WithContext(s, slot, Some(ctx.(position := ctx.position + |data|))), Ok(c.rc4(ctx.rawKey, ctx.position, data)))
  }

  /**
   * Two parties whose contexts share key and keystream position stay in step:
   * what one encrypts the other decrypts back.
   */
  lemma StreamCryptInverse(c: Crypto, sender: SecState, receiver: SecState, slot: Slot, data: seq<byte>)
    requires c.WellFormed()
    requires slot !in sender.foreignContexts && slot !in receiver.foreignContexts
    requires Context(sender, slot).Some? && Context(sender, slot) == Context(receiver, slot)
    ensures var (s1, sent) := StreamCrypt(c, sender, slot, data, NoEncryptionContext);
      var (r1, got) := StreamCrypt(c, receiver, slot, sent.value, NoDecryptionContext);
      got == Ok(data) && Context(s1, slot) == Context(r1, slot)
  {
    var ctx := Context(sender, slot).value;
    Rc4Involution(c, ctx.rawKey, ctx.position, data);
  }
}
