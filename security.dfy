/**
 * `WTVNetworkSecurity`: the per-connection security object. Its methods
 * update its fields step by step as the Python methods do, and each is proved
 * to end in the state (and with the result) that the corresponding function of
 * modules `SecurityState` and `Ticket` specifies.
 */
module Security {
  import opened Wrappers
  import opened Text
  import opened Primitives
  import opened SecurityState
  import Ticket

  class SecurityContext {
    const crypto: Crypto
    var initialSharedKey: seq<byte>
    var initialSharedKeyB64: string
    var currentSharedKey: seq<byte>
    var currentSharedKeyB64: string
    var pastSharedKey: seq<byte>
    var pastSharedKeyB64: string
    var incarnation: int
    var sessionKey1: seq<byte>
    var sessionKey2: seq<byte>
    var rc4Key1: Option<Rc4Context>
    var rc4RawKey1: seq<byte>
    var rc4Key2: Option<Rc4Context>
    var rc4RawKey2: seq<byte>
    var sessionToken: string
    /** The attributes that hold a value of another kind than the class gives them. */
    var foreign: map<Field, Value>
    /** The ARC4 context attributes that hold a value that is not a cipher. */
    var foreignContexts: map<Slot, Value>

    /** The object's attributes as a value. */
    function State(): SecState
      reads this
    {
      SecState(initialSharedKey, initialSharedKeyB64, currentSharedKey, currentSharedKeyB64,
               pastSharedKey, pastSharedKeyB64, incarnation, sessionKey1, sessionKey2,
               rc4Key1, rc4RawKey1, rc4Key2, rc4RawKey2, sessionToken, foreign, foreignContexts)
    }

    /** An object holding the class-level defaults. */
    constructor WithDefaults(crypto: Crypto)
      ensures this.crypto == crypto && State() == Defaults()
    {
      this.crypto := crypto;
      initialSharedKey, initialSharedKeyB64 := [], "";
      currentSharedKey, currentSharedKeyB64 := [], "";
      pastSharedKey, pastSharedKeyB64 := [], "";
      incarnation := 1;
      sessionKey1, sessionKey2 := [], [];
      rc4Key1, rc4RawKey1, rc4Key2, rc4RawKey2 := None, [], None, [];
      sessionToken := "";
      foreign, foreignContexts := map[], map[];
    }

    /** `WTVNetworkSecurity(wtv_initial_key, wtv_incarnation)`. */
    static method Create(crypto: Crypto, initialKeyB64: string, incarnation: int)
      returns (r: Result<SecurityContext, SecurityError>)
      ensures r.Ok? ==> fresh(r.value) && r.value.crypto == crypto
      ensures r.Ok? ==> InitialState(crypto, initialKeyB64, incarnation) == Ok(r.value.State())
      ensures r.Err? ==> InitialState(crypto, initialKeyB64, incarnation) == Err(r.error)
    {
      var ctx := new SecurityContext.WithDefaults(crypto);
      ctx.initialSharedKeyB64 := initialKeyB64;
      var initialKey := crypto.b64decode(initialKeyB64);
      if initialKey.None? {
        return Err(BadBase64);
      }
      ctx.initialSharedKey := initialKey.value;
      ctx.incarnation := incarnation;
      var o := ctx.SetSharedKey(initialKey.value);
      if o.Fail? {
        return Err(o.error);
      }
      return Ok(ctx);
    }

    /** `SetSharedKey(shared_key)`. */
    method SetSharedKey(key: seq<byte>) returns (o: Outcome<SecurityError>)
      modifies this`currentSharedKey, this`currentSharedKeyB64, this`pastSharedKey, this`pastSharedKeyB64, this`foreign
      ensures (State(), o) == KeyRotation(crypto, old(State()), key)
    {
      if |key| == 8 {
        ShiftPast(key);
        Install(key);
        return Pass;
      } else {
        return Fail(InvalidSharedKeyLength);
      }
    }

    /** The past slot of `SetSharedKey`. */
    method ShiftPast(key: seq<byte>)
      modifies this`pastSharedKey, this`pastSharedKeyB64, this`foreign
      ensures State() == SecurityState.ShiftPast(crypto, old(State()), key)
    {
      if PastEmpty(State()) {
        pastSharedKey, pastSharedKeyB64 := key, crypto.b64encode(key);
        foreign := foreign - {PastSharedKey, PastSharedKeyB64};
      } else {
        pastSharedKey, pastSharedKeyB64 := currentSharedKey, currentSharedKeyB64;
        foreign := Carry(Carry(foreign, CurrentSharedKey, PastSharedKey), CurrentSharedKeyB64, PastSharedKeyB64);
      }
    }

    /** The current slot of `SetSharedKey`. */
    method Install(key: seq<byte>)
      modifies this`currentSharedKey, this`currentSharedKeyB64, this`foreign
      ensures State() == SecurityState.Install(crypto, old(State()), key)
    {
      currentSharedKey, currentSharedKeyB64 := key, crypto.b64encode(key);
      foreign := foreign - {CurrentSharedKey, CurrentSharedKeyB64};
    }

    /** `set_incarnation(wtv_incarnation)`. */
    method SetIncarnation(n: int)
      modifies this`incarnation, this`foreign
      ensures State() == WithIncarnation(old(State()), n)
    {
      incarnation := n;
      foreign := foreign - {Incarnation};
    }

    /** `ProcessChallenge(wtv_challenge)`. */
    method ProcessChallenge(challengeB64: string) returns (r: Result<string, SecurityError>)
      modifies this`currentSharedKey, this`currentSharedKeyB64, this`pastSharedKey, this`pastSharedKeyB64
      modifies this`sessionKey1, this`sessionKey2, this`foreign
      ensures (State(), r) == ChallengeProcessing(crypto, old(State()), challengeB64)
    {
      var decoded := crypto.b64decode(challengeB64);
      if decoded.None? {
        return Err(BadBase64);
      }
      var challenge := decoded.value;
      if !(|challenge| > 8) {
        return Err(InvalidChallengeLength);
      }
      if PastSharedKey in foreign {
        return Err(WrongKind);
      }
      if |pastSharedKey| != 8 {
        return Err(DesKeyLength);
      }
      if (|challenge| - 8) % 8 != 0 {
        return Err(DesAlignment);
      }
      var plain := crypto.desDecrypt(pastSharedKey, challenge[8..]);
      var test := Slice(plain, 80, 96);
      var test2 := crypto.md5(Slice(plain, 0, 80));
      if test == test2 {
        ghost var s0 := State();
        var o := SetSharedKey(Slice(plain, 72, 80));
        if o.Fail? {
          return Err(o.error);
        }
        ghost var keyed := State();
        var echo := Slice(plain, 0, 40);
        var echoMd5 := crypto.md5(echo);
        SetSessionKeys(Slice(plain, 40, 56), Slice(plain, 56, 72));
        assert keyed == Rotate(crypto, s0, Slice(plain, 72, 80));
        if |echoMd5 + echo| % 8 != 0 {
          return Err(DesAlignment);
        }
        var echoEncrypted := crypto.desEncrypt(currentSharedKey, echoMd5 + echo);
        var response := challenge[..8] + echoEncrypted + Zeros(8);
        return Ok(crypto.b64encode(response));
      } else {
        return Err(ChallengeNotSolved);
      }
    }

    /** `self.session_key1 = k1` and `self.session_key2 = k2`. */
    method SetSessionKeys(k1: seq<byte>, k2: seq<byte>)
      modifies this`sessionKey1, this`sessionKey2, this`foreign
      ensures State() == WithSessionKeys(old(State()), k1, k2)
    {
      sessionKey1, sessionKey2 := k1, k2;
      foreign := foreign - {SessionKey1, SessionKey2};
    }

    /**
     * `IssueChallenge()`. The random id, echo, session keys and next shared key
     * that the source draws from `get_random_bytes` are arguments here.
     */
    method IssueChallenge(id: seq<byte>, echo: seq<byte>, sk1: seq<byte>, sk2: seq<byte>, nextKey: seq<byte>)
      returns (r: Result<(string, string), SecurityError>)
      requires |id| == 8 && |echo| == 40 && |sk1| == 16 && |sk2| == 16 && |nextKey| == 8
      modifies this`currentSharedKey, this`currentSharedKeyB64, this`pastSharedKey, this`pastSharedKeyB64
      modifies this`sessionKey1, this`sessionKey2, this`foreign
      ensures (State(), r) == ChallengeIssue(crypto, old(State()), id, echo, sk1, sk2, nextKey)
    {
      SetSessionKeys(sk1, sk2);
      var puzzle := echo + sessionKey1 + sessionKey2 + nextKey;
      var puzzleMd5 := crypto.md5(puzzle);
      var secret := puzzle + puzzleMd5 + Zeros(8);
      if CurrentSharedKey in foreign {
        return Err(WrongKind);
      }
      if |currentSharedKey| != 8 {
        return Err(DesKeyLength);
      }
      if |secret| % 8 != 0 {
        return Err(DesAlignment);
      }
      var secreted := crypto.desEncrypt(currentSharedKey, secret);
      var _ := SetSharedKey(nextKey);
      var challenge := crypto.b64encode(id + secreted);
      var response := ProcessChallenge(challenge);
      if response.Err? {
        return Err(response.error);
      }
      return Ok((DropLast4(challenge), response.value));
    }

    /** `SecureOn()`. */
    method SecureOn() returns (o: Outcome<SecurityError>)
      modifies this`rc4RawKey1, this`rc4Key1, this`rc4RawKey2, this`rc4Key2, this`foreign, this`foreignContexts
      ensures (State(), o) == SessionKeying(crypto, old(State()))
    {
      if Incarnation in foreign {
        return Fail(WrongKind);
      }
      if !(0 <= incarnation < 0x1_0000_0000) {
        return Fail(IncarnationOutOfRange);
      }
      o := DeriveKey(Key1);
      if o.Pass? {
        o := DeriveKey(Key2);
      }
    }

    /** One half of `SecureOn`: the raw key and the cipher of `slot`. */
    method DeriveKey(slot: Slot) returns (o: Outcome<SecurityError>)
      requires 0 <= incarnation < 0x1_0000_0000
      modifies this`rc4RawKey1, this`rc4Key1, this`rc4RawKey2, this`rc4Key2, this`foreign, this`foreignContexts
      ensures (State(), o) == SecurityState.DeriveKey(crypto, old(State()), slot)
    {
      if SeedOf(slot) in foreign {
        return Fail(WrongKind);
      }
      var seed := if slot == Key1 then sessionKey1 else sessionKey2;
      var raw := crypto.md5(seed + BigEndian4(incarnation) + seed);
      SetRawKey(slot, raw);
      if !crypto.rc4KeyOk(raw) {
        return Fail(Rc4KeyLength);
      }
      SetCipher(slot, raw);
      return Pass;
    }

    /** `self.hRC4_rawkeyN = raw`. */
    method SetRawKey(slot: Slot, raw: seq<byte>)
      modifies this`rc4RawKey1, this`rc4RawKey2, this`foreign
      ensures State() == WithRawKey(old(State()), slot, raw)
    {
      if slot == Key1 {
        rc4RawKey1 := raw;
      } else {
        rc4RawKey2 := raw;
      }
      foreign := foreign - {RawKeyOf(slot)};
    }

    /** `self.hRC4_KeyN = ARC4.new(key)`. */
    method SetCipher(slot: Slot, key: seq<byte>)
      modifies this`rc4Key1, this`rc4Key2, this`foreignContexts
      ensures State() == WithCipher(old(State()), slot, key)
    {
      if slot == Key1 {
        rc4Key1 := Some(Rc4Context(key, 0));
      } else {
        rc4Key2 := Some(Rc4Context(key, 0));
      }
      foreignContexts := foreignContexts - {slot};
    }

    /** Runs `data` through the keystream of the context in `slot` and advances it. */
    method Crypt(slot: Slot, data: seq<byte>, missing: SecurityError) returns (r: Result<seq<byte>, SecurityError>)
      modifies this`rc4Key1, this`rc4Key2
      ensures (State(), r) == StreamCrypt(crypto, old(State()), slot, data, missing)
    {
      if slot in foreignContexts {
        return Err(WrongKind);
      }
      var context := if slot == Key1 then rc4Key1 else rc4Key2;
      if context.None? {
        return Err(missing);
      }
      var ctx := context.value;
      var out := crypto.rc4(ctx.rawKey, ctx.position, data);
      if slot == Key1 {
        rc4Key1 := Some(ctx.(position := ctx.position + |data|));
      } else {
        rc4Key2 := Some(ctx.(position := ctx.position + |data|));
      }
      return Ok(out);
    }

    /** `Encrypt(context, data)`; `EncryptKey1` and `EncryptKey2` are `Encrypt(Key1, ..)` and `Encrypt(Key2, ..)`. */
    method Encrypt(slot: Slot, data: seq<byte>) returns (r: Result<seq<byte>, SecurityError>)
      modifies this`rc4Key1, this`rc4Key2
      ensures (State(), r) == StreamCrypt(crypto, old(State()), slot, data, NoEncryptionContext)
    {
      r := Crypt(slot, data, NoEncryptionContext);
    }

    /** `Decrypt(context, data)`; `DecryptKey1` and `DecryptKey2` are `Decrypt(Key1, ..)` and `Decrypt(Key2, ..)`. */
    method Decrypt(slot: Slot, data: seq<byte>) returns (r: Result<seq<byte>, SecurityError>)
      modifies this`rc4Key1, this`rc4Key2
      ensures (State(), r) == StreamCrypt(crypto, old(State()), slot, data, NoDecryptionContext)
    {
      r := Crypt(slot, data, NoDecryptionContext);
    }

    /**
     * `dump()`: collect the tagged attributes in order, encode as JSON, escape
     * the colons; raise at an attribute holding a value it cannot write.
     */
    method Dump() returns (d: Result<string, SecurityError>)
      ensures d == Ticket.Dump(crypto, State())
    {
      var x: JsonObject := [];
      var i := 0;
      while i < |Ticket.DumpedFields|
        invariant 0 <= i <= |Ticket.DumpedFields| && |x| == i
        invariant forall j :: 0 <= j < i ==> Ticket.Writable(Ticket.DumpedFields[j], GetAttr(State(), Ticket.DumpedFields[j]))
        invariant forall j :: 0 <= j < i ==>
                    x[j] == (Ticket.Name(Ticket.DumpedFields[j]),
                             Ticket.DumpValue(crypto, Ticket.DumpedFields[j], GetAttr(State(), Ticket.DumpedFields[j])))
      {
        var f := Ticket.DumpedFields[i];
        var v := GetAttr(State(), f);
        if !Ticket.Writable(f, v) {
          return Err(WrongKind);
        }
        x := x + [(Ticket.Name(f), Ticket.DumpValue(crypto, f, v))];
        i := i + 1;
      }
      assert Ticket.Dumpable(State()) by {
        forall f ensures Ticket.Writable(f, GetAttr(State(), f)) {
          assert Ticket.DumpedFields[Ticket.Index(f)] == f;
        }
      }
      assert x == Ticket.TicketObject(crypto, State());
      d := Ok(Ticket.Escape(crypto.jsonEncode(x)));
    }

    /** Assigning one attribute other than a context: a value of its own kind goes to its field, any other is kept as it is. */
    method SetField(f: Field, v: Value)
      modifies this
      ensures State() == SecurityState.SetField(old(State()), f, v)
    {
      if OfKind(f, v) {
        Store(f, v);
        foreign := foreign - {f};
      } else {
        foreign := foreign[f := v];
      }
    }

    /** The typed field of attribute `f` set to `v`, which is of its kind. */
    method Store(f: Field, v: Value)
      requires OfKind(f, v)
      modifies this
      ensures State() == SecurityState.Store(old(State()), f, v)
    {
      if BytesField(f) {
        StoreBytes(f, v.bytes);
      } else {
        StoreOther(f, v);
      }
    }

    /** The typed field of a bytes attribute set to `b`. */
    method StoreBytes(f: Field, b: seq<byte>)
      requires BytesField(f)
      modifies this`initialSharedKey, this`currentSharedKey, this`pastSharedKey, this`sessionKey1, this`sessionKey2
      modifies this`rc4RawKey1, this`rc4RawKey2
      ensures State() == SecurityState.Store(old(State()), f, VBytes(b))
    {
      match f
      case InitialSharedKey => initialSharedKey := b;
      case CurrentSharedKey => currentSharedKey := b;
      case PastSharedKey => pastSharedKey := b;
      case SessionKey1 => sessionKey1 := b;
      case SessionKey2 => sessionKey2 := b;
      case RawKey1 => rc4RawKey1 := b;
      case RawKey2 => rc4RawKey2 := b;
    }

    /** The typed field of a text attribute or of the incarnation set to `v`, which is of its kind. */
    method StoreOther(f: Field, v: Value)
      requires !BytesField(f) && OfKind(f, v)
      modifies this`initialSharedKeyB64, this`currentSharedKeyB64, this`pastSharedKeyB64, this`sessionToken
      modifies this`incarnation
      ensures State() == SecurityState.Store(old(State()), f, v)
    {
      match f
      case InitialSharedKeyB64 => initialSharedKeyB64 := v.text;
      case CurrentSharedKeyB64 => currentSharedKeyB64 := v.text;
      case PastSharedKeyB64 => pastSharedKeyB64 := v.text;
      case SessionToken => sessionToken := v.text;
      case Incarnation => incarnation := v.number;
    }

    /** `setattr(self, name, value)`. */
    method SetAttr(name: string, v: Value)
      modifies this
      ensures State() == Ticket.SetAttr(old(State()), name, v)
    {
      match Ticket.FieldNamed(name)
      case Some(f) =>
        SetField(f, v);
      case None =>
        match Ticket.ContextNamed(name)
        case Some(slot) =>
          foreignContexts := foreignContexts[slot := v];
        case None =>
    }

    /** `importdump(dump)`. */
    method ImportDump(dump: string) returns (o: Outcome<SecurityError>)
      modifies this
      ensures (State(), o) == Ticket.ImportDump(crypto, old(State()), dump)
    {
      var decoded := crypto.jsonDecode(Ticket.Unescape(dump));
      if decoded.None? {
        return Fail(BadTicket);
      }
      o := ApplyMembers(decoded.value);
      if o.Pass? {
        o := RebuildContexts();
      }
    }

    /** The loop of `importdump`: set each member of the decoded object as an attribute, stopping at a value it cannot read. */
    method ApplyMembers(x: Primitives.JsonObject) returns (o: Outcome<SecurityError>)
      modifies this
      ensures (State(), o) == Ticket.ApplyMembers(crypto, old(State()), x)
    {
      var i := 0;
      while i < |x|
        invariant 0 <= i <= |x|
        invariant Ticket.ApplyMembers(crypto, old(State()), x) == Ticket.ApplyMembers(crypto, State(), x[i..])
      {
        assert x[i..][0] == x[i] && x[i..][1..] == x[i + 1..];
        var (key, raw) := x[i];
        var value := Ticket.ImportValue(crypto, raw);
        if value.Err? {
          return Fail(value.error);
        }
        SetAttr(key, value.value);
        i := i + 1;
      }
      assert x[i..] == [];
      return Pass;
    }

    /** The two `if` statements after the loop of `importdump`. */
    method RebuildContexts() returns (o: Outcome<SecurityError>)
      modifies this
      ensures (State(), o) == Ticket.RebuildContexts(crypto, old(State()))
    {
      var raw1 := GetAttr(State(), RawKey1);
      if raw1 != VBytes([]) {
        if !raw1.VBytes? {
          return Fail(WrongKind);
        }
        if !crypto.rc4KeyOk(raw1.bytes) {
          return Fail(Rc4KeyLength);
        }
        SetCipher(Key1, raw1.bytes);
      }
      var raw2 := GetAttr(State(), RawKey2);
      if raw2 != VBytes([]) {
        if !raw2.VBytes? {
          return Fail(WrongKind);
        }
        if !crypto.rc4KeyOk(raw2.bytes) {
          return Fail(Rc4KeyLength);
        }
        SetCipher(Key2, raw2.bytes);
      }
      return Pass;
    }
  }
}
