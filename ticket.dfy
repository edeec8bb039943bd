/**
 * The ticket: the security state serialised by `dump` (a JSON object of
 * tagged values whose colons are escaped) and read back by `importdump`
 * (which assigns each member to the attribute it names).
 */
module Ticket {
  import opened Wrappers
  import opened Text
  import opened Primitives
  import opened SecurityState

  /** The dumped attributes in the order `dump` writes them. */
  const DumpedFields: seq<Field> := [
    InitialSharedKey, CurrentSharedKey, PastSharedKey, SessionKey1, SessionKey2, RawKey1, RawKey2,
    InitialSharedKeyB64, CurrentSharedKeyB64, PastSharedKeyB64, SessionToken, Incarnation]

  /** The position of a field in `DumpedFields`. */
  function Index(f: Field): (i: nat)
    ensures i < |DumpedFields| && DumpedFields[i] == f
  {
    match f
    case InitialSharedKey => 0 case CurrentSharedKey => 1 case PastSharedKey => 2
    case SessionKey1 => 3 case SessionKey2 => 4 case RawKey1 => 5 case RawKey2 => 6
    case InitialSharedKeyB64 => 7 case CurrentSharedKeyB64 => 8 case PastSharedKeyB64 => 9
    case SessionToken => 10 case Incarnation => 11
  }

  /** The attribute's Python name, which is the ticket member's key. */
  function Name(f: Field): string {
    match f
    case InitialSharedKey => "initial_shared_key"
    case CurrentSharedKey => "current_shared_key"
    case PastSharedKey => "past_shared_key"
    case SessionKey1 => "session_key1"
    case SessionKey2 => "session_key2"
    case RawKey1 => "hRC4_rawkey1"
    case RawKey2 => "hRC4_rawkey2"
    case InitialSharedKeyB64 => "initial_shared_key_b64"
    case CurrentSharedKeyB64 => "current_shared_key_b64"
    case PastSharedKeyB64 => "past_shared_key_b64"
    case SessionToken => "session_token"
    case Incarnation => "incarnation"
  }

  /** The dumped attribute an attribute name denotes, if any. */
  function FieldNamed(name: string): Option<Field> {
    if name == "initial_shared_key" then Some(InitialSharedKey)
    else if name == "current_shared_key" then Some(CurrentSharedKey)
    else if name == "past_shared_key" then Some(PastSharedKey)
    else if name == "session_key1" then Some(SessionKey1)
    else if name == "session_key2" then Some(SessionKey2)
    else if name == "hRC4_rawkey1" then Some(RawKey1)
    else if name == "hRC4_rawkey2" then Some(RawKey2)
    else if name == "initial_shared_key_b64" then Some(InitialSharedKeyB64)
    else if name == "current_shared_key_b64" then Some(CurrentSharedKeyB64)
    else if name == "past_shared_key_b64" then Some(PastSharedKeyB64)
    else if name == "session_token" then Some(SessionToken)
    else if name == "incarnation" then Some(Incarnation)
    else None
  }

  /** Every attribute is found under its own name, so no two attributes share a name. */
  lemma FieldNamedName(f: Field)
    ensures FieldNamed(Name(f)) == Some(f)
  {
    match f
    case InitialSharedKey =>
    case CurrentSharedKey =>
      assert Name(f)[0] == 'c';
    case PastSharedKey =>
    case SessionKey1 =>
    case SessionKey2 =>
      assert Name(f)[11] == '2';
    case RawKey1 =>
      assert Name(f)[0] == 'h';
    case RawKey2 =>
      assert Name(f)[0] == 'h' && Name(f)[11] == '2';
    case InitialSharedKeyB64 =>
    case CurrentSharedKeyB64 =>
      assert Name(f)[0] == 'c';
    case PastSharedKeyB64 =>
    case SessionToken =>
      assert Name(f)[8] == 't';
    case Incarnation =>
  }

  /** The ARC4 context an attribute name denotes, if any. */
  function ContextNamed(name: string): Option<Slot> {
    if name == "hRC4_Key1" then Some(Key1) else if name == "hRC4_Key2" then Some(Key2) else None
  }

  /**
   * `setattr(self, name, value)`. An attribute other than a context holds the
   * value afterwards, as `SetField` says; a context attribute holds the value
   * instead of a cipher; any other name is not state of the model and changes
   * nothing.
   */
  function SetAttr(s: SecState, name: string, v: Value): (t: SecState)
    ensures FieldNamed(name).Some? ==> t == SetField(s, FieldNamed(name).value, v)
    ensures ContextNamed(name).Some? ==>
              t.foreignContexts == s.foreignContexts[ContextNamed(name).value := v]
              && t.(foreignContexts := s.foreignContexts) == s
    ensures FieldNamed(name).None? && ContextNamed(name).None? ==> t == s
  {
    match FieldNamed(name)
    case Some(f) => SetField(s, f, v)
    case None =>
      match ContextNamed(name)
      case Some(slot) => s.(foreignContexts := s.foreignContexts[slot := v])
      case None => s
  }

  // ------------------------------------------------------------ values

  /**
   * Whether `dump` can write value `v` of attribute `f`: the bytes attributes
   * take any kind; the text attributes are appended to `'c~!'`, which needs
   * text; the incarnation goes to `json.dumps` as it is, which refuses bytes.
   */
  predicate Writable(f: Field, v: Value) {
    if BytesField(f) then true else if f == Incarnation then !v.VBytes? else v.VText?
  }

  /**
   * How `dump` writes attribute `f` holding `v`: bytes as `b~!` and base64,
   * other values of a bytes attribute as they are, a text attribute as `c~!`
   * and the text, and the incarnation as it is.
   */
  function DumpValue(c: Crypto, f: Field, v: Value): Json
    requires Writable(f, v)
  {
    match v
    case VBytes(b) => JStr("b~!" + c.b64encode(b))
    case VText(t) => JStr(if BytesField(f) || f == Incarnation then t else "c~!" + t)
    case VInt(i) => JInt(i)
  }

  /**
   * How `importdump` reads a value: an integer as it is; a string tagged
   * `b~!` as the base64 decoding of the rest, one tagged `c~!` as the rest,
   * an untagged one as it is; anything else raises.
   */
  function ImportValue(c: Crypto, j: Json): (r: Result<Value, SecurityError>)
    ensures j.JOther? <==> r == Err(TicketValueNotText)
    ensures j.JInt? ==> r == Ok(VInt(j.number))
    ensures j.JStr? && !StartsWith(j.text, "b~!") && !StartsWith(j.text, "c~!") ==> r == Ok(VText(j.text))
  {
    match j
    case JInt(i) => Ok(VInt(i))
    case JOther => Err(TicketValueNotText)
    case JStr(t) =>
      if StartsWith(t, "b~!") then
        (match c.b64decode(t[3..]) case None => Err(BadBase64) case Some(b) => Ok(VBytes(b)))
      else if StartsWith(t, "c~!") then Ok(VText(t[3..]))
      else Ok(VText(t))
  }

  /** Every value of its attribute's own kind reads back as it was written. */
  lemma ImportDumpValue(c: Crypto, f: Field, v: Value)
    requires Base64RoundTrips(c) && OfKind(f, v)
    ensures Writable(f, v) && ImportValue(c, DumpValue(c, f, v)) == Ok(v)
  {
    match v
    case VBytes(b) =>
      var t := "b~!" + c.b64encode(b);
      assert t[3..] == c.b64encode(b);
    case VText(x) =>
      var t := "c~!" + x;
      assert t[3..] == x;
      assert !StartsWith(t, "b~!") by { assert t[0] == 'c'; }
    case VInt(_) =>
  }

  // ------------------------------------------------------------ escaping

  /** `.replace(':', '\\./')`. */
  function Escape(s: string): (r: string)
    ensures ':' !in r
    ensures '\\' !in s ==> forall k :: 0 <= k < |r| && r[k] == '\\' ==> k + 2 < |r| && r[k + 1] == '.' && r[k + 2] == '/'
  {
    if s == [] then [] else (if s[0] == ':' then "\\./" else [s[0]]) + Escape(s[1..])
  }

  /** `.replace('\\./', ':')`, scanning from the left. */
  function Unescape(s: string): (r: string)
    ensures |r| <= |s|
  {
    if s == [] then []
    else if |s| >= 3 && s[..3] == "\\./" then ":" + Unescape(s[3..])
    else [s[0]] + Unescape(s[1..])
  }

  /** Unescaping undoes escaping on text with no backslash of its own. */
  lemma {:induction false} UnescapeEscape(s: string)
    requires '\\' !in s
    ensures Unescape(Escape(s)) == s
  {
    if s != [] {
      UnescapeEscape(s[1..]);
      var e := Escape(s);
      var head := if s[0] == ':' then "\\./" else [s[0]];
      assert e == head + Escape(s[1..]);
      if s[0] == ':' {
        assert e[..3] == "\\./" && e[3..] == Escape(s[1..]);
      } else {
        assert e[0] == s[0] != '\\';
        assert e[1..] == Escape(s[1..]);
      }
      assert s == [s[0]] + s[1..];
    }
  }

  // ------------------------------------------------------------ dump

  /** Every attribute holds a value `dump` can write. */
  predicate Dumpable(s: SecState) {
    forall f :: Writable(f, GetAttr(s, f))
  }

  /** A state whose attributes all hold values of their own kind can be dumped. */
  lemma PlainDumpable(s: SecState)
    requires s.foreign == map[]
    ensures Dumpable(s)
  {
    forall f ensures Writable(f, GetAttr(s, f)) {
      assert GetAttr(s, f) == Declared(s, f);
    }
  }

  /** The members of the dumped JSON object, one per dumped attribute in order. */
  function TicketObject(c: Crypto, s: SecState): (x: JsonObject)
    requires Dumpable(s)
    ensures |x| == |DumpedFields|
    ensures forall i :: 0 <= i < |x| ==>
              x[i] == (Name(DumpedFields[i]), DumpValue(c, DumpedFields[i], GetAttr(s, DumpedFields[i])))
  {
    seq(|DumpedFields|, i requires 0 <= i < |DumpedFields| =>
      (Name(DumpedFields[i]), DumpValue(c, DumpedFields[i], GetAttr(s, DumpedFields[i]))))
  }

  /**
   * `dump()`: the escaped JSON text of the ticket object. It raises when an
   * attribute holds a value it cannot write, and the escaped text holds no `:`.
   */
  function Dump(c: Crypto, s: SecState): (r: Result<string, SecurityError>)
    ensures r.Ok? <==> Dumpable(s)
    ensures r.Err? ==> r.error == WrongKind
    ensures r.Ok? ==> ':' !in r.value
  {
    if Dumpable(s) then Ok(Escape(c.jsonEncode(TicketObject(c, s)))) else Err(WrongKind)
  }

  /** The text fields whose contents a ticket carries verbatim are JSON-safe. */
  predicate SafeTextFields(s: SecState) {
    SafeText(s.initialSharedKeyB64) && SafeText(s.currentSharedKeyB64) && SafeText(s.pastSharedKeyB64) && SafeText(s.sessionToken)
  }

  /** The names of the shared-key attributes are JSON-safe. */
  lemma SharedKeyNamesSafe()
    ensures SafeText("initial_shared_key") && SafeText("current_shared_key") && SafeText("past_shared_key")
  {
  }

  /** The names of the session-key and raw-key attributes are JSON-safe. */
  lemma SessionKeyNamesSafe()
    ensures SafeText("session_key1") && SafeText("session_key2")
    ensures SafeText("hRC4_rawkey1") && SafeText("hRC4_rawkey2")
  {
  }

  /** The names of the base64 attributes are JSON-safe. */
  lemma Base64NamesSafe()
    ensures SafeText("initial_shared_key_b64") && SafeText("current_shared_key_b64")
    ensures SafeText("past_shared_key_b64")
  {
  }

  /** The names of the token and incarnation attributes are JSON-safe. */
  lemma OtherNamesSafe()
    ensures SafeText("session_token") && SafeText("incarnation")
  {
  }

  lemma NameSafe(f: Field)
    ensures SafeText(Name(f))
  {
    SharedKeyNamesSafe();
    SessionKeyNamesSafe();
    Base64NamesSafe();
    OtherNamesSafe();
  }

  lemma DumpValueSafe(c: Crypto, s: SecState, f: Field)
    requires c.WellFormed() && SafeTextFields(s) && s.foreign == map[]
    ensures Writable(f, GetAttr(s, f))
    ensures var j := DumpValue(c, f, GetAttr(s, f)); !j.JOther? && (j.JStr? ==> SafeText(j.text))
  {
    var v := GetAttr(s, f);
    assert v == Declared(s, f);
    if v.VBytes? {
      var e := c.b64encode(v.bytes);
      var t := "b~!" + e;
      forall k | 0 <= k < |t| ensures ' ' <= t[k] <= '~' && t[k] != '"' && t[k] != '\\' {
        if k >= 3 { assert t[k] == e[k - 3] && IsBase64Char(e[k - 3]); }
      }
    } else if v.VText? {
      var t := "c~!" + v.text;
      forall k | 0 <= k < |t| ensures ' ' <= t[k] <= '~' && t[k] != '"' && t[k] != '\\' {
        if k >= 3 { assert t[k] == v.text[k - 3]; }
      }
    }
  }

  lemma TicketObjectSafe(c: Crypto, s: SecState)
    requires c.WellFormed() && SafeTextFields(s) && s.foreign == map[]
    ensures Dumpable(s)
    ensures UniqueKeys(TicketObject(c, s)) && SafeObject(TicketObject(c, s))
  {
    PlainDumpable(s);
    var x := TicketObject(c, s);
    forall i | 0 <= i < |x|
      ensures SafeText(x[i].0) && (x[i].1.JStr? ==> SafeText(x[i].1.text)) && !x[i].1.JOther?
    {
      NameSafe(DumpedFields[i]);
      DumpValueSafe(c, s, DumpedFields[i]);
    }
    forall i, j | 0 <= i < j < |x| ensures x[i].0 != x[j].0 {
      FieldNamedName(DumpedFields[i]);
      FieldNamedName(DumpedFields[j]);
      IndexAt(i);
      IndexAt(j);
    }
  }

  /** `Index` is the inverse of indexing `DumpedFields`. */
  lemma IndexAt(i: nat)
    requires i < |DumpedFields|
    ensures Index(DumpedFields[i]) == i
  {
    if i == 0 {} else if i == 1 {} else if i == 2 {} else if i == 3 {} else if i == 4 {} else if i == 5 {}
    else if i == 6 {} else if i == 7 {} else if i == 8 {} else if i == 9 {} else if i == 10 {} else {}
  }

  // ------------------------------------------------------------ importdump

  /**
   * The `for key, value in x.items()` loop of `importdump`: members in order;
   * a value that cannot be read stops it, keeping what was set.
   */
  function ApplyMembers(c: Crypto, s: SecState, x: JsonObject): (r: (SecState, Outcome<SecurityError>))
    decreases |x|
  {
    if x == [] then (s, Pass)
    else match ImportValue(c, x[0].1)
      case Err(e) => (s, Fail(e))
      case Ok(v) => ApplyMembers(c, SetAttr(s, x[0].0, v), x[1..])
  }

  /**
   * The loop raises exactly when one of the values cannot be read: no
   * attribute name and no kind of value is refused, since `setattr` stores
   * anything under any name.
   */
  lemma {:induction false} ApplyMembersRaises(c: Crypto, s: SecState, x: JsonObject)
    ensures ApplyMembers(c, s, x).1.Pass? <==> forall i :: 0 <= i < |x| ==> ImportValue(c, x[i].1).Ok?
    decreases |x|
  {
    if x != [] {
      match ImportValue(c, x[0].1)
      case Err(_) =>
      case Ok(v) =>
        ApplyMembersRaises(c, SetAttr(s, x[0].0, v), x[1..]);
        assert forall i :: 1 <= i < |x| ==> x[i] == x[1..][i - 1];
    }
  }

  /**
   * One of the two `if` statements after the loop: a raw key other than
   * `b''` gets a fresh ARC4 context; text or an integer is never equal to
   * `b''`, and `ARC4.new` refuses it.
   */
  function Rebuild(c: Crypto, s: SecState, slot: Slot): (r: (SecState, Outcome<SecurityError>))
    ensures var raw := GetAttr(s, RawKeyOf(slot));
      && (raw == VBytes([]) ==> r == (s, Pass))
      && (!raw.VBytes? ==> r == (s, Fail(WrongKind)))
      && (raw.VBytes? && raw != VBytes([]) ==>
            r == if c.rc4KeyOk(raw.bytes) then (WithCipher(s, slot, raw.bytes), Pass) else (s, Fail(Rc4KeyLength)))
  {
    var raw := GetAttr(s, RawKeyOf(slot));
    if raw == VBytes([]) then (s, Pass)
    else if !raw.VBytes? then (s, Fail(WrongKind))
    else if !c.rc4KeyOk(raw.bytes) then (s, Fail(Rc4KeyLength))
    else (WithCipher(s, slot, raw.bytes), Pass)
  }

  /** The two `if` statements after the loop, first for `hRC4_Key1`, then for `hRC4_Key2`. */
  function RebuildContexts(c: Crypto, s: SecState): (r: (SecState, Outcome<SecurityError>)) {
    var (s1, o) := Rebuild(c, s, Key1);
    if o.Fail? then (s1, o) else Rebuild(c, s1, Key2)
  }

  /** `importdump(dump)`. */
  function ImportDump(c: Crypto, s: SecState, dump: string): (r: (SecState, Outcome<SecurityError>))
    ensures c.jsonDecode(Unescape(dump)).None? ==> r == (s, Fail(BadTicket))
  {
    match c.jsonDecode(Unescape(dump))
    case None => (s, Fail(BadTicket))
    case Some(x) =>
      var (t, o) := ApplyMembers(c, s, x);
      if o.Fail? then (t, o) else RebuildContexts(c, t)
  }

  /** Applying the member at position `i` of a dumped object sets that attribute to the source's value. */
  lemma ApplyTicketMember(c: Crypto, src: SecState, s: SecState, i: nat)
    requires Base64RoundTrips(c) && i < |DumpedFields| && src.foreign == map[]
    ensures Dumpable(src)
    ensures var f := DumpedFields[i];
      ApplyMembers(c, s, TicketObject(c, src)[i..])
        == ApplyMembers(c, SetField(s, f, GetAttr(src, f)), TicketObject(c, src)[i + 1..])
  {
    PlainDumpable(src);
    var x := TicketObject(c, src);
    var f := DumpedFields[i];
    var v := GetAttr(src, f);
    assert v == Declared(src, f);
    ImportDumpValue(c, f, v);
    FieldNamedName(f);
    assert x[i..][0] == (Name(f), DumpValue(c, f, v));
    assert x[i..][1..] == x[i + 1..];
  }

  /**
   * `t` holds the source's attributes from position `i` of `DumpedFields` on,
   * with no value of another kind among them, and the attributes and contexts
   * of `s` otherwise.
   */
  ghost predicate AppliedFrom(src: SecState, s: SecState, t: SecState, i: nat) {
    && (forall f :: GetAttr(t, f) == if Index(f) >= i then GetAttr(src, f) else GetAttr(s, f))
    && (forall f :: f in t.foreign ==> Index(f) < i)
    && (forall f :: Index(f) < i ==> (f in t.foreign <==> f in s.foreign))
    && t.rc4Key1 == s.rc4Key1 && t.rc4Key2 == s.rc4Key2 && t.foreignContexts == s.foreignContexts
  }

  /** Setting the attribute at position `i` to the source's value extends `AppliedFrom` one position down. */
  lemma AppliedFromStep(src: SecState, s: SecState, t: SecState, i: nat)
    requires i < |DumpedFields| && src.foreign == map[]
    requires AppliedFrom(src, SetField(s, DumpedFields[i], GetAttr(src, DumpedFields[i])), t, i + 1)
    ensures AppliedFrom(src, s, t, i)
  {
    var f := DumpedFields[i];
    var v := GetAttr(src, f);
    assert v == Declared(src, f);
    var s1 := SetField(s, f, v);
    SetFieldFrame(s, f, v);
    IndexAt(i);
    forall g ensures GetAttr(t, g) == if Index(g) >= i then GetAttr(src, g) else GetAttr(s, g) {
      if Index(g) == i {
        assert g == f;
      }
    }
    forall g | Index(g) <= i ensures g in t.foreign <==> g in s.foreign && Index(g) < i {
      if Index(g) == i {
        assert g == f && f !in s1.foreign;
      }
    }
  }

  /**
   * Applying the members of a dumped object from position `i` on succeeds,
   * sets the attributes from position `i` on to the source's values, in their
   * typed fields, and leaves the others, and both ARC4 contexts, as they were.
   */
  lemma {:induction false} ApplyTicketMembers(c: Crypto, src: SecState, s: SecState, i: nat)
    requires Base64RoundTrips(c) && i <= |DumpedFields| && src.foreign == map[]
    ensures Dumpable(src)
    ensures ApplyMembers(c, s, TicketObject(c, src)[i..]).1 == Pass
    ensures AppliedFrom(src, s, ApplyMembers(c, s, TicketObject(c, src)[i..]).0, i)
    decreases |DumpedFields| - i
  {
    PlainDumpable(src);
    var x := TicketObject(c, src);
    if i < |DumpedFields| {
      var f := DumpedFields[i];
      var s1 := SetField(s, f, GetAttr(src, f));
      ApplyTicketMember(c, src, s, i);
      ApplyTicketMembers(c, src, s1, i + 1);
      AppliedFromStep(src, s, ApplyMembers(c, s1, x[i + 1..]).0, i);
    } else {
      assert x[i..] == [];
    }
  }

  /**
   * The ticket round trip: importing the dump of a state whose attributes hold
   * values of their own kind and whose text fields are JSON-safe sets every
   * dumped attribute to the state's value and gives each non-empty raw key a
   * fresh ARC4 context at the start of its keystream.
   */
  lemma ImportDumpRoundTrip(c: Crypto, src: SecState, s: SecState)
    requires c.WellFormed() && SafeTextFields(src) && src.foreign == map[]
    requires src.rc4RawKey1 == [] || c.rc4KeyOk(src.rc4RawKey1)
    requires src.rc4RawKey2 == [] || c.rc4KeyOk(src.rc4RawKey2)
    ensures Dump(c, src).Ok?
    ensures ImportDump(c, s, Dump(c, src).value) == (src.(
        rc4Key1 := if src.rc4RawKey1 == [] then s.rc4Key1 else Some(Rc4Context(src.rc4RawKey1, 0)),
        rc4Key2 := if src.rc4RawKey2 == [] then s.rc4Key2 else Some(Rc4Context(src.rc4RawKey2, 0)),
        foreignContexts := s.foreignContexts - (if src.rc4RawKey1 == [] then {} else {Key1})
                                             - (if src.rc4RawKey2 == [] then {} else {Key2})), Pass)
  {
    DumpDecodes(c, src);
    WellFormedBase64(c);
    AppliesTicket(c, src, s);
    RebuildsContexts(c, src.(rc4Key1 := s.rc4Key1, rc4Key2 := s.rc4Key2, foreignContexts := s.foreignContexts));
  }

  /** The ticket of a state with plain attributes and JSON-safe text fields decodes back to the object it was made from. */
  lemma DumpDecodes(c: Crypto, src: SecState)
    requires c.WellFormed() && SafeTextFields(src) && src.foreign == map[]
    ensures Dumpable(src) && Dump(c, src).Ok?
    ensures c.jsonDecode(Unescape(Dump(c, src).value)) == Some(TicketObject(c, src))
  {
    TicketObjectSafe(c, src);
    UnescapeEscape(c.jsonEncode(TicketObject(c, src)));
  }

  /** Applying all of a ticket's members sets every dumped attribute and keeps the two contexts. */
  lemma AppliesTicket(c: Crypto, src: SecState, s: SecState)
    requires Base64RoundTrips(c) && src.foreign == map[]
    ensures Dumpable(src)
    ensures ApplyMembers(c, s, TicketObject(c, src))
              == (src.(rc4Key1 := s.rc4Key1, rc4Key2 := s.rc4Key2, foreignContexts := s.foreignContexts), Pass)
  {
    PlainDumpable(src);
    var x := TicketObject(c, src);
    ApplyTicketMembers(c, src, s, 0);
    assert x[0..] == x;
    var t := ApplyMembers(c, s, x).0;
    assert t.foreign == map[] by {
      forall f ensures f !in t.foreign {}
      assert t.foreign.Keys == {};
    }
    SameAttrs(t, src.(rc4Key1 := t.rc4Key1, rc4Key2 := t.rc4Key2, foreignContexts := t.foreignContexts));
  }

  /** With plain, acceptable raw keys the contexts are rebuilt at the start of their keystreams. */
  lemma RebuildsContexts(c: Crypto, t: SecState)
    requires RawKey1 !in t.foreign && RawKey2 !in t.foreign
    requires t.rc4RawKey1 == [] || c.rc4KeyOk(t.rc4RawKey1)
    requires t.rc4RawKey2 == [] || c.rc4KeyOk(t.rc4RawKey2)
    ensures RebuildContexts(c, t) == (t.(
        rc4Key1 := if t.rc4RawKey1 == [] then t.rc4Key1 else Some(Rc4Context(t.rc4RawKey1, 0)),
        rc4Key2 := if t.rc4RawKey2 == [] then t.rc4Key2 else Some(Rc4Context(t.rc4RawKey2, 0)),
        foreignContexts := t.foreignContexts - (if t.rc4RawKey1 == [] then {} else {Key1})
                                             - (if t.rc4RawKey2 == [] then {} else {Key2})), Pass)
  {
    assert GetAttr(t, RawKey1) == VBytes(t.rc4RawKey1);
    var t1 := if t.rc4RawKey1 == [] then t else WithCipher(t, Key1, t.rc4RawKey1);
    assert Rebuild(c, t, Key1) == (t1, Pass);
    assert GetAttr(t1, RawKey2) == VBytes(t.rc4RawKey2);
    var t2 := if t.rc4RawKey2 == [] then t1 else WithCipher(t1, Key2, t.rc4RawKey2);
    assert Rebuild(c, t1, Key2) == (t2, Pass);
    assert RebuildContexts(c, t) == (t2, Pass);
    var none: set<Slot> := {};
    assert t.foreignContexts - none == t.foreignContexts;
    assert t1.foreignContexts - none == t1.foreignContexts;
  }
}
