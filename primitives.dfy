/**
 * The cryptographic and encoding primitives the security context calls into:
 * MD5, single-DES in ECB mode, the ARC4 stream cipher, base64 and JSON. They
 * are not modelled; a `Crypto` value carries them as total functions, and
 * `WellFormed` lists the laws of theirs that the protocol depends on (digest
 * and block lengths, the round trips, and that ARC4 is a stream cipher that
 * XORs the data with its keystream).
 */
module Primitives {
  import opened Wrappers
  import opened Text

  /** A JSON value as `json.loads` yields it: a string, an integer, or anything else. */
  datatype Json = JStr(text: string) | JInt(number: int) | JOther

  /** A JSON object, with its members in document order. */
  type JsonObject = seq<(string, Json)>

  predicate UniqueKeys(x: JsonObject) {
    forall i, j :: 0 <= i < j < |x| ==> x[i].0 != x[j].0
  }

  /** Printable ASCII other than the two characters JSON escapes there (quote and backslash). */
  predicate SafeText(s: string) {
    forall k :: 0 <= k < |s| ==> ' ' <= s[k] <= '~' && s[k] != '"' && s[k] != '\\'
  }

  predicate SafeObject(x: JsonObject) {
    forall i :: 0 <= i < |x| ==> SafeText(x[i].0) && (x[i].1.JStr? ==> SafeText(x[i].1.text)) && !x[i].1.JOther?
  }

  predicate IsBase64Char(c: char) {
    'A' <= c <= 'Z' || 'a' <= c <= 'z' || '0' <= c <= '9' || c == '+' || c == '/' || c == '='
  }

  predicate IsBase64Text(s: string) {
    forall k :: 0 <= k < |s| ==> IsBase64Char(s[k])
  }

  datatype Crypto = Crypto(
    md5: seq<byte> -> seq<byte>,                        // MD5.new(); update(d); digest()
    desEncrypt: (seq<byte>, seq<byte>) -> seq<byte>,    // DES.new(key, MODE_ECB).encrypt(data)
    desDecrypt: (seq<byte>, seq<byte>) -> seq<byte>,    // DES.new(key, MODE_ECB).decrypt(data)
    rc4: (seq<byte>, nat, seq<byte>) -> seq<byte>,      // ARC4 keyed with `key`, `offset` bytes of keystream used, applied to data
    keystream: (seq<byte>, nat, nat) -> seq<byte>,      // the `n` keystream bytes of ARC4 keyed with `key` from `offset` on
    rc4KeyOk: seq<byte> -> bool,                        // ARC4.new(key) accepts the key length
    b64encode: seq<byte> -> string,                     // base64.b64encode(d).decode()
    b64decode: string -> Option<seq<byte>>,             // base64.b64decode(s); None when it raises
    jsonEncode: JsonObject -> string,                   // json.dumps
    jsonDecode: string -> Option<JsonObject>)           // json.loads; None when it raises
  {
    /** The laws `SecureOn` needs: MD5 gives 16 bytes, and `ARC4.new` accepts a 16-byte key. */
    ghost predicate KeysAccepted() {
      && (forall d :: |md5(d)| == 16)
      && (forall k :: |k| == 16 ==> rc4KeyOk(k))
    }

    ghost predicate WellFormed() {
      && KeysAccepted()
      && (forall k, d :: |k| == 8 && |d| % 8 == 0 ==> |desEncrypt(k, d)| == |d|)
      && (forall k, d :: |k| == 8 && |d| % 8 == 0 ==> |desDecrypt(k, d)| == |d|)
      && (forall k, d :: |k| == 8 && |d| % 8 == 0 ==> desDecrypt(k, desEncrypt(k, d)) == d)
      && (forall k, p: nat, d :: |rc4(k, p, d)| == |d|)
      && (forall k, p: nat, n: nat :: |keystream(k, p, n)| == n)
      && (forall k, p: nat, d :: rc4(k, p, d) == Xor(d, keystream(k, p, |d|)))
      && (forall k, p: nat, a, b :: rc4(k, p, a + b) == rc4(k, p, a) + rc4(k, p + |a|, b))
      && (forall d :: b64decode(b64encode(d)) == Some(d))
      && (forall d :: IsBase64Text(b64encode(d)))
      && (forall d :: |b64encode(d)| == 4 * ((|d| + 2) / 3))
      && (forall x :: UniqueKeys(x) ==> jsonDecode(jsonEncode(x)) == Some(x))
      && (forall x :: SafeObject(x) ==> '\\' !in jsonEncode(x))
    }
  }

  /** `2^k`. */
  function Pow2(k: nat): (r: nat)
    ensures r > 0
  {
    if k == 0 then 1 else 2 * Pow2(k - 1)
  }

  /** The low `k` bits of `a` XORed with those of `b`, bit by bit from the lowest. */
  function XorBits(a: nat, b: nat, k: nat): (r: nat)
    ensures r < Pow2(k)
  {
    if k == 0 then 0 else (a % 2 + b % 2) % 2 + 2 * XorBits(a / 2, b / 2, k - 1)
  }

  /** One byte XORed with another. */
  function XorByte(a: byte, b: byte): byte {
    assert Pow2(8) == 256;
    XorBits(a as nat, b as nat, 8) as byte
  }

  /** Bytewise XOR of `a` with the matching bytes of `b`, as long as `a`. */
  function Xor(a: seq<byte>, b: seq<byte>): (r: seq<byte>)
    ensures |r| == |a|
  {
    seq(|a|, i requires 0 <= i < |a| => if i < |b| then XorByte(a[i], b[i]) else a[i])
  }

  /** XORing the low `k` bits twice with the same bits gives a number below `2^k` back. */
  lemma {:induction false} XorBitsTwice(a: nat, b: nat, k: nat)
    requires a < Pow2(k)
    ensures XorBits(XorBits(a, b, k), b, k) == a
  {
    if k > 0 {
      var bit := (a % 2 + b % 2) % 2;
      var y := XorBits(a / 2, b / 2, k - 1);
      var x := bit + 2 * y;
      assert x == XorBits(a, b, k);
      HalfOf(bit, y);
      assert a / 2 < Pow2(k - 1);
      XorBitsTwice(a / 2, b / 2, k - 1);
      assert XorBits(x, b, k) == (bit + b % 2) % 2 + 2 * XorBits(y, b / 2, k - 1);
      assert (bit + b % 2) % 2 == a % 2;
    }
  }

  /** A bit below twice `y`: the bit is the remainder and `y` the quotient. */
  lemma HalfOf(bit: nat, y: nat)
    requires bit < 2
    ensures (bit + 2 * y) % 2 == bit && (bit + 2 * y) / 2 == y
  {
  }

  /** XORing twice with the same byte gives the byte back. */
  lemma XorByteTwice(a: byte, b: byte)
    ensures XorByte(XorByte(a, b), b) == a
  {
    assert Pow2(8) == 256;
    XorBitsTwice(a as nat, b as nat, 8);
  }

  /** XORing twice with the same keystream gives the data back. */
  lemma XorTwice(d: seq<byte>, ks: seq<byte>)
    requires |ks| == |d|
    ensures Xor(Xor(d, ks), ks) == d
  {
    forall i | 0 <= i < |d| ensures Xor(Xor(d, ks), ks)[i] == d[i] {
      XorByteTwice(d[i], ks[i]);
    }
  }

  /**
   * ARC4 is its own inverse: applying the keystream from one position to the
   * encryption from that position gives the data back.
   */
  lemma Rc4Involution(c: Crypto, k: seq<byte>, p: nat, d: seq<byte>)
    requires c.WellFormed()
    ensures c.rc4(k, p, c.rc4(k, p, d)) == d
  {
    var ks := c.keystream(k, p, |d|);
    assert c.rc4(k, p, d) == Xor(d, ks);
    assert c.rc4(k, p, Xor(d, ks)) == Xor(Xor(d, ks), ks);
    XorTwice(d, ks);
  }

  /** `n` zero bytes (`b'\x00' * n`). */
  function Zeros(n: nat): (z: seq<byte>)
    ensures |z| == n && forall k :: 0 <= k < n ==> z[k] == 0
  {
    seq(n, k => 0)
  }

  /** Python slicing `s[i:j]` for `0 <= i <= j`: bounds past the end are clamped. */
  function Slice<T>(s: seq<T>, i: nat, j: nat): (r: seq<T>)
    requires i <= j
    ensures j <= |s| ==> r == s[i..j]
    ensures |r| == if j <= |s| then j - i else if i <= |s| then |s| - i else 0
  {
    if j <= |s| then s[i..j] else if i <= |s| then s[i..] else []
  }

  /** ARC4 applied one byte at a time, advancing the keystream after each byte. */
  function Rc4Bytewise(c: Crypto, key: seq<byte>, offset: nat, data: seq<byte>): seq<byte>
    decreases |data|
  {
    if data == [] then [] else c.rc4(key, offset, [data[0]]) + Rc4Bytewise(c, key, offset + 1, data[1..])
  }

  /** The law of `Crypto.WellFormed` that base64 decoding undoes encoding. */
  ghost predicate Base64RoundTrips(c: Crypto) {
    forall d :: c.b64decode(c.b64encode(d)) == Some(d)
  }

  lemma WellFormedBase64(c: Crypto)
    requires c.WellFormed()
    ensures Base64RoundTrips(c)
  {
  }

  /** The two laws of `Crypto.WellFormed` that make ARC4 a stream cipher: it keeps lengths and runs on across a concatenation. */
  ghost predicate Rc4Streams(c: Crypto) {
    && (forall k, p: nat, d :: |c.rc4(k, p, d)| == |d|)
    && (forall k, p: nat, a, b :: c.rc4(k, p, a + b) == c.rc4(k, p, a) + c.rc4(k, p + |a|, b))
  }

  lemma WellFormedStreams(c: Crypto)
    requires c.WellFormed()
    ensures Rc4Streams(c)
  {
  }

  /** Byte-at-a-time ARC4 agrees with ARC4 over the whole buffer (ARC4 is a stream cipher). */
  lemma {:induction false} Rc4BytewiseIsStream(c: Crypto, key: seq<byte>, offset: nat, data: seq<byte>)
    requires Rc4Streams(c)
    ensures Rc4Bytewise(c, key, offset, data) == c.rc4(key, offset, data)
    decreases |data|
  {
    if data == [] {
      assert |c.rc4(key, offset, data)| == 0;
    } else {
      Rc4BytewiseIsStream(c, key, offset + 1, data[1..]);
      assert data == [data[0]] + data[1..];
      assert c.rc4(key, offset, [data[0]] + data[1..])
          == c.rc4(key, offset, [data[0]]) + c.rc4(key, offset + 1, data[1..]);
    }
  }

  /** Byte-at-a-time ARC4 over a concatenation is the two runs one after the other. */
  lemma {:induction false} Rc4BytewiseAppend(c: Crypto, key: seq<byte>, offset: nat, a: seq<byte>, b: seq<byte>)
    ensures Rc4Bytewise(c, key, offset, a + b) == Rc4Bytewise(c, key, offset, a) + Rc4Bytewise(c, key, offset + |a|, b)
    decreases |a|
  {
    if a == [] {
      assert a + b == b;
    } else {
      assert (a + b)[0] == a[0];
      assert (a + b)[1..] == a[1..] + b;
      Rc4BytewiseAppend(c, key, offset + 1, a[1..], b);
    }
  }
}
