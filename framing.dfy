/**
 * The encrypted-mode request framer of `WTVPRequestRouter.handle_request`:
 * bytes are read from the socket one at a time, each is decrypted with the
 * first ARC4 context and appended to a buffer, and reading stops as soon as the
 * buffer ends with one of the tolerated header terminators. A `POST` then gets
 * the number of further bytes its `Content-Length` line names, decrypted in
 * one piece. The socket is the sequence of bytes it will still deliver.
 */
module Framing {
  import opened Wrappers
  import opened Text
  import opened Primitives
  import opened SecurityState
  import opened Headers

  /** `b'POST'`. */
  const PostMethod: seq<byte> := [80, 79, 83, 84]

  /** `b'ength:'`, the tail of `Content-Length:` that the framer searches for. */
  const LengthMark: seq<byte> := [101, 110, 103, 116, 104, 58]

  /**
   * The buffer ends with `\r\n\r\n`, `\r\r`, `\n\n`, `\r\n\r` or `\n\r\n`,
   * read off its last four bytes.
   */
  predicate Terminated(data: seq<byte>) {
    var n := |data|;
    || (n >= 4 && data[n - 4] == CR && data[n - 3] == LF && data[n - 2] == CR && data[n - 1] == LF)
    || (n >= 2 && data[n - 2] == CR && data[n - 1] == CR)
    || (n >= 2 && data[n - 2] == LF && data[n - 1] == LF)
    || (n >= 3 && data[n - 3] == CR && data[n - 2] == LF && data[n - 1] == CR)
    || (n >= 3 && data[n - 3] == LF && data[n - 2] == CR && data[n - 1] == LF)
  }

  /** How the byte loop ended. */
  datatype Frame =
    | Eof                                 // `read(1)` returned nothing
    | DecryptFailed(error: SecurityError) // decrypting a byte raised
    | Framed(data: seq<byte>)             // the buffer became terminated

  /**
   * `DecryptKey1(data)` on the first ARC4 context alone: raise without a
   * context, otherwise run the data through the keystream and advance it.
   */
  function Decrypt1(c: Crypto, ctx: Option<Rc4Context>, data: seq<byte>): (r: (Option<Rc4Context>, Result<seq<byte>, SecurityError>))
    ensures ctx.None? <==> r.1.Err?
    ensures r.1.Err? ==> r == (ctx, Err(NoDecryptionContext))
    ensures r.1.Ok? ==> r.0 == Some(ctx.value.(position := ctx.value.position + |data|))
  {
    match ctx
    case None => (ctx, Err(NoDecryptionContext))
    case Some(k) => (Some(k.(position := k.position + |data|)), Ok(c.rc4(k.rawKey, k.position, data)))
  }

  /** `after` is the context `ctx` with its keystream `n` bytes further on. */
  predicate Advanced(after: Option<Rc4Context>, ctx: Rc4Context, n: int) {
    after.Some? && after.value.rawKey == ctx.rawKey && after.value.position == ctx.position + n
  }

  /** `Decrypt1` is what the security object's `Decrypt(Key1, ..)` does to its first context. */
  lemma Decrypt1IsStreamCrypt(c: Crypto, s: SecState, data: seq<byte>)
    requires Key1 !in s.foreignContexts
    ensures StreamCrypt(c, s, Key1, data, NoDecryptionContext)
         == (s.(rc4Key1 := Decrypt1(c, s.rc4Key1, data).0), Decrypt1(c, s.rc4Key1, data).1)
  {
  }

  /** The same, read off one call's result: the first context moves as `Decrypt1` says and the second stays. */
  lemma DecryptedWithKey1(c: Crypto, s: SecState, t: SecState, r: Result<seq<byte>, SecurityError>, data: seq<byte>)
    requires Key1 !in s.foreignContexts
    requires (t, r) == StreamCrypt(c, s, Key1, data, NoDecryptionContext)
    ensures t.rc4Key1 == Decrypt1(c, s.rc4Key1, data).0 && r == Decrypt1(c, s.rc4Key1, data).1
    ensures t.rc4Key2 == s.rc4Key2
  {
    Decrypt1IsStreamCrypt(c, s, data);
  }

  /**
   * The byte loop from buffer `data` on, with first ARC4 context `ctx` and
   * socket `raw`: the new context, how the loop ended, and the unread bytes.
   */
  function Accumulate(c: Crypto, ctx: Option<Rc4Context>, raw: seq<byte>, data: seq<byte>)
    : (r: (Option<Rc4Context>, Frame, seq<byte>))
    ensures |r.2| <= |raw| && r.2 == raw[|raw| - |r.2|..]
    ensures r.1.Eof? ==> r.2 == []
    decreases |raw|
  {
    if raw == [] then (ctx, Eof, [])
    else
      var (next, d) := Decrypt1(c, ctx, [raw[0]]);
      if d.Err? then (next, DecryptFailed(d.error), raw[1..])
      else
        var grown := data + d.value;
        if Terminated(grown) then (next, Framed(grown), raw[1..])
        else Accumulate(c, next, raw[1..], grown)
  }

  /** ARC4 keeps the length of what it encrypts (one of the laws of `Crypto.WellFormed`). */
  ghost predicate Rc4Length(c: Crypto) {
    forall k, p: nat, d :: |c.rc4(k, p, d)| == |d|
  }

  /**
   * With an ARC4 context the loop never fails to decrypt: the buffer grows by
   * the byte-at-a-time decryption of exactly the bytes read, and the
   * context's keystream position advances by their number.
   */
  lemma {:induction false} AccumulateDecrypts(c: Crypto, ctx: Rc4Context, raw: seq<byte>, data: seq<byte>)
    ensures var (next, f, rest) := Accumulate(c, Some(ctx), raw, data);
            var n := |raw| - |rest|;
            && !f.DecryptFailed?
            && Advanced(next, ctx, n)
            && (f.Framed? ==> f.data == data + Rc4Bytewise(c, ctx.rawKey, ctx.position, raw[..n]))
    decreases |raw|, 1
  {
    if raw != [] {
      var one := c.rc4(ctx.rawKey, ctx.position, [raw[0]]);
      AccumulateStep(c, ctx, raw, data);
      if !Terminated(data + one) {
        AccumulateGoesOn(c, ctx, raw, data);
      } else {
        assert Accumulate(c, Some(ctx), raw, data) == (Some(ctx.(position := ctx.position + 1)), Framed(data + one), raw[1..]);
        BytewiseStep(c, ctx.rawKey, ctx.position, raw, 1);
        assert raw[1..][..0] == [];
      }
    }
  }

  /** `AccumulateDecrypts` for a byte that leaves the buffer unterminated. */
  lemma {:induction false} AccumulateGoesOn(c: Crypto, ctx: Rc4Context, raw: seq<byte>, data: seq<byte>)
    requires raw != [] && !Terminated(data + c.rc4(ctx.rawKey, ctx.position, [raw[0]]))
    requires Accumulate(c, Some(ctx), raw, data)
          == Accumulate(c, Some(ctx.(position := ctx.position + 1)), raw[1..], data + c.rc4(ctx.rawKey, ctx.position, [raw[0]]))
    ensures var (next, f, rest) := Accumulate(c, Some(ctx), raw, data);
            var n := |raw| - |rest|;
            && !f.DecryptFailed?
            && Advanced(next, ctx, n)
            && (f.Framed? ==> f.data == data + Rc4Bytewise(c, ctx.rawKey, ctx.position, raw[..n]))
    decreases |raw|, 0
  {
    var one := c.rc4(ctx.rawKey, ctx.position, [raw[0]]);
    var ctx' := ctx.(position := ctx.position + 1);
    var r := Accumulate(c, Some(ctx'), raw[1..], data + one);
    AccumulateDecrypts(c, ctx', raw[1..], data + one);
    var n := |raw| - |r.2|;
    if r.1.Framed? {
      var tail := Rc4Bytewise(c, ctx.rawKey, ctx.position + 1, raw[1..][..n - 1]);
      assert r.1.data == (data + one) + tail;
      BytewiseStep(c, ctx.rawKey, ctx.position, raw, n);
      Assoc(data, one, tail);
    }
  }

  /** One turn of the byte loop with a context: the byte is decrypted and the loop stops or goes on. */
  lemma AccumulateStep(c: Crypto, ctx: Rc4Context, raw: seq<byte>, data: seq<byte>)
    requires raw != []
    ensures var one := c.rc4(ctx.rawKey, ctx.position, [raw[0]]);
            var ctx' := ctx.(position := ctx.position + 1);
            Accumulate(c, Some(ctx), raw, data)
              == if Terminated(data + one) then (Some(ctx'), Framed(data + one), raw[1..])
                 else Accumulate(c, Some(ctx'), raw[1..], data + one)
  {
  }

  /** Byte-at-a-time decryption of a prefix of `raw`: the first byte, then the rest of the prefix. */
  lemma BytewiseStep(c: Crypto, key: seq<byte>, offset: nat, raw: seq<byte>, n: int)
    requires 1 <= n <= |raw|
    ensures Rc4Bytewise(c, key, offset, raw[..n])
         == c.rc4(key, offset, [raw[0]]) + Rc4Bytewise(c, key, offset + 1, raw[1..][..n - 1])
  {
    assert raw[..n][0] == raw[0] && raw[..n][1..] == raw[1..][..n - 1];
  }

  /**
   * The loop stops at the first terminated buffer: every buffer it held
   * after `data` and before the last one was unterminated. Each step adds one
   * byte, so the buffer grows by the number of bytes read.
   */
  lemma {:induction false} AccumulateStopsFirst(c: Crypto, ctx: Option<Rc4Context>, raw: seq<byte>, data: seq<byte>)
    requires Rc4Length(c)
    ensures StopsFirst(data, raw, Accumulate(c, ctx, raw, data))
    decreases |raw|, 1
  {
    if raw == [] || ctx.None? {
      AccumulateWithout(c, ctx, raw, data);
    } else {
      var one := c.rc4(ctx.value.rawKey, ctx.value.position, [raw[0]]);
      var next := Some(ctx.value.(position := ctx.value.position + 1));
      assert |one| == 1;
      AccumulateStep(c, ctx.value, raw, data);
      if Terminated(data + one) {
        StopsAtOnce(next, raw, data, one);
      } else {
        AccumulateStopsLater(c, next, raw, data, one);
      }
    }
  }

  /** The loop frames nothing from an exhausted socket or without a context. */
  lemma AccumulateWithout(c: Crypto, ctx: Option<Rc4Context>, raw: seq<byte>, data: seq<byte>)
    requires raw == [] || ctx.None?
    ensures !Accumulate(c, ctx, raw, data).1.Framed?
  {
  }

  /** What `AccumulateStopsFirst` states about one run of the loop from buffer `data` over socket `raw`. */
  ghost predicate StopsFirst(data: seq<byte>, raw: seq<byte>, r: (Option<Rc4Context>, Frame, seq<byte>)) {
    var (_, f, rest) := r;
    f.Framed? ==>
      && |f.data| == |data| + (|raw| - |rest|)
      && data <= f.data && Terminated(f.data)
      && forall k :: |data| < k < |f.data| ==> !Terminated(f.data[..k])
  }

  /** The step of `AccumulateStopsFirst` where the first byte terminated the buffer. */
  lemma StopsAtOnce(next: Option<Rc4Context>, raw: seq<byte>, data: seq<byte>, one: seq<byte>)
    requires raw != [] && |one| == 1 && Terminated(data + one)
    ensures StopsFirst(data, raw, (next, Framed(data + one), raw[1..]))
  {
    assert data <= data + one;
  }

  /** The step of `AccumulateStopsFirst` where the first byte left the buffer unterminated. */
  lemma {:induction false} AccumulateStopsLater(c: Crypto, next: Option<Rc4Context>, raw: seq<byte>, data: seq<byte>, one: seq<byte>)
    requires Rc4Length(c) && raw != [] && |one| == 1 && !Terminated(data + one)
    ensures StopsFirst(data, raw, Accumulate(c, next, raw[1..], data + one))
    decreases |raw|, 0
  {
    var grown := data + one;
    AccumulateStopsFirst(c, next, raw[1..], grown);
    var f := Accumulate(c, next, raw[1..], grown).1;
    if f.Framed? {
      assert f.data[..|grown|] == grown;
      assert data <= f.data by {
        assert f.data[..|data|] == grown[..|data|];
      }
      forall k | |data| < k < |f.data| ensures !Terminated(f.data[..k]) {
        if k == |grown| {
          assert f.data[..k] == grown;
        }
      }
    }
  }

  /** `int(data.split(b'ength:')[1].split(b'\n')[0].strip())`; `None` when that raises. */
  function PostLength(data: seq<byte>): Option<int> {
    match SecondField(data, LengthMark)
    case None => None
    case Some(field) => ParseInt(Decode(Before(field, [LF])), AsciiSpace)
  }

  /**
   * `read(n)` on the buffered socket: the bytes read and what stays unread.
   * `-1` reads to the end, any other `n` at most `n` bytes, and a length below
   * `-1` raises `ValueError` (none).
   */
  function ReadAtMost(raw: seq<byte>, n: int): (r: Option<(seq<byte>, seq<byte>)>)
    ensures r.None? <==> n < -1
    ensures r.Some? ==> r.value.0 + r.value.1 == raw
    ensures 0 <= n <= |raw| ==> |r.value.0| == n
    ensures n == -1 || n >= |raw| ==> r == Some((raw, []))
  {
    if n < -1 then None
    else if n == -1 || n >= |raw| then Some((raw, []))
    else Some((raw[..n], raw[n..]))
  }

  /** How framing one encrypted request ended. */
  datatype Received =
    | Closed                             // the socket ended before the buffer was terminated
    | DecryptError(error: SecurityError) // a header byte could not be decrypted; answered with a 500
    | BadLength                          // a `POST` without a readable length, or one below -1: `IndexError` or `ValueError`
    | BodyError(error: SecurityError)    // the body could not be decrypted: the exception propagates
    | Request(data: seq<byte>)           // the decrypted request

  /** The framer: the byte loop, then what follows it. */
  function FrameRequest(c: Crypto, ctx: Option<Rc4Context>, raw: seq<byte>): (Option<Rc4Context>, Received, seq<byte>) {
    var (next, f, rest) := Accumulate(c, ctx, raw, []);
    Complete(c, next, f, rest)
  }

  /**
   * After the byte loop: a request that is not a `POST` is the buffer; a
   * `POST` without a readable length raises; otherwise its body is read.
   */
  function Complete(c: Crypto, next: Option<Rc4Context>, f: Frame, rest: seq<byte>): (Option<Rc4Context>, Received, seq<byte>) {
    match f
    case Eof => (next, Closed, rest)
    case DecryptFailed(e) => (next, DecryptError(e), rest)
    case Framed(head) =>
      if !StartsWith(head, PostMethod) then (next, Request(head), rest)
      else match PostLength(head)
        case None => (next, BadLength, rest)
        case Some(n) => ReadBody(c, next, head, n, rest)
  }

  /**
   * `data += DecryptKey1(read(n))`: the body of announced length `n` read
   * after the header `head` and decrypted in one piece with the context
   * `next` the byte loop left; a length below -1 makes `read` raise.
   */
  function ReadBody(c: Crypto, next: Option<Rc4Context>, head: seq<byte>, n: int, rest: seq<byte>): (Option<Rc4Context>, Received, seq<byte>) {
    match ReadAtMost(rest, n)
    case None => (next, BadLength, rest)
    case Some((body, after)) =>
      var (last, b) := Decrypt1(c, next, body);
      if b.Err? then (last, BodyError(b.error), after) else (last, Request(head + b.value), after)
  }

  /** The part of a request the byte loop read: the shortest terminated decrypted prefix. */
  function Head(c: Crypto, ctx: Option<Rc4Context>, raw: seq<byte>): Frame {
    Accumulate(c, ctx, raw, []).1
  }

  /**
   * With a context the body cannot fail to decrypt: for a length of -1 or
   * more the request is the header followed by the decryption of the bytes
   * read after it, and the keystream advances over them; a length below -1
   * raises before anything is read.
   */
  lemma ReadBodyKeyed(c: Crypto, k: Rc4Context, head: seq<byte>, n: int, rest: seq<byte>)
    ensures n < -1 ==> ReadBody(c, Some(k), head, n, rest) == (Some(k), BadLength, rest)
    ensures -1 <= n ==>
            var (last, r, after) := ReadBody(c, Some(k), head, n, rest);
            var j := |rest| - |after|;
            && r.Request? && 0 <= j && after == rest[j..]
            && r.data == head + c.rc4(k.rawKey, k.position, rest[..j])
            && Advanced(last, k, j)
  {
    if -1 <= n {
      var (body, after) := ReadAtMost(rest, n).value;
      assert rest[..|body|] == body && rest[|body|..] == after;
    }
  }

  /** With a context, nothing after the byte loop fails to decrypt. */
  lemma CompleteKeyed(c: Crypto, k: Rc4Context, f: Frame, rest: seq<byte>)
    requires Rc4Length(c)
    requires !f.DecryptFailed?
    ensures var t := Complete(c, Some(k), f, rest);
            var j := |rest| - |t.2|;
            && !t.1.DecryptError? && !t.1.BodyError?
            && 0 <= j && t.2 == rest[j..]
            && (t.1.Request? ==> f.Framed? && t.1.data == f.data + c.rc4(k.rawKey, k.position, rest[..j])
                                 && Advanced(t.0, k, j))
  {
    if f.Framed? && StartsWith(f.data, PostMethod) && PostLength(f.data).Some? {
      assert Complete(c, Some(k), f, rest) == ReadBody(c, Some(k), f.data, PostLength(f.data).value, rest);
      ReadBodyKeyed(c, k, f.data, PostLength(f.data).value, rest);
      if PostLength(f.data).value < -1 {
        assert rest[0..] == rest;
      }
    } else if f.Framed? {
      assert rest[..0] == [];
      assert |c.rc4(k.rawKey, k.position, [])| == 0;
    }
  }

  /**
   * `t` frames `raw` without a decryption error, leaving a suffix of it
   * unread; a request is the first `m` bytes decrypted one at a time followed
   * by the rest of what was read decrypted in one piece, and the keystream
   * has advanced over everything read.
   */
  ghost predicate InTwoParts(c: Crypto, ctx: Rc4Context, raw: seq<byte>, m: int, t: (Option<Rc4Context>, Received, seq<byte>)) {
    var n := |raw| - |t.2|;
    && !t.1.DecryptError? && !t.1.BodyError?
    && 0 <= m <= n <= |raw| && t.2 == raw[n..]
    && (t.1.Request? ==> t.1.data == Rc4Bytewise(c, ctx.rawKey, ctx.position, raw[..m]) + c.rc4(ctx.rawKey, ctx.position + m, raw[m..n])
                         && Advanced(t.0, ctx, n))
  }

  /**
   * The decrypted request in two parts: the header the byte loop decrypted
   * one byte at a time, then the body decrypted in one piece from where the
   * keystream stood; no decryption error can occur once a context exists.
   */
  lemma FrameRequestParts(c: Crypto, ctx: Rc4Context, raw: seq<byte>)
    requires Rc4Length(c)
    ensures InTwoParts(c, ctx, raw, |raw| - |Accumulate(c, Some(ctx), raw, []).2|, FrameRequest(c, Some(ctx), raw))
  {
    var a := Accumulate(c, Some(ctx), raw, []);
    AccumulateDecrypts(c, ctx, raw, []);
    var t := Complete(c, a.0, a.1, a.2);
    assert FrameRequest(c, Some(ctx), raw) == t;
    CompleteKeyed(c, a.0.value, a.1, a.2);
    JoinParts(c, ctx, raw, a, t);
  }

  /** `FrameRequestParts` from the facts about the byte loop `a` and what follows it `t`. */
  lemma JoinParts(c: Crypto, ctx: Rc4Context, raw: seq<byte>,
                  a: (Option<Rc4Context>, Frame, seq<byte>), t: (Option<Rc4Context>, Received, seq<byte>))
    requires |a.2| <= |raw| && a.2 == raw[|raw| - |a.2|..]
    requires Advanced(a.0, ctx, |raw| - |a.2|)
    requires a.1.Framed? ==> a.1.data == Rc4Bytewise(c, ctx.rawKey, ctx.position, raw[..|raw| - |a.2|])
    requires var j := |a.2| - |t.2|;
             && !t.1.DecryptError? && !t.1.BodyError?
             && 0 <= j && t.2 == a.2[j..]
             && (t.1.Request? ==> a.1.Framed? && t.1.data == a.1.data + c.rc4(a.0.value.rawKey, a.0.value.position, a.2[..j])
                                  && Advanced(t.0, a.0.value, j))
    ensures InTwoParts(c, ctx, raw, |raw| - |a.2|, t)
  {
    var m := |raw| - |a.2|;
    var j := |a.2| - |t.2|;
    assert a.2[..j] == raw[m..m + j];
    assert t.2 == raw[m + j..];
  }

  lemma Rc4Congruent(c: Crypto, k1: seq<byte>, p1: nat, d1: seq<byte>, k2: seq<byte>, p2: nat, d2: seq<byte>)
    requires k1 == k2 && p1 == p2 && d1 == d2
    ensures c.rc4(k1, p1, d1) == c.rc4(k2, p2, d2)
  {
  }

  /**
   * Once a session is keyed, a framed request is the decryption of exactly the
   * bytes the framer read, header and body alike, and the keystream advances
   * over them; a decryption error cannot occur.
   */
  lemma FrameRequestDecrypts(c: Crypto, ctx: Rc4Context, raw: seq<byte>)
    requires c.WellFormed()
    ensures Decrypted(c, ctx, raw, FrameRequest(c, Some(ctx), raw))
  {
    WellFormedStreams(c);
    FrameRequestParts(c, ctx, raw);
    JoinStream(c, ctx, raw, |raw| - |Accumulate(c, Some(ctx), raw, []).2|, FrameRequest(c, Some(ctx), raw));
  }

  /**
   * `t` frames `raw` without a decryption error, leaving a suffix of it
   * unread; a request is everything read, decrypted with the keystream from
   * `ctx` on, and the keystream has advanced over it.
   */
  ghost predicate Decrypted(c: Crypto, ctx: Rc4Context, raw: seq<byte>, t: (Option<Rc4Context>, Received, seq<byte>)) {
    var n := |raw| - |t.2|;
    && !t.1.DecryptError? && !t.1.BodyError?
    && 0 <= n <= |raw| && t.2 == raw[n..]
    && (t.1.Request? ==> t.1.data == c.rc4(ctx.rawKey, ctx.position, raw[..n]) && Advanced(t.0, ctx, n))
  }

  /** A request in two parts is the stream decryption of the whole. */
  lemma JoinStream(c: Crypto, ctx: Rc4Context, raw: seq<byte>, m: int, t: (Option<Rc4Context>, Received, seq<byte>))
    requires Rc4Streams(c)
    requires InTwoParts(c, ctx, raw, m, t)
    ensures Decrypted(c, ctx, raw, t)
  {
    var n := |raw| - |t.2|;
    Rc4BytewiseIsStream(c, ctx.rawKey, ctx.position, raw[..m]);
    Rc4Concat(c, ctx.rawKey, ctx.position, raw[..m], raw[m..n]);
    assert raw[..m] + raw[m..n] == raw[..n];
  }

  lemma Rc4Concat(c: Crypto, key: seq<byte>, offset: nat, a: seq<byte>, b: seq<byte>)
    requires Rc4Streams(c)
    ensures c.rc4(key, offset, a) + c.rc4(key, offset + |a|, b) == c.rc4(key, offset, a + b)
  {
  }

  /**
   * A framed `POST` whose length field reads `n`, with at least `n` bytes left
   * on the socket after the header, carries exactly `n` body bytes after the
   * shortest terminated header.
   */
  lemma PostBodyLength(c: Crypto, ctx: Option<Rc4Context>, raw: seq<byte>)
    requires Rc4Length(c)
    requires Head(c, ctx, raw).Framed? && StartsWith(Head(c, ctx, raw).data, PostMethod)
    requires PostLength(Head(c, ctx, raw).data).Some?
    requires var n := PostLength(Head(c, ctx, raw).data).value;
             0 <= n <= |Accumulate(c, ctx, raw, []).2|
    ensures FrameRequest(c, ctx, raw).1.Request? ==>
              var head := Head(c, ctx, raw).data;
              head <= FrameRequest(c, ctx, raw).1.data
              && |FrameRequest(c, ctx, raw).1.data| == |head| + PostLength(head).value
  {
    var (next, f, rest) := Accumulate(c, ctx, raw, []);
    var head := f.data;
    var n := PostLength(head).value;
    var (body, after) := ReadAtMost(rest, n).value;
    var (last, b) := Decrypt1(c, next, body);
    assert FrameRequest(c, ctx, raw) == if b.Err? then (last, BodyError(b.error), after) else (last, Request(head + b.value), after);
    if b.Ok? {
      var k := next.value;
      assert b.value == c.rc4(k.rawKey, k.position, body);
      assert |c.rc4(k.rawKey, k.position, body)| == |body|;
      assert |body| == n;
      assert (head + b.value)[..|head|] == head;
    }
  }

  /**
   * A framed `POST` whose length field reads below -1 raises at `read`, as
   * one without a readable length does, and leaves the rest of the socket
   * unread; a length of -1 reads the socket to its end.
   */
  lemma PostNegativeLength(c: Crypto, ctx: Option<Rc4Context>, raw: seq<byte>)
    requires Head(c, ctx, raw).Framed? && StartsWith(Head(c, ctx, raw).data, PostMethod)
    requires PostLength(Head(c, ctx, raw).data).Some?
    ensures PostLength(Head(c, ctx, raw).data).value < -1 ==>
              FrameRequest(c, ctx, raw).1 == BadLength && FrameRequest(c, ctx, raw).2 == Accumulate(c, ctx, raw, []).2
    ensures PostLength(Head(c, ctx, raw).data).value == -1 ==> FrameRequest(c, ctx, raw).2 == []
  {
    var (next, f, rest) := Accumulate(c, ctx, raw, []);
    assert FrameRequest(c, ctx, raw) == ReadBody(c, next, f.data, PostLength(f.data).value, rest);
  }

  /** Without a first ARC4 context the very first byte read fails to decrypt. */
  lemma FrameRequestWithoutKeys(c: Crypto, raw: seq<byte>)
    requires raw != []
    ensures FrameRequest(c, None, raw) == (None, DecryptError(NoDecryptionContext), raw[1..])
  {
  }
}
