/**
 * `WTVPResponse`: a response a service handler returns, and
 * `generate_response`, which serialises it as a status line, a fixed
 * keep-alive header, the handler's headers in order, the body's length and
 * type, a blank line and the body.
 */
module Response {
  import opened Wrappers
  import opened Text
  import opened Headers

  /** The `KeyError` the status lookup raises for a code outside the table. */
  datatype ResponseError = UnknownStatus(code: int)

  /** `lookuptable`: the status lines of the three codes a response may carry. */
  function StatusText(code: int): (r: Option<string>)
    ensures r.Some? <==> code == 200 || code == 302 || code == 500
  {
    if code == 200 then Some("200 OK")
    else if code == 302 then Some("302 Found")
    else if code == 500 then Some("500 " + "MSN TV ran into a technical problem. Please try again.")
    else None
  }

  lemma StatusCodeDigits()
    ensures IntToString(200) == "200" && IntToString(302) == "302" && IntToString(500) == "500"
  {
    assert NatToString(2) == "2" && NatToString(3) == "3" && NatToString(5) == "5";
    assert NatToString(20) == "20" && NatToString(30) == "30" && NatToString(50) == "50";
  }

  /** Each status line begins with its own code and a space. */
  lemma StatusLineLeadsWithCode(code: int)
    requires StatusText(code).Some?
    ensures StartsWith(StatusText(code).value, IntToString(code) + " ")
  {
    StatusCodeDigits();
    var prefix := IntToString(code) + " ";
    if code == 200 {
      assert prefix == "200 " && StatusText(code).value[..4] == "200 ";
    } else if code == 302 {
      assert prefix == "302 " && StatusText(code).value[..4] == "302 ";
    } else {
      assert prefix == "500 ";
    }
  }

  /** A text before the first occurrence of a pattern holds no occurrence of it. */
  lemma BeforeHasNoOccurrence<T>(s: seq<T>, pat: seq<T>, j: nat)
    requires pat != [] && j <= |Before(s, pat)|
    ensures !OccursAt(Before(s, pat), pat, j)
  {
    var r := Before(s, pat);
    match IndexOf(s, pat)
    case None =>
    case Some(i) =>
      if OccursAt(r, pat, j) {
        assert s[j..j + |pat|] == r[j..j + |pat|];
        assert j + |pat| <= i;
        assert OccursAt(s, pat, j);
      }
  }

  /**
   * The name a header key is written under: a key holding the marker `^n`
   * (used to give several `wtv-service` headers distinct dictionary keys) is
   * cut at its first marker. The name is a prefix of the key, holds no
   * marker, and is the whole key when the key holds none.
   */
  function HeaderKey(key: string): (r: string)
    ensures r <= key
    ensures forall j :: 0 <= j <= |r| ==> !OccursAt(r, "^n", j)
    ensures (forall j :: 0 <= j <= |key| ==> !OccursAt(key, "^n", j)) ==> r == key
    ensures IndexOf(key, "^n").Some? ==> OccursAt(key, "^n", |r|)
  {
    forall j | 0 <= j <= |Before(key, "^n")| ensures !OccursAt(Before(key, "^n"), "^n", j) {
      BeforeHasNoOccurrence(key, "^n", j);
    }
    if IndexOf(key, "^n").Some? then Before(key, "^n") else key
  }

  /** The handler's headers as written: each key cut at its marker, the values unchanged, the order kept. */
  function Emitted(headers: seq<(string, string)>): (r: seq<(string, string)>)
    ensures |r| == |headers|
    ensures forall i :: 0 <= i < |headers| ==> r[i] == (HeaderKey(headers[i].0), headers[i].1)
  {
    seq(|headers|, i requires 0 <= i < |headers| => (HeaderKey(headers[i].0), headers[i].1))
  }

  /** Every header line of a response in order: keep-alive, the handler's headers, then length and type. */
  function AllHeaders(headers: seq<(string, string)>, length: int, contentType: string): seq<(string, string)> {
    [("Connection", "Keep-Alive")] + Emitted(headers) + [("Content-Length", IntToString(length)), ("Content-Type", contentType)]
  }

  /** The bytes of a response with status line `status`, header lines `pairs` and body `data`. */
  function Wire(status: string, pairs: seq<(string, string)>, data: seq<byte>): seq<byte> {
    Encode(status + "\r\n" + HeaderText(pairs)) + data
  }

  /** The serialised response, or the error for a code outside the status table. */
  function Serialize(code: int, headers: seq<(string, string)>, length: int, contentType: string, data: seq<byte>)
    : Result<seq<byte>, ResponseError>
  {
    match StatusText(code)
    case None => Err(UnknownStatus(code))
    case Some(status) => Ok(Wire(status, AllHeaders(headers, length, contentType), data))
  }

  /** Serialising fails exactly for a code outside the status table. */
  lemma SerializeFailsOnUnknownStatus(code: int, headers: seq<(string, string)>, length: int, contentType: string, data: seq<byte>)
    ensures Serialize(code, headers, length, contentType, data).Err? <==> !(code == 200 || code == 302 || code == 500)
    ensures Serialize(code, headers, length, contentType, data).Err? ==>
              Serialize(code, headers, length, contentType, data).error == UnknownStatus(code)
  {
  }

  // ---------------------------------------------------------------- header lines

  /** The header lines of `pairs`, without the blank line that ends a block. */
  function HeaderLines(pairs: seq<(string, string)>): string
    decreases |pairs|
  {
    if pairs == [] then "" else HeaderLine(pairs[0].0, pairs[0].1) + HeaderLines(pairs[1..])
  }

  lemma {:induction false} HeaderLinesSnoc(pairs: seq<(string, string)>, p: (string, string))
    ensures HeaderLines(pairs + [p]) == HeaderLines(pairs) + HeaderLine(p.0, p.1)
    decreases |pairs|
  {
    if pairs == [] {
      assert (pairs + [p])[1..] == [];
    } else {
      assert (pairs + [p])[1..] == pairs[1..] + [p];
      HeaderLinesSnoc(pairs[1..], p);
      Assoc(HeaderLine(pairs[0].0, pairs[0].1), HeaderLines(pairs[1..]), HeaderLine(p.0, p.1));
    }
  }

  /** A header block is the lines of its first part followed by the block of the rest. */
  lemma {:induction false} HeaderTextAppend(a: seq<(string, string)>, b: seq<(string, string)>)
    ensures HeaderText(a + b) == HeaderLines(a) + HeaderText(b)
    decreases |a|
  {
    if a == [] {
      assert a + b == b;
    } else {
      assert (a + b)[0] == a[0] && (a + b)[1..] == a[1..] + b;
      HeaderTextAppend(a[1..], b);
      Assoc(HeaderLine(a[0].0, a[0].1), HeaderLines(a[1..]), HeaderText(b));
    }
  }

  /** The header block of a response, line by line, as `generate_response` appends it. */
  lemma AllHeadersText(headers: seq<(string, string)>, length: int, contentType: string)
    ensures HeaderText(AllHeaders(headers, length, contentType))
         == "Connection: Keep-Alive\r\n" + HeaderLines(Emitted(headers))
            + ("Content-Length: " + IntToString(length) + "\r\n") + ("Content-Type: " + contentType + "\r\n") + "\r\n"
  {
    var e := Emitted(headers);
    var first := [("Connection", "Keep-Alive")];
    var last := [("Content-Type", contentType)];
    var tail := [("Content-Length", IntToString(length))] + last;
    var conn := HeaderLine("Connection", "Keep-Alive");
    var cl := HeaderLine("Content-Length", IntToString(length));
    var ct := HeaderLine("Content-Type", contentType);
    assert HeaderText(last) == ct + "\r\n" by {
      assert last[1..] == [];
    }
    assert HeaderText(tail) == cl + HeaderText(last) by {
      assert tail[1..] == last;
    }
    assert HeaderLines(first + e) == conn + HeaderLines(e) by {
      assert (first + e)[1..] == e;
    }
    assert AllHeaders(headers, length, contentType) == (first + e) + tail;
    HeaderTextAppend(first + e, tail);
    assert conn == "Connection: Keep-Alive\r\n";
    assert cl == "Content-Length: " + IntToString(length) + "\r\n" by {
      assert "Content-Length" + ": " == "Content-Length: ";
    }
    assert ct == "Content-Type: " + contentType + "\r\n" by {
      assert "Content-Type" + ": " == "Content-Type: ";
    }
    FiveParts(conn, HeaderLines(e), cl, ct, "\r\n");
  }

  lemma SixParts<T>(a: seq<T>, b: seq<T>, c: seq<T>, d: seq<T>, e: seq<T>, f: seq<T>)
    ensures a + (b + c + d + e + f) == a + b + c + d + e + f
  {
  }

  lemma FlattenFive<T>(a: seq<T>, b: seq<T>, c: seq<T>, d: seq<T>, e: seq<T>)
    ensures a + (b + c + d + e) == a + b + c + d + e
  {
  }

  lemma FiveParts<T>(a: seq<T>, b: seq<T>, c: seq<T>, d: seq<T>, e: seq<T>)
    ensures (a + b) + (c + (d + e)) == a + b + c + d + e
  {
  }

  /** One more handler header adds its line to the header lines. */
  lemma EmittedStep(headers: seq<(string, string)>, i: nat)
    requires i < |headers|
    ensures HeaderLines(Emitted(headers[..i + 1]))
         == HeaderLines(Emitted(headers[..i])) + (HeaderKey(headers[i].0) + ": " + headers[i].1 + "\r\n")
  {
    var p := (HeaderKey(headers[i].0), headers[i].1);
    assert Emitted(headers[..i + 1]) == Emitted(headers[..i]) + [p];
    HeaderLinesSnoc(Emitted(headers[..i]), p);
  }

  /** The text `generate_response` builds is the status line followed by the header block. */
  lemma ResponseTextLayout(first: string, headers: seq<(string, string)>, length: int, contentType: string)
    ensures first + "Connection: Keep-Alive\r\n" + HeaderLines(Emitted(headers))
            + ("Content-Length: " + IntToString(length) + "\r\n") + ("Content-Type: " + contentType + "\r\n") + "\r\n"
         == first + HeaderText(AllHeaders(headers, length, contentType))
  {
    AllHeadersText(headers, length, contentType);
    SixParts(first, "Connection: Keep-Alive\r\n", HeaderLines(Emitted(headers)),
             "Content-Length: " + IntToString(length) + "\r\n", "Content-Type: " + contentType + "\r\n", "\r\n");
  }

  // ---------------------------------------------------------------- the response object

  class WtvpResponse {
    var statusCode: int
    var headers: seq<(string, string)>
    var contentLength: int
    var contentType: string
    var data: seq<byte>

    /** `WTVPResponse(content_type, data, status_code, headers)`: the length is taken from the body. */
    constructor (contentType: string, data: seq<byte>, statusCode: int, headers: seq<(string, string)>)
      ensures this.statusCode == statusCode && this.headers == headers
      ensures this.contentLength == |data| && this.contentType == contentType && this.data == data
    {
      this.statusCode := statusCode;
      this.headers := headers;
      this.contentLength := |data|;
      this.contentType := contentType;
      this.data := data;
    }

    /** `generate_response()`: the text appended piece by piece, encoded, then the body. */
    method GenerateResponse() returns (r: Result<seq<byte>, ResponseError>)
      ensures r == Serialize(statusCode, headers, contentLength, contentType, data)
    {
      var status := StatusText(statusCode);
      if status.None? {
        return Err(UnknownStatus(statusCode));
      }
      var text := status.value;
      text := text + "\r\n";
      ghost var first := text;
      text := text + "Connection: Keep-Alive\r\n";
      for i := 0 to |headers|
        invariant text == first + "Connection: Keep-Alive\r\n" + HeaderLines(Emitted(headers[..i]))
      {
        var (key, value) := headers[i];
        if IndexOf(key, "^n").Some? {
          key := Before(key, "^n");
        }
        EmittedStep(headers, i);
        Assoc(first + "Connection: Keep-Alive\r\n", HeaderLines(Emitted(headers[..i])), key + ": " + value + "\r\n");
        text := text + (key + ": " + value + "\r\n");
      }
      assert headers[..|headers|] == headers;
      text := text + ("Content-Length: " + IntToString(contentLength) + "\r\n");
      text := text + ("Content-Type: " + contentType + "\r\n");
      text := text + "\r\n";
      ResponseTextLayout(first, headers, contentLength, contentType);
      var bytes := Encode(text);
      bytes := bytes + data;
      return Ok(bytes);
    }
  }

  // ---------------------------------------------------------------- what a client reads back

  /** The response begins with the status line and the keep-alive header, and ends with the body. */
  lemma SerializeFrame(code: int, headers: seq<(string, string)>, length: int, contentType: string, data: seq<byte>)
    requires StatusText(code).Some?
    ensures Serialize(code, headers, length, contentType, data).Ok?
    ensures StartsWith(Serialize(code, headers, length, contentType, data).value,
                       Encode(StatusText(code).value + "\r\n" + "Connection: Keep-Alive\r\n"))
    ensures EndsWith(Serialize(code, headers, length, contentType, data).value, data)
  {
    WireFrame(StatusText(code).value, headers, length, contentType, data);
  }

  lemma WireFrame(status: string, headers: seq<(string, string)>, length: int, contentType: string, data: seq<byte>)
    ensures StartsWith(Wire(status, AllHeaders(headers, length, contentType), data), Encode(status + "\r\n" + "Connection: Keep-Alive\r\n"))
    ensures EndsWith(Wire(status, AllHeaders(headers, length, contentType), data), data)
  {
    var first := status + "\r\n";
    var conn := "Connection: Keep-Alive\r\n";
    var lines := HeaderLines(Emitted(headers));
    var cl := "Content-Length: " + IntToString(length) + "\r\n";
    var ct := "Content-Type: " + contentType + "\r\n";
    AllHeadersText(headers, length, contentType);
    var rest := lines + cl + ct + "\r\n";
    assert first + HeaderText(AllHeaders(headers, length, contentType)) == (first + conn) + rest by {
      SixParts(first, conn, lines, cl, ct, "\r\n");
      FlattenFive(first + conn, lines, cl, ct, "\r\n");
    }
    EncodeAppend(first + conn, rest);
    var out := Wire(status, AllHeaders(headers, length, contentType), data);
    var head := Encode(first + conn);
    assert out == (head + Encode(rest)) + data;
    Assoc(head, Encode(rest), data);
    assert out[|out| - |data|..] == data;
  }

  function Pow10(k: nat): nat {
    if k == 0 then 1 else 10 * Pow10(k - 1)
  }

  /** A number below `10^k` has at most `k` digits. */
  lemma {:induction false} NatToStringLength(n: nat, k: nat)
    requires 1 <= k && n < Pow10(k)
    ensures |NatToString(n)| <= k
    decreases k
  {
    if n >= 10 {
      assert k >= 2;
      NatToStringLength(n / 10, k - 1);
    }
  }

  lemma DigitsAreNotSpace(s: string)
    requires forall k :: 0 <= k < |s| ==> IsDigit(s[k])
    ensures IsAscii(s) && ':' !in s && '\n' !in s
    ensures s != [] ==> s[0] !in UnicodeSpace && s[|s| - 1] !in UnicodeSpace
  {
  }

  /** The keep-alive header reads back as written. */
  lemma KeepAlivePlain()
    ensures Plain("Connection", "Keep-Alive")
  {
    assert "Keep-Alive"[0] == 'K' && "Keep-Alive"[9] == 'e';
  }

  /** The length header of a body below 4 GiB reads back as written. */
  lemma LengthPlain(n: nat)
    requires n < 0x1_0000_0000
    ensures Plain("Content-Length", IntToString(n))
  {
    assert Pow10(10) == 10000000000;
    NatToStringLength(n, 10);
    DigitsAreNotSpace(NatToString(n));
  }

  /**
   * The header round trip: when the handler's headers, and the content type,
   * read back as written (`Plain`), a client that takes the status line off a
   * response and runs `parse_headers` on the rest gets the dictionary of every
   * header line in order, a later line for a name winning, and is left with
   * exactly the body.
   */
  lemma ReadSerializedHeaders(code: int, headers: seq<(string, string)>, contentType: string, data: seq<byte>)
    requires StatusText(code).Some?
    requires forall i :: 0 <= i < |headers| ==> Plain(HeaderKey(headers[i].0), headers[i].1)
    requires Plain("Content-Type", contentType)
    requires |data| < 0x1_0000_0000
    ensures Serialize(code, headers, |data|, contentType, data).Ok?
    ensures var out := Serialize(code, headers, |data|, contentType, data).value;
            var line := Encode(StatusText(code).value + "\r\n");
            line <= out && HeaderBlock(out[|line|..], map[]) == Ok((UpdateAll(map[], AllHeaders(headers, |data|, contentType)), data))
  {
    var all := AllHeaders(headers, |data|, contentType);
    AllHeadersPlain(headers, |data|, contentType);
    ReadWire(StatusText(code).value, all, data);
  }

  /** Every line of the header block reads back as written. */
  lemma AllHeadersPlain(headers: seq<(string, string)>, n: nat, contentType: string)
    requires forall i :: 0 <= i < |headers| ==> Plain(HeaderKey(headers[i].0), headers[i].1)
    requires Plain("Content-Type", contentType)
    requires n < 0x1_0000_0000
    ensures var all := AllHeaders(headers, n, contentType);
            forall i :: 0 <= i < |all| ==> Plain(all[i].0, all[i].1)
  {
    var all := AllHeaders(headers, n, contentType);
    var e := Emitted(headers);
    KeepAlivePlain();
    LengthPlain(n);
    forall i | 0 <= i < |all| ensures Plain(all[i].0, all[i].1) {
      if 1 <= i <= |e| {
        assert all[i] == e[i - 1];
      }
    }
  }

  lemma ReadWire(status: string, pairs: seq<(string, string)>, data: seq<byte>)
    requires forall i :: 0 <= i < |pairs| ==> Plain(pairs[i].0, pairs[i].1)
    ensures var line := Encode(status + "\r\n");
            var out := Wire(status, pairs, data);
            line <= out && HeaderBlock(out[|line|..], map[]) == Ok((UpdateAll(map[], pairs), data))
  {
    var line := Encode(status + "\r\n");
    var body := Encode(HeaderText(pairs));
    EncodeAppend(status + "\r\n", HeaderText(pairs));
    var out := Wire(status, pairs, data);
    assert out == (line + body) + data;
    Assoc(line, body, data);
    assert out[|line|..] == body + data;
    ReadHeaderText(pairs, data, map[]);
  }

  /**
   * What the read-back dictionary says about the body: `Content-Length` is the
   * decimal number of body bytes, which `int()` parses back, and
   * `Content-Type` is the constructor's type, whatever handler headers came
   * before them.
   */
  lemma ReadBackLengthAndType(headers: seq<(string, string)>, n: nat, contentType: string)
    ensures var d := UpdateAll(map[], AllHeaders(headers, n, contentType));
            "Content-Length" in d && ParseInt(d["Content-Length"], UnicodeSpace) == Some(n)
            && "Content-Type" in d && d["Content-Type"] == contentType
  {
    var front := [("Connection", "Keep-Alive")] + Emitted(headers);
    var all := AllHeaders(headers, n, contentType);
    assert all == front + [("Content-Length", IntToString(n))] + [("Content-Type", contentType)];
    UpdateAllLastWins(map[], front, "Content-Length", IntToString(n), [("Content-Type", contentType)]);
    assert all == (front + [("Content-Length", IntToString(n))]) + [("Content-Type", contentType)] + [];
    UpdateAllLastWins(map[], front + [("Content-Length", IntToString(n))], "Content-Type", contentType, []);
    DigitsNotUnicodeSpace();
    ParseIntOfString(n, UnicodeSpace);
  }

  lemma DigitsNotUnicodeSpace()
    ensures '-' !in UnicodeSpace && forall c :: IsDigit(c) ==> c !in UnicodeSpace
  {
    forall c | IsDigit(c) ensures c !in UnicodeSpace {
      assert '0' as int <= c as int <= '9' as int;
    }
  }
}
