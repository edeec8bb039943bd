/**
 * `parse_headers(request)`: read header lines from a byte stream until a
 * blank line or the end of the stream, building a name-to-value dictionary.
 * The stream is the sequence of bytes not yet read; the result carries what is
 * left of it.
 */
module Headers {
  import opened Wrappers
  import opened Text

  /**
   * Why `parse_headers` raised, with the dictionary as it stood at that point
   * (the function fills `request.headers` in place, so the lines read before
   * the failing one stay in it).
   */
  datatype HeaderError = HeaderTooLong(partial: map<string, string>) | HeaderWithoutColon(partial: map<string, string>)

  const LF: byte := 10
  const CR: byte := 13
  const COLON: byte := 58

  /** The longest header line `parse_headers` accepts, in bytes. */
  const HeaderLimit: nat := 65536

  /**
   * `readline(limit)`: bytes up to and including the first newline, but no
   * more than `limit` of them; the remaining bytes stay in the stream.
   */
  function ReadLine(s: seq<byte>, limit: nat): (r: (seq<byte>, seq<byte>))
    ensures r.0 + r.1 == s
    ensures |r.0| <= limit
    ensures forall k :: 0 <= k < |r.0| - 1 ==> r.0[k] != LF
    ensures |r.0| < limit && r.1 != [] ==> r.0 != [] && r.0[|r.0| - 1] == LF
    ensures s != [] && limit > 0 ==> r.0 != []
  {
    var n := if LF in s then FirstIndex(s, LF) + 1 else |s|;
    var len := if n <= limit then n else limit;
    assert s[..len] + s[len..] == s;
    (s[..len], s[len..])
  }

  /** A line that ends the header block: `\r\n`, `\n`, or nothing (end of stream). */
  predicate IsBlank(line: seq<byte>) {
    |line| <= 2 && (line == [CR, LF] || line == [LF] || line == [])
  }

  /**
   * The loop of `parse_headers` from dictionary `acc` on: a line longer than
   * `HeaderLimit` raises; a blank line ends the block; otherwise the name is
   * the text before the line's first colon and the value the stripped text
   * between its first and second colon (a line without a colon raises), and a
   * later line for the same name replaces the earlier value.
   */
  function HeaderBlock(s: seq<byte>, acc: map<string, string>): (r: Result<(map<string, string>, seq<byte>), HeaderError>)
    ensures s == [] ==> r == Ok((acc, []))
    ensures r.Ok? ==> acc.Keys <= r.value.0.Keys
    decreases |s|
  {
    var (line, rest) := ReadLine(s, HeaderLimit + 1);
    if |line| > HeaderLimit then
      Err(HeaderTooLong(acc))
    else if IsBlank(line) then
      Ok((acc, rest))
    else
      var fields := Split(line, COLON);
      if |fields| < 2 then Err(HeaderWithoutColon(acc))
      else
        HeaderBlock(rest, acc[Decode(fields[0]) := Trim(Decode(fields[1]), UnicodeSpace)])
  }

  /** A first line of more than `HeaderLimit` bytes raises, whatever follows. */
  lemma LongLineRejected(s: seq<byte>, acc: map<string, string>)
    requires |s| > HeaderLimit && LF !in s[..HeaderLimit]
    ensures HeaderBlock(s, acc) == Err(HeaderTooLong(acc))
  {
  }

  /** `parse_headers(request)`, reading from `input`. */
  method ParseHeaders(input: seq<byte>) returns (r: Result<(map<string, string>, seq<byte>), HeaderError>)
    ensures r == HeaderBlock(input, map[])
  {
    var headers: map<string, string> := map[];
    var remaining := input;
    while true
      invariant HeaderBlock(remaining, headers) == HeaderBlock(input, map[])
      decreases |remaining|
    {
      var (line, rest) := ReadLine(remaining, HeaderLimit + 1);
      if |line| > HeaderLimit {
        return Err(HeaderTooLong(headers));
      }
      if line == [CR, LF] || line == [LF] || line == [] {
        return Ok((headers, rest));
      }
      var fields := Split(line, COLON);
      if |fields| < 2 {
        return Err(HeaderWithoutColon(headers));
      }
      headers := headers[Decode(fields[0]) := Trim(Decode(fields[1]), UnicodeSpace)];
      assert remaining == line + rest;
      remaining := rest;
    }
  }

  // ---------------------------------------------------------------- rendering

  /** A header as a client (or `WTVPResponse`) writes it. */
  function HeaderLine(name: string, value: string): string {
    name + ": " + value + "\r\n"
  }

  /** A header that reads back as written: ASCII, no colon or newline, an unpadded value, a line within the limit. */
  predicate Plain(name: string, value: string) {
    && IsAscii(name) && IsAscii(value)
    && ':' !in name && ':' !in value && '\n' !in name && '\n' !in value
    && (value == [] || (value[0] !in UnicodeSpace && value[|value| - 1] !in UnicodeSpace))
    && |name| + |value| + 4 <= HeaderLimit
  }

  /** The header lines of `pairs` in order, followed by the blank line. */
  function HeaderText(pairs: seq<(string, string)>): string
    decreases |pairs|
  {
    if pairs == [] then "\r\n" else HeaderLine(pairs[0].0, pairs[0].1) + HeaderText(pairs[1..])
  }

  /** A line ending in the first newline of the stream is read whole. */
  lemma ReadLineAt(body: seq<byte>, more: seq<byte>, limit: nat)
    requires LF !in body && |body| + 1 <= limit
    ensures ReadLine(body + [LF] + more, limit) == (body + [LF], more)
  {
    FirstIndexAt(body, LF, more);
    var s := body + [LF] + more;
    assert s[..|body| + 1] == body + [LF] && s[|body| + 1..] == more;
  }

  /** The blank line `\r\n` ends the block, leaving the stream just after it. */
  lemma BlankLineEnds(more: seq<byte>, acc: map<string, string>)
    ensures HeaderBlock([CR, LF] + more, acc) == Ok((acc, more))
    ensures HeaderBlock([LF] + more, acc) == Ok((acc, more))
  {
    ReadLineAt([CR], more, HeaderLimit + 1);
    assert [CR, LF] + more == [CR] + [LF] + more;
    ReadLineAt([], more, HeaderLimit + 1);
    assert [LF] + more == [] + [LF] + more;
  }

  /** The UTF-8 encoding of ASCII text lacking a character lacks that character's byte. */
  lemma EncodeAvoids(t: string, ch: char, b: byte)
    requires IsAscii(t) && ch !in t && b as int == ch as int
    ensures b !in Encode(t)
  {
    DecodeEncodeAscii(t);
    forall k | 0 <= k < |Encode(t)| ensures Encode(t)[k] != b { assert t[k] != ch; }
  }

  /** The bytes of a written header line: the name, a colon and a space, the value, and CR LF. */
  lemma EncodeHeaderLine(name: string, value: string)
    ensures Encode(HeaderLine(name, value)) == Encode(name) + [COLON, 32] + Encode(value) + [CR, LF]
  {
    EncodeAppend(name + ": " + value, "\r\n");
    EncodeAppend(name + ": ", value);
    EncodeAppend(name, ": ");
    assert Encode(": ") == [COLON, 32];
    assert Encode("\r\n") == [CR, LF];
  }

  /** A written header line is read whole, up to its newline. */
  lemma ReadWrittenLine(name: string, value: string, more: seq<byte>)
    requires LF !in Encode(name) && LF !in Encode(value)
    requires |Encode(name)| + |Encode(value)| + 4 <= HeaderLimit
    ensures ReadLine(Encode(HeaderLine(name, value)) + more, HeaderLimit + 1) == (Encode(HeaderLine(name, value)), more)
  {
    EncodeHeaderLine(name, value);
    var body := Encode(name) + [COLON, 32] + Encode(value) + [CR];
    assert Encode(HeaderLine(name, value)) == body + [LF];
    ReadLineAt(body, more, HeaderLimit + 1);
  }

  /** A written header line splits at its colon into the name and the padded value. */
  lemma SplitWrittenLine(name: string, value: string)
    requires COLON !in Encode(name) && COLON !in Encode(value)
    ensures Split(Encode(HeaderLine(name, value)), COLON) == [Encode(name), [32] + Encode(value) + [CR, LF]]
  {
    var tail := [32] + Encode(value) + [CR, LF];
    assert COLON !in tail;
    assert Encode(HeaderLine(name, value)) == Encode(name) + [COLON] + tail by {
      EncodeHeaderLine(name, value);
      var a, v, e := Encode(name), Encode(value), [CR, LF];
      assert [COLON, 32] == [COLON] + [32];
      Assoc(a, [COLON], [32]);
      Assoc(a + [COLON], [32], v);
      Assoc(a + [COLON], [32] + v, e);
    }
    SplitTwo(Encode(name), COLON, tail);
  }

  /** The bytes of a padded value read back as the padded text. */
  lemma DecodeWrittenValue(value: string)
    requires IsAscii(value)
    ensures Decode([32] + Encode(value) + [CR, LF]) == " " + value + "\r\n"
  {
    DecodeEncodeAscii(value);
    DecodeAppend([32] + Encode(value), [CR, LF]);
    DecodeAppend([32], Encode(value));
    assert Encode(" ") == [32] && Encode("\r\n") == [CR, LF];
    DecodeEncodeAscii(" ");
    DecodeEncodeAscii("\r\n");
  }

  /** The padded value of a written header line strips back to the value. */
  lemma TrimWrittenValue(value: string)
    requires IsAscii(value)
    requires value == [] || (value[0] !in UnicodeSpace && value[|value| - 1] !in UnicodeSpace)
    ensures Trim(Decode([32] + Encode(value) + [CR, LF]), UnicodeSpace) == value
  {
    DecodeWrittenValue(value);
    assert AllIn(" ", UnicodeSpace) && AllIn("\r\n", UnicodeSpace);
    TrimPadded(" ", value, "\r\n", UnicodeSpace);
  }

  /** One step of the header loop over a line holding a colon. */
  lemma HeaderBlockStep(s: seq<byte>, line: seq<byte>, rest: seq<byte>, nameBytes: seq<byte>, tail: seq<byte>, acc: map<string, string>)
    requires ReadLine(s, HeaderLimit + 1) == (line, rest)
    requires 2 < |line| <= HeaderLimit
    requires Split(line, COLON) == [nameBytes, tail]
    ensures HeaderBlock(s, acc) == HeaderBlock(rest, acc[Decode(nameBytes) := Trim(Decode(tail), UnicodeSpace)])
  {
  }

  /** What a plain header's name and value bytes do not contain, and how long they are. */
  lemma PlainBytes(name: string, value: string)
    requires Plain(name, value)
    ensures LF !in Encode(name) && LF !in Encode(value) && COLON !in Encode(name) && COLON !in Encode(value)
    ensures Decode(Encode(name)) == name && |Encode(name)| == |name| && |Encode(value)| == |value|
    ensures Trim(Decode([32] + Encode(value) + [CR, LF]), UnicodeSpace) == value
  {
    EncodeAvoids(name, '\n', LF);
    EncodeAvoids(value, '\n', LF);
    EncodeAvoids(name, ':', COLON);
    EncodeAvoids(value, ':', COLON);
    DecodeEncodeAscii(name);
    DecodeEncodeAscii(value);
    TrimWrittenValue(value);
  }

  /** One written header line is read back as its name and value. */
  lemma ReadHeaderLine(name: string, value: string, more: seq<byte>, acc: map<string, string>)
    requires Plain(name, value)
    ensures HeaderBlock(Encode(HeaderLine(name, value)) + more, acc) == HeaderBlock(more, acc[name := value])
  {
    var line := Encode(HeaderLine(name, value));
    PlainBytes(name, value);
    ReadWrittenLine(name, value, more);
    SplitWrittenLine(name, value);
    assert |line| == |name| + |value| + 4 by {
      EncodeHeaderLine(name, value);
    }
    HeaderBlockStep(line + more, line, more, Encode(name), [32] + Encode(value) + [CR, LF], acc);
  }

  /**
   * The header round trip: a block of plain headers followed by a blank line
   * reads back as the dictionary of its lines, a later line for a name winning,
   * and the stream is left just after the blank line.
   */
  lemma {:induction false} ReadHeaderText(pairs: seq<(string, string)>, more: seq<byte>, acc: map<string, string>)
    requires forall i :: 0 <= i < |pairs| ==> Plain(pairs[i].0, pairs[i].1)
    ensures HeaderBlock(Encode(HeaderText(pairs)) + more, acc) == Ok((UpdateAll(acc, pairs), more))
    decreases |pairs|
  {
    if pairs == [] {
      assert Encode("\r\n") == [CR, LF];
      BlankLineEnds(more, acc);
    } else {
      var (name, value) := pairs[0];
      EncodeAppend(HeaderLine(name, value), HeaderText(pairs[1..]));
      Assoc(Encode(HeaderLine(name, value)), Encode(HeaderText(pairs[1..])), more);
      ReadHeaderLine(name, value, Encode(HeaderText(pairs[1..])) + more, acc);
      ReadHeaderText(pairs[1..], more, acc[name := value]);
    }
  }
}
