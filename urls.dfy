/**
 * `parse_url` and `decode_data_params`: a WTVP URL
 * `service:/seg/seg?key=value&key=value` is taken apart into its service name,
 * its non-empty path segments and its query parameters, and a form body
 * `key=value&key=value` into a dictionary.
 */
module Urls {
  import opened Wrappers
  import opened Text

  datatype UrlError = UrlWithoutColon
  datatype FormError = ParamWithoutEquals

  /** What `parse_url` stores on the request: `service`, `path` and `params`. */
  datatype Url = Url(service: string, path: seq<string>, params: map<string, string>)

  // ---------------------------------------------------------------- percent-decoding

  predicate IsHexDigit(c: char) {
    '0' <= c <= '9' || 'a' <= c <= 'f' || 'A' <= c <= 'F'
  }

  function HexValue(c: char): (v: nat)
    requires IsHexDigit(c)
    ensures v < 16
  {
    if '0' <= c <= '9' then c as int - '0' as int
    else if 'a' <= c <= 'f' then c as int - 'a' as int + 10
    else c as int - 'A' as int + 10
  }

  /** The upper-case hex digit of `v`. */
  function HexDigit(v: nat): (c: char)
    requires v < 16
    ensures IsHexDigit(c) && HexValue(c) == v
  {
    if v < 10 then ('0' as int + v) as char else ('A' as int + v - 10) as char
  }

  /**
   * `urllib.parse.unquote`: every `%` followed by two hex digits stands for the
   * character with that code; any other character, a lone `%` included, stands
   * for itself.
   */
  function Unquote(s: string): (r: string)
    ensures |r| <= |s|
    decreases |s|
  {
    if s == [] then []
    else if |s| >= 3 && s[0] == '%' && IsHexDigit(s[1]) && IsHexDigit(s[2]) then
      [(16 * HexValue(s[1]) + HexValue(s[2])) as char] + Unquote(s[3..])
    else [s[0]] + Unquote(s[1..])
  }

  /** Text without a `%` comes back unchanged. */
  lemma {:induction false} UnquotePlain(s: string)
    requires '%' !in s
    ensures Unquote(s) == s
    decreases |s|
  {
    if s != [] {
      UnquotePlain(s[1..]);
    }
  }

  /** The characters a URL carries unescaped. */
  predicate Unreserved(c: char) {
    'A' <= c <= 'Z' || 'a' <= c <= 'z' || '0' <= c <= '9' || c == '_' || c == '.' || c == '-' || c == '~'
  }

  /** Percent-encoding as a client writes a query: unreserved characters as they are, any other as `%XX`. */
  function PercentEncode(s: string): (r: string)
    requires IsAscii(s)
    ensures forall k :: 0 <= k < |r| ==> Unreserved(r[k]) || r[k] == '%'
    decreases |s|
  {
    if s == [] then []
    else
      var rest := AsciiTail(s);
      if Unreserved(s[0]) then [s[0]] + PercentEncode(rest)
      else ['%', HexDigit(s[0] as int / 16), HexDigit(s[0] as int % 16)] + PercentEncode(rest)
  }

  function AsciiTail(s: string): (t: string)
    requires IsAscii(s) && s != []
    ensures t == s[1..] && IsAscii(t)
  {
    assert forall k :: 0 <= k < |s[1..]| ==> s[1..][k] == s[k + 1];
    s[1..]
  }

  /** Percent-decoding undoes percent-encoding. */
  lemma {:induction false} UnquotePercentEncode(s: string)
    requires IsAscii(s)
    ensures Unquote(PercentEncode(s)) == s
    decreases |s|
  {
    if s != [] {
      var tail := AsciiTail(s);
      var rest := PercentEncode(tail);
      UnquotePercentEncode(tail);
      var t := PercentEncode(s);
      if Unreserved(s[0]) {
        assert t == [s[0]] + rest && t[1..] == rest;
      } else {
        assert t == ['%', HexDigit(s[0] as int / 16), HexDigit(s[0] as int % 16)] + rest;
        assert t[3..] == rest;
        assert (16 * HexValue(t[1]) + HexValue(t[2])) as char == s[0];
      }
    }
  }

  // ---------------------------------------------------------------- query parameters

  /**
   * One `key=value` item of the query: `+` is a space in both halves, which are
   * then percent-decoded; text after a second `=` is dropped. An item without
   * `=` maps its key to `''`, and the empty item is skipped (`None`).
   */
  function ParamEntry(param: string): (r: Option<(string, string)>)
    ensures r.None? <==> param == []
    ensures '=' !in param && param != [] ==> r == Some((Unquote(ReplaceAll(param, '+', ' ')), ""))
  {
    var kv := Split(param, '=');
    if |kv| >= 2 then Some((Unquote(ReplaceAll(kv[0], '+', ' ')), Unquote(ReplaceAll(kv[1], '+', ' '))))
    else if kv[0] == "" then None
    else Some((Unquote(ReplaceAll(kv[0], '+', ' ')), ""))
  }

  /** The query items in order, each later key overwriting an earlier one. */
  function AddParams(items: seq<string>, acc: map<string, string>): (r: map<string, string>)
    ensures acc.Keys <= r.Keys
    decreases |items|
  {
    if items == [] then acc
    else
      var next := match ParamEntry(items[0]) case None => acc case Some(kv) => acc[kv.0 := kv.1];
      AddParams(items[1..], next)
  }

  /** The text after the first `?`, up to a second one; `None` when there is no `?`. */
  function Query(url: string): (r: Option<string>)
    ensures r.None? <==> '?' !in url
    ensures r.Some? ==> '?' !in r.value
  {
    var parts := Split(url, '?');
    if |parts| >= 2 then Some(parts[1]) else None
  }

  /** The non-empty strings of `parts`, in order (`filter(str, parts)`). */
  function NonEmpty(parts: seq<string>): (r: seq<string>)
    ensures |r| <= |parts|
    ensures forall i :: 0 <= i < |r| ==> r[i] != [] && r[i] in parts
    decreases |parts|
  {
    if parts == [] then []
    else if parts[0] == [] then NonEmpty(parts[1..])
    else [parts[0]] + NonEmpty(parts[1..])
  }

  /** One step of the filter, at index `j`. */
  lemma NonEmptyAt(parts: seq<string>, j: nat)
    requires j < |parts|
    ensures NonEmpty(parts[j..]) == (if parts[j] == [] then [] else [parts[j]]) + NonEmpty(parts[j + 1..])
  {
    assert parts[j..][1..] == parts[j + 1..];
  }

  /**
   * What `parse_url` leaves on the request for `url`: the service is the text
   * before the first `:`, the parameters come from the text after the first
   * `?`, and the path segments are the non-empty `/`-pieces between the first
   * `:` and the next `?`. A URL without `:` raises (`IndexError`).
   */
  function ParsedUrl(url: string): (r: Result<Url, UrlError>)
    ensures r.Err? <==> ':' !in url
    ensures r.Ok? ==> ':' !in r.value.service && r.value.service <= url
  {
    var colon := Split(url, ':');
    var params := match Query(url) case None => map[] case Some(q) => AddParams(Split(q, '&'), map[]);
    SplitMany(url, ':');
    if |colon| < 2 then
      Err(UrlWithoutColon)
    else
      Ok(Url(colon[0], NonEmpty(Split(Split(colon[1], '?')[0], '/')), params))
  }

  /** `parse_url(request)`, with the loops that fill `params` and `path`. */
  method ParseUrl(url: string) returns (r: Result<Url, UrlError>)
    ensures r == ParsedUrl(url)
  {
    var colon := Split(url, ':');
    var service := colon[0];
    var params: map<string, string> := map[];
    var parts := Split(url, '?');
    if |parts| >= 2 {
      var items := Split(parts[1], '&');
      var i := 0;
      while i < |items|
        invariant 0 <= i <= |items|
        invariant AddParams(items[i..], params) == AddParams(items, map[])
      {
        assert items[i..][1..] == items[i + 1..];
        match ParamEntry(items[i]) {
          case Some(kv) => params := params[kv.0 := kv.1];
          case None =>
        }
        i := i + 1;
      }
      assert items[i..] == [];
    }
    assert params == match Query(url) case None => map[] case Some(q) => AddParams(Split(q, '&'), map[]);
    if |colon| < 2 {
      return Err(UrlWithoutColon);
    }
    var pieces := Split(Split(colon[1], '?')[0], '/');
    var path: seq<string> := [];
    var j := 0;
    while j < |pieces|
      invariant 0 <= j <= |pieces|
      invariant path + NonEmpty(pieces[j..]) == NonEmpty(pieces)
    {
      NonEmptyAt(pieces, j);
      if pieces[j] != "" {
        Assoc(path, [pieces[j]], NonEmpty(pieces[j + 1..]));
        path := path + [pieces[j]];
      }
      j := j + 1;
    }
    assert pieces[j..] == [] && path == NonEmpty(pieces);
    r := Ok(Url(service, path, params));
  }

  // ---------------------------------------------------------------- the URL round trip

  /** `/seg/seg`, or nothing for an empty path. */
  function PathText(segs: seq<string>): string {
    Join([""] + segs, '/')
  }

  function ItemTexts(pairs: seq<(string, string)>): (r: seq<string>)
    requires forall i :: 0 <= i < |pairs| ==> IsAscii(pairs[i].0) && IsAscii(pairs[i].1)
    ensures |r| == |pairs|
    decreases |pairs|
  {
    if pairs == [] then []
    else [PercentEncode(pairs[0].0) + "=" + PercentEncode(pairs[0].1)] + ItemTexts(pairs[1..])
  }

  /** The text of a query, `?` included, or nothing when there are no pairs. */
  function QueryText(pairs: seq<(string, string)>): string
    requires forall i :: 0 <= i < |pairs| ==> IsAscii(pairs[i].0) && IsAscii(pairs[i].1)
  {
    if pairs == [] then "" else "?" + Join(ItemTexts(pairs), '&')
  }

  /** A URL as a client writes it: `service:/seg/seg?key=value&key=value`, keys and values percent-encoded. */
  function UrlText(service: string, segs: seq<string>, pairs: seq<(string, string)>): string
    requires forall i :: 0 <= i < |pairs| ==> IsAscii(pairs[i].0) && IsAscii(pairs[i].1)
  {
    service + ":" + PathText(segs) + QueryText(pairs)
  }

  /** Percent-encoding never writes the separators `parse_url` splits at, nor `+`. */
  lemma PercentEncodeAvoids(s: string, c: char)
    requires IsAscii(s) && c in {':', '?', '/', '&', '=', '+'}
    ensures c !in PercentEncode(s)
  {
  }

  /** An item written by `ItemTexts` reads back as its pair. */
  lemma ItemEntry(k: string, v: string)
    requires IsAscii(k) && IsAscii(v)
    ensures ParamEntry(PercentEncode(k) + "=" + PercentEncode(v)) == Some((k, v))
  {
    var a, b := PercentEncode(k), PercentEncode(v);
    PercentEncodeAvoids(k, '=');
    PercentEncodeAvoids(v, '=');
    SplitTwo(a, '=', b);
    PercentEncodeAvoids(k, '+');
    PercentEncodeAvoids(v, '+');
    ReplaceAbsent(a, '+', ' ');
    ReplaceAbsent(b, '+', ' ');
    UnquotePercentEncode(k);
    UnquotePercentEncode(v);
  }

  lemma {:induction false} AddItemTexts(pairs: seq<(string, string)>, acc: map<string, string>)
    requires forall i :: 0 <= i < |pairs| ==> IsAscii(pairs[i].0) && IsAscii(pairs[i].1)
    ensures AddParams(ItemTexts(pairs), acc) == UpdateAll(acc, pairs)
    decreases |pairs|
  {
    if pairs != [] {
      ItemEntry(pairs[0].0, pairs[0].1);
      assert ItemTexts(pairs)[1..] == ItemTexts(pairs[1..]);
      AddItemTexts(pairs[1..], acc[pairs[0].0 := pairs[0].1]);
    }
  }

  lemma ItemTextsAvoid(pairs: seq<(string, string)>, c: char)
    requires forall i :: 0 <= i < |pairs| ==> IsAscii(pairs[i].0) && IsAscii(pairs[i].1)
    requires c in {':', '?', '&'}
    ensures forall i :: 0 <= i < |pairs| ==> c !in ItemTexts(pairs)[i]
  {
    forall i | 0 <= i < |pairs|
      ensures c !in ItemTexts(pairs)[i]
    {
      ItemTextAt(pairs, i);
      PercentEncodeAvoids(pairs[i].0, c);
      PercentEncodeAvoids(pairs[i].1, c);
    }
  }

  lemma {:induction false} ItemTextAt(pairs: seq<(string, string)>, i: nat)
    requires forall i :: 0 <= i < |pairs| ==> IsAscii(pairs[i].0) && IsAscii(pairs[i].1)
    requires i < |pairs|
    ensures ItemTexts(pairs)[i] == PercentEncode(pairs[i].0) + "=" + PercentEncode(pairs[i].1)
    decreases i
  {
    if i > 0 {
      ItemTextAt(pairs[1..], i - 1);
    }
  }

  /** Dropping the empty leading piece of a path leaves its segments. */
  lemma NonEmptySegments(segs: seq<string>)
    requires forall i :: 0 <= i < |segs| ==> segs[i] != []
    ensures NonEmpty([""] + segs) == segs
  {
    assert ([""] + segs)[1..] == segs;
    NonEmptyKeeps(segs);
  }

  lemma {:induction false} NonEmptyKeeps(segs: seq<string>)
    requires forall i :: 0 <= i < |segs| ==> segs[i] != []
    ensures NonEmpty(segs) == segs
    decreases |segs|
  {
    if segs != [] {
      NonEmptyKeeps(segs[1..]);
    }
  }

  /** The first `:` of a URL follows its service name. */
  lemma ColonAfterService(url: string, service: string, tail: string)
    requires url == service + ":" + tail && ':' !in service && ':' !in tail
    ensures Split(url, ':') == [service, tail]
  {
    assert url == service + [':'] + tail;
    SplitCons(service, ':', tail);
    assert Split(tail, ':') == [tail];
  }

  /** Parsing a URL assembled from a service and a path, without a query. */
  lemma ParsedUrlPlain(url: string, service: string, path: string, segs: seq<string>)
    requires url == service + ":" + path
    requires ':' !in service && '?' !in service && ':' !in path && '?' !in path
    requires NonEmpty(Split(path, '/')) == segs
    ensures ParsedUrl(url) == Ok(Url(service, segs, map[]))
  {
    ColonAfterService(url, service, path);
    assert '?' !in url;
  }

  /** Parsing a URL assembled from a service, a path and a query. */
  lemma ParsedUrlQuery(url: string, service: string, path: string, q: string, segs: seq<string>)
    requires url == service + ":" + path + "?" + q
    requires ':' !in service && '?' !in service && ':' !in path && '?' !in path && ':' !in q && '?' !in q
    requires NonEmpty(Split(path, '/')) == segs
    ensures ParsedUrl(url) == Ok(Url(service, segs, AddParams(Split(q, '&'), map[])))
  {
    var tail := path + "?" + q;
    assert url == service + ":" + tail;
    ColonAfterService(url, service, tail);
    assert Split(tail, '?')[0] == path by {
      assert tail == path + ['?'] + q;
      SplitCons(path, '?', q);
    }
    assert Query(url) == Some(q) by {
      assert url == (service + ":" + path) + ['?'] + q;
      SplitCons(service + ":" + path, '?', q);
      assert Split(q, '?') == [q];
    }
  }

  /** A written path holds neither `:` nor `?`, and reads back as its segments. */
  lemma PathTextParts(segs: seq<string>)
    requires forall i :: 0 <= i < |segs| ==> segs[i] != [] && '/' !in segs[i] && ':' !in segs[i] && '?' !in segs[i]
    ensures ':' !in PathText(segs) && '?' !in PathText(segs)
    ensures NonEmpty(Split(PathText(segs), '/')) == segs
  {
    NotInJoin([""] + segs, '/', ':');
    NotInJoin([""] + segs, '/', '?');
    SplitJoin([""] + segs, '/');
    NonEmptySegments(segs);
  }

  /** A written query holds neither `:` nor `?`, and reads back as the dictionary of its pairs. */
  lemma QueryTextParts(pairs: seq<(string, string)>)
    requires forall i :: 0 <= i < |pairs| ==> IsAscii(pairs[i].0) && IsAscii(pairs[i].1)
    requires pairs != []
    ensures var items := Join(ItemTexts(pairs), '&');
      ':' !in items && '?' !in items && AddParams(Split(items, '&'), map[]) == UpdateAll(map[], pairs)
  {
    ItemTextsAvoid(pairs, ':');
    ItemTextsAvoid(pairs, '?');
    ItemTextsAvoid(pairs, '&');
    NotInJoin(ItemTexts(pairs), '&', ':');
    NotInJoin(ItemTexts(pairs), '&', '?');
    SplitJoin(ItemTexts(pairs), '&');
    AddItemTexts(pairs, map[]);
  }

  /**
   * The URL round trip: a URL written from a service name without `:` or `?`,
   * non-empty segments without `/`, `:` or `?`, and ASCII parameter pairs is
   * parsed back into that service, those segments, and the dictionary of the
   * pairs with a later key winning.
   */
  lemma ParsedUrlText(service: string, segs: seq<string>, pairs: seq<(string, string)>)
    requires forall i :: 0 <= i < |pairs| ==> IsAscii(pairs[i].0) && IsAscii(pairs[i].1)
    requires ':' !in service && '?' !in service
    requires forall i :: 0 <= i < |segs| ==> segs[i] != [] && '/' !in segs[i] && ':' !in segs[i] && '?' !in segs[i]
    ensures ParsedUrl(UrlText(service, segs, pairs)) == Ok(Url(service, segs, UpdateAll(map[], pairs)))
  {
    PathTextParts(segs);
    if pairs == [] {
      ParsedUrlPlain(UrlText(service, segs, pairs), service, PathText(segs), segs);
    } else {
      QueryTextParts(pairs);
      Assoc(service + ":" + PathText(segs), "?", Join(ItemTexts(pairs), '&'));
      ParsedUrlQuery(UrlText(service, segs, pairs), service, PathText(segs), Join(ItemTexts(pairs), '&'), segs);
    }
  }

  /** A later item for a key overwrites an earlier one. */
  lemma ParsedUrlLastWins(service: string, segs: seq<string>, a: seq<(string, string)>, k: string, v: string, b: seq<(string, string)>)
    requires forall i :: 0 <= i < |a + [(k, v)] + b| ==> IsAscii((a + [(k, v)] + b)[i].0) && IsAscii((a + [(k, v)] + b)[i].1)
    requires ':' !in service && '?' !in service
    requires forall i :: 0 <= i < |segs| ==> segs[i] != [] && '/' !in segs[i] && ':' !in segs[i] && '?' !in segs[i]
    requires forall i :: 0 <= i < |b| ==> b[i].0 != k
    ensures var r := ParsedUrl(UrlText(service, segs, a + [(k, v)] + b));
      r.Ok? && k in r.value.params && r.value.params[k] == v
  {
    ParsedUrlText(service, segs, a + [(k, v)] + b);
    UpdateAllLastWins(map[], a, k, v, b);
  }

  // ---------------------------------------------------------------- form bodies

  /**
   * `decode_data_params`: the decoded body split at `&`, each item at `=`, the
   * key mapped to the text between the first and second `=`, a later key
   * overwriting an earlier one. An item without `=`, the empty body's one
   * empty item included, raises (`IndexError`).
   */
  function FormParams(items: seq<string>, acc: map<string, string>): (r: Result<map<string, string>, FormError>)
    ensures r.Err? <==> exists i :: 0 <= i < |items| && '=' !in items[i]
    ensures r.Ok? ==> acc.Keys <= r.value.Keys
    decreases |items|
  {
    if items == [] then Ok(acc)
    else
      var kv := Split(items[0], '=');
      SplitMany(items[0], '=');
      if |kv| < 2 then
        Err(ParamWithoutEquals)
      else
        var r := FormParams(items[1..], acc[kv[0] := kv[1]]);
        assert forall i :: 1 <= i < |items| ==> items[i] == items[1..][i - 1];
        r
  }

  function DataParams(data: seq<byte>): Result<map<string, string>, FormError> {
    FormParams(Split(Decode(data), '&'), map[])
  }

  /** `decode_data_params(request)`, with its loop over the items. */
  method DecodeDataParams(data: seq<byte>) returns (r: Result<map<string, string>, FormError>)
    ensures r == DataParams(data)
  {
    var items := Split(Decode(data), '&');
    var params: map<string, string> := map[];
    var i := 0;
    while i < |items|
      invariant 0 <= i <= |items|
      invariant FormParams(items[i..], params) == DataParams(data)
    {
      assert items[i..][1..] == items[i + 1..];
      var kv := Split(items[i], '=');
      if |kv| < 2 {
        return Err(ParamWithoutEquals);
      }
      params := params[kv[0] := kv[1]];
      i := i + 1;
    }
    r := Ok(params);
  }

  /** An empty body raises: its one item has no `=`. */
  lemma EmptyBodyRejected()
    ensures DataParams([]) == Err(ParamWithoutEquals)
  {
    assert Split(Decode([]), '&') == [[]];
  }

  function FormItems(pairs: seq<(string, string)>): (r: seq<string>)
    ensures |r| == |pairs|
    decreases |pairs|
  {
    if pairs == [] then [] else [pairs[0].0 + "=" + pairs[0].1] + FormItems(pairs[1..])
  }

  /** A key or value a form body can carry as it is. */
  predicate FormText(s: string) {
    IsAscii(s) && '&' !in s && '=' !in s
  }

  lemma {:induction false} FormParamsItems(pairs: seq<(string, string)>, acc: map<string, string>)
    requires forall i :: 0 <= i < |pairs| ==> FormText(pairs[i].0) && FormText(pairs[i].1)
    ensures FormParams(FormItems(pairs), acc) == Ok(UpdateAll(acc, pairs))
    decreases |pairs|
  {
    if pairs != [] {
      var (k, v) := pairs[0];
      assert FormItems(pairs)[0] == k + ['='] + v;
      SplitTwo(k, '=', v);
      assert FormItems(pairs)[1..] == FormItems(pairs[1..]);
      FormParamsItems(pairs[1..], acc[k := v]);
    }
  }

  lemma {:induction false} FormItemAt(pairs: seq<(string, string)>, i: nat)
    requires i < |pairs|
    ensures FormItems(pairs)[i] == pairs[i].0 + "=" + pairs[i].1
    decreases i
  {
    if i > 0 {
      FormItemAt(pairs[1..], i - 1);
    }
  }

  /**
   * The form round trip: a non-empty body `k1=v1&k2=v2...` of ASCII keys and
   * values without `&` or `=` decodes to the dictionary of its pairs, a later
   * key winning.
   */
  lemma DataParamsText(pairs: seq<(string, string)>)
    requires pairs != []
    requires forall i :: 0 <= i < |pairs| ==> FormText(pairs[i].0) && FormText(pairs[i].1)
    ensures DataParams(Encode(Join(FormItems(pairs), '&'))) == Ok(UpdateAll(map[], pairs))
  {
    var text := Join(FormItems(pairs), '&');
    forall i | 0 <= i < |pairs|
      ensures '&' !in FormItems(pairs)[i] && IsAscii(FormItems(pairs)[i])
    {
      FormItemAt(pairs, i);
      AsciiAppend(pairs[i].0, "=");
      AsciiAppend(pairs[i].0 + "=", pairs[i].1);
    }
    JoinAscii(FormItems(pairs), '&');
    DecodeEncodeAscii(text);
    SplitJoin(FormItems(pairs), '&');
    FormParamsItems(pairs, map[]);
  }

  lemma {:induction false} JoinAscii(parts: seq<string>, sep: char)
    requires |parts| >= 1 && sep as int < 128
    requires forall i :: 0 <= i < |parts| ==> IsAscii(parts[i])
    ensures IsAscii(Join(parts, sep))
    decreases |parts|
  {
    if |parts| > 1 {
      JoinAscii(parts[1..], sep);
      var t := Join(parts[1..], sep);
      assert Join(parts, sep) == parts[0] + [sep] + t;
      assert forall k :: 0 <= k < |Join(parts, sep)| ==>
        Join(parts, sep)[k] == if k < |parts[0]| then parts[0][k] else if k == |parts[0]| then sep else t[k - |parts[0]| - 1];
    }
  }
}
