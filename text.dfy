/**
 * The byte and string operations of Python that the server relies on, stated
 * over Dafny sequences: `find`/`split` on a separator, `startswith`/`endswith`,
 * `strip`, `replace`, `str(int)` and `int(str)`, and the byte/text conversions.
 */
module Text {
  import opened Wrappers

  newtype byte = b: int | 0 <= b < 256

  // ---------------------------------------------------------------- searching

  /** `pat` occurs in `s` at index `i`. */
  predicate OccursAt<T(==)>(s: seq<T>, pat: seq<T>, i: nat) {
    i + |pat| <= |s| && s[i..i + |pat|] == pat
  }

  /** Python `s.find(pat)`: the first index at which `pat` occurs, if any. */
  function IndexOf<T(==)>(s: seq<T>, pat: seq<T>): (r: Option<nat>)
    ensures r.Some? ==> OccursAt(s, pat, r.value)
    ensures r.Some? ==> forall j :: 0 <= j < r.value ==> !OccursAt(s, pat, j)
    ensures r.None? ==> forall j :: 0 <= j <= |s| ==> !OccursAt(s, pat, j)
  {
    IndexFrom(s, pat, 0)
  }

  function IndexFrom<T(==)>(s: seq<T>, pat: seq<T>, i: nat): (r: Option<nat>)
    requires i <= |s| + 1
    ensures r.Some? ==> i <= r.value && OccursAt(s, pat, r.value)
    ensures r.Some? ==> forall j :: i <= j < r.value ==> !OccursAt(s, pat, j)
    ensures r.None? ==> forall j :: i <= j <= |s| ==> !OccursAt(s, pat, j)
    decreases |s| + 1 - i
  {
    if i > |s| then None
    else if OccursAt(s, pat, i) then Some(i)
    else IndexFrom(s, pat, i + 1)
  }

  /** Python `s.split(pat)[0]`: everything before the first occurrence of `pat`. */
  function Before<T(==)>(s: seq<T>, pat: seq<T>): (r: seq<T>)
    ensures r <= s
  {
    match IndexOf(s, pat)
    case Some(i) => s[..i]
    case None => s
  }

  /** Everything after the first occurrence of `pat`, or `None` when it does not occur. */
  function After<T(==)>(s: seq<T>, pat: seq<T>): (r: Option<seq<T>>)
    ensures r.Some? ==> exists i: nat :: OccursAt(s, pat, i) && r.value == s[i + |pat|..]
    ensures r.None? <==> forall j :: 0 <= j <= |s| ==> !OccursAt(s, pat, j)
  {
    match IndexOf(s, pat)
    case Some(i) => Some(s[i + |pat|..])
    case None => None
  }

  /**
   * Python `s.split(pat)[1]`: the text between the first and the second
   * occurrence of `pat`; `None` (an `IndexError` in Python) when `pat` does not occur.
   */
  function SecondField<T(==)>(s: seq<T>, pat: seq<T>): Option<seq<T>> {
    match After(s, pat)
    case Some(rest) => Some(Before(rest, pat))
    case None => None
  }

  predicate StartsWith<T(==)>(s: seq<T>, pat: seq<T>) {
    pat <= s
  }

  predicate EndsWith<T(==)>(s: seq<T>, pat: seq<T>) {
    |pat| <= |s| && s[|s| - |pat|..] == pat
  }

  /** Concatenation is associative (stated once, so that callers need not reprove it element by element). */
  lemma Assoc<T>(a: seq<T>, b: seq<T>, c: seq<T>)
    ensures (a + b) + c == a + (b + c)
  {
  }

  // ---------------------------------------------------------------- splitting

  /** Concatenation of `parts` with `sep` between neighbours (Python `sep.join`). */
  function Join<T>(parts: seq<seq<T>>, sep: T): seq<T>
    requires |parts| >= 1
  {
    if |parts| == 1 then parts[0] else parts[0] + [sep] + Join(parts[1..], sep)
  }

  /**
   * Python `s.split(sep)` for a one-element separator: the unique list of
   * separator-free pieces that joins back to `s`.
   */
  function Split<T(==)>(s: seq<T>, sep: T): (r: seq<seq<T>>)
    ensures |r| >= 1
    ensures forall i :: 0 <= i < |r| ==> sep !in r[i]
    decreases |s|
  {
    if sep !in s then [s]
    else
      var i := FirstIndex(s, sep);
      [s[..i]] + Split(s[i + 1..], sep)
  }

  /** Joining the pieces of a split gives back the text split. */
  lemma {:induction false} JoinSplit<T>(s: seq<T>, sep: T)
    ensures Join(Split(s, sep), sep) == s
    decreases |s|
  {
    if sep in s {
      var i := FirstIndex(s, sep);
      var rest := Split(s[i + 1..], sep);
      JoinSplit(s[i + 1..], sep);
      JoinCons(s[..i], rest, sep);
      assert s == s[..i] + [sep] + s[i + 1..];
    }
  }

  /** Joining a piece in front of at least one more puts a separator between them. */
  lemma JoinCons<T>(p: seq<T>, rest: seq<seq<T>>, sep: T)
    requires |rest| >= 1
    ensures Join([p] + rest, sep) == p + [sep] + Join(rest, sep)
  {
    assert ([p] + rest)[0] == p && ([p] + rest)[1..] == rest;
  }

  /** A text splits into more than one piece exactly when it holds the separator. */
  lemma SplitMany<T>(s: seq<T>, sep: T)
    ensures |Split(s, sep)| >= 2 <==> sep in s
    ensures sep !in s ==> Split(s, sep) == [s]
    ensures |Split(s, sep)| >= 2 ==> s == Split(s, sep)[0] + [sep] + Join(Split(s, sep)[1..], sep)
  {
    JoinSplit(s, sep);
    if sep in s {
      var i := FirstIndex(s, sep);
      assert Split(s, sep) == [s[..i]] + Split(s[i + 1..], sep);
    }
  }

  function FirstIndex<T(==)>(s: seq<T>, x: T): (i: nat)
    requires x in s
    ensures i < |s| && s[i] == x && x !in s[..i]
  {
    if s[0] == x then 0 else 1 + FirstIndex(s[1..], x)
  }

  lemma {:induction false} FirstIndexAt<T>(a: seq<T>, x: T, b: seq<T>)
    requires x !in a
    ensures FirstIndex(a + [x] + b, x) == |a|
  {
    var s := a + [x] + b;
    if a != [] {
      assert s[0] == a[0];
      assert s[1..] == a[1..] + [x] + b;
      FirstIndexAt(a[1..], x, b);
    }
  }

  /** Splitting a join of separator-free pieces gives the pieces back. */
  lemma {:induction false} SplitJoin<T>(parts: seq<seq<T>>, sep: T)
    requires |parts| >= 1
    requires forall i :: 0 <= i < |parts| ==> sep !in parts[i]
    ensures Split(Join(parts, sep), sep) == parts
    decreases |parts|
  {
    var s := Join(parts, sep);
    if |parts| == 1 {
    } else {
      var rest := Join(parts[1..], sep);
      assert s == parts[0] + [sep] + rest;
      assert s[|parts[0]|] == sep;
      assert sep in s;
      FirstIndexAt(parts[0], sep, rest);
      var i := FirstIndex(s, sep);
      assert s[..i] == parts[0];
      assert s[i + 1..] == rest;
      SplitJoin(parts[1..], sep);
    }
  }

  /** Every occurrence of `x` replaced by `y` (Python `replace` with one-element arguments). */
  function ReplaceAll<T(==)>(s: seq<T>, x: T, y: T): (r: seq<T>)
    ensures |r| == |s|
    ensures x != y ==> x !in r
    ensures forall i :: 0 <= i < |s| && s[i] != x ==> r[i] == s[i]
  {
    seq(|s|, i requires 0 <= i < |s| => if s[i] == x then y else s[i])
  }

  /** Replacing a value that does not occur changes nothing. */
  lemma ReplaceAbsent<T>(s: seq<T>, x: T, y: T)
    requires x !in s
    ensures ReplaceAll(s, x, y) == s
  {
    assert forall i :: 0 <= i < |s| ==> ReplaceAll(s, x, y)[i] == s[i];
  }

  /** Splitting two separator-free pieces joined by one separator gives them back. */
  lemma SplitTwo<T>(a: seq<T>, sep: T, b: seq<T>)
    requires sep !in a && sep !in b
    ensures Split(a + [sep] + b, sep) == [a, b]
  {
    assert Join([a, b], sep) == a + [sep] + b by {
      assert [a, b][1..] == [b];
    }
    SplitJoin([a, b], sep);
  }

  /** Splitting at a first separator after a separator-free piece peels that piece off. */
  lemma SplitCons<T>(a: seq<T>, sep: T, b: seq<T>)
    requires sep !in a
    ensures Split(a + [sep] + b, sep) == [a] + Split(b, sep)
  {
    var s := a + [sep] + b;
    assert s[|a|] == sep;
    FirstIndexAt(a, sep, b);
    assert s[..|a|] == a && s[|a| + 1..] == b;
  }

  /** A separator-free ending of a text is an ending of the last piece of its split. */
  lemma {:induction false} SplitKeepsSuffix<T>(s: seq<T>, sep: T, pat: seq<T>)
    requires sep !in pat && EndsWith(s, pat)
    ensures EndsWith(Split(s, sep)[|Split(s, sep)| - 1], pat)
    decreases |s|
  {
    if sep in s {
      var i := FirstIndex(s, sep);
      var rest := s[i + 1..];
      assert i < |s| - |pat|;
      assert rest[|rest| - |pat|..] == s[|s| - |pat|..];
      SplitKeepsSuffix(rest, sep, pat);
      assert Split(s, sep) == [s[..i]] + Split(rest, sep);
    }
  }

  /** A join of pieces lacking `x`, with a separator other than `x`, lacks `x`. */
  lemma {:induction false} NotInJoin<T>(parts: seq<seq<T>>, sep: T, x: T)
    requires |parts| >= 1 && x != sep
    requires forall i :: 0 <= i < |parts| ==> x !in parts[i]
    ensures x !in Join(parts, sep)
    decreases |parts|
  {
    if |parts| > 1 {
      NotInJoin(parts[1..], sep, x);
    }
  }

  /** Python `sep.join(parts)`, also for an empty list. */
  function JoinAll<T>(parts: seq<seq<T>>, sep: T): seq<T> {
    if parts == [] then [] else Join(parts, sep)
  }

  // ---------------------------------------------------------------- dictionaries

  /** `d.update({k: v})` for each pair in turn. */
  function UpdateAll<K, V>(d: map<K, V>, pairs: seq<(K, V)>): (r: map<K, V>)
    ensures r.Keys == d.Keys + set i | 0 <= i < |pairs| :: pairs[i].0
    decreases |pairs|
  {
    if pairs == [] then d else UpdateAll(d[pairs[0].0 := pairs[0].1], pairs[1..])
  }

  lemma {:induction false} UpdateAllAppend<K, V>(d: map<K, V>, a: seq<(K, V)>, b: seq<(K, V)>)
    ensures UpdateAll(d, a + b) == UpdateAll(UpdateAll(d, a), b)
    decreases |a|
  {
    if a == [] {
      assert a + b == b;
    } else {
      assert (a + b)[0] == a[0] && (a + b)[1..] == a[1..] + b;
      UpdateAllAppend(d[a[0].0 := a[0].1], a[1..], b);
    }
  }

  /** Updates with other keys leave an entry alone. */
  lemma {:induction false} UpdateAllOthers<K, V>(d: map<K, V>, b: seq<(K, V)>, k: K)
    requires k in d
    requires forall i :: 0 <= i < |b| ==> b[i].0 != k
    ensures k in UpdateAll(d, b) && UpdateAll(d, b)[k] == d[k]
    decreases |b|
  {
    if b != [] {
      UpdateAllOthers(d[b[0].0 := b[0].1], b[1..], k);
    }
  }

  /** A later entry for a key overwrites every earlier one. */
  lemma UpdateAllLastWins<K, V>(d: map<K, V>, a: seq<(K, V)>, k: K, v: V, b: seq<(K, V)>)
    requires forall i :: 0 <= i < |b| ==> b[i].0 != k
    ensures k in UpdateAll(d, a + [(k, v)] + b) && UpdateAll(d, a + [(k, v)] + b)[k] == v
  {
    UpdateAllAppend(d, a + [(k, v)], b);
    UpdateAllAppend(d, a, [(k, v)]);
    UpdateAllOthers(UpdateAll(d, a)[k := v], b, k);
  }

  // ---------------------------------------------------------------- stripping

  /** The characters Python's `str.strip()` removes (`str.isspace`). */
  const UnicodeSpace: set<char> :=
    {'\t', '\n', '\U{B}', '\U{C}', '\r', '\U{1C}', '\U{1D}', '\U{1E}', '\U{1F}', ' ',
     '\U{85}', '\U{A0}', '\U{1680}', '\U{2000}', '\U{2001}', '\U{2002}', '\U{2003}',
     '\U{2004}', '\U{2005}', '\U{2006}', '\U{2007}', '\U{2008}', '\U{2009}', '\U{200A}',
     '\U{2028}', '\U{2029}', '\U{202F}', '\U{205F}', '\U{3000}'}

  /** The bytes Python's `bytes.strip()` removes, and the whitespace `int(bytes)` tolerates. */
  const AsciiSpace: set<char> := {'\t', '\n', '\U{B}', '\U{C}', '\r', ' '}

  /** `s` without its leading characters from `ws` (Python `lstrip`). */
  function TrimLeft(s: string, ws: set<char>): string
  {
    if s != [] && s[0] in ws then TrimLeft(s[1..], ws) else s
  }

  /** `s` without its trailing characters from `ws` (Python `rstrip`). */
  function TrimRight(s: string, ws: set<char>): string
  {
    if s != [] && s[|s| - 1] in ws then TrimRight(s[..|s| - 1], ws) else s
  }

  /** Python `strip()` with whitespace set `ws`. */
  function Trim(s: string, ws: set<char>): string
  {
    TrimRight(TrimLeft(s, ws), ws)
  }

  predicate AllIn(s: string, ws: set<char>) {
    forall k :: 0 <= k < |s| ==> s[k] in ws
  }

  lemma {:induction false} TrimLeftPrefix(pre: string, t: string, ws: set<char>)
    requires AllIn(pre, ws)
    requires t == [] || t[0] !in ws
    ensures TrimLeft(pre + t, ws) == t
  {
    if pre == [] {
      assert pre + t == t;
    } else {
      assert (pre + t)[0] == pre[0];
      assert (pre + t)[1..] == pre[1..] + t;
      TrimLeftPrefix(pre[1..], t, ws);
    }
  }

  lemma {:induction false} TrimRightSuffix(t: string, post: string, ws: set<char>)
    requires AllIn(post, ws)
    requires t == [] || t[|t| - 1] !in ws
    ensures TrimRight(t + post, ws) == t
    decreases |post|
  {
    if post == [] {
      assert t + post == t;
    } else {
      var s := t + post;
      assert s[|s| - 1] == post[|post| - 1];
      assert s[..|s| - 1] == t + post[..|post| - 1];
      TrimRightSuffix(t, post[..|post| - 1], ws);
    }
  }

  /** Stripping padding made of whitespace recovers the unpadded text. */
  lemma TrimPadded(pre: string, core: string, post: string, ws: set<char>)
    requires AllIn(pre, ws) && AllIn(post, ws)
    requires core == [] || (core[0] !in ws && core[|core| - 1] !in ws)
    ensures Trim(pre + core + post, ws) == core
  {
    if core != [] {
      assert pre + core + post == pre + (core + post);
      TrimLeftPrefix(pre, core + post, ws);
      TrimRightSuffix(core, post, ws);
    } else {
      assert pre + core + post == (pre + post) + [];
      TrimLeftPrefix(pre + post, [], ws);
    }
  }

  // ---------------------------------------------------------------- numbers

  function DigitChar(d: nat): (c: char)
    requires d < 10
  {
    ('0' as int + d) as char
  }

  predicate IsDigit(c: char) {
    '0' <= c <= '9'
  }

  /** Python `str(n)` for a non-negative integer. */
  function NatToString(n: nat): (r: string)
    ensures |r| >= 1 && forall k :: 0 <= k < |r| ==> IsDigit(r[k])
    decreases n
  {
    if n < 10 then [DigitChar(n)] else NatToString(n / 10) + [DigitChar(n % 10)]
  }

  /** Python `str(i)` for any integer. */
  function IntToString(i: int): string {
    if i < 0 then "-" + NatToString(-i) else NatToString(i)
  }

  /** The value of a string of decimal digits. */
  function DigitsValue(s: string): nat
    requires forall k :: 0 <= k < |s| ==> IsDigit(s[k])
  {
    if s == [] then 0 else assert IsDigit(s[|s| - 1]); 10 * DigitsValue(s[..|s| - 1]) + (s[|s| - 1] as int - '0' as int)
  }

  lemma {:induction false} DigitsValueOfNat(n: nat)
    ensures DigitsValue(NatToString(n)) == n
    decreases n
  {
    var s := NatToString(n);
    if n >= 10 {
      DigitsValueOfNat(n / 10);
      assert s[..|s| - 1] == NatToString(n / 10);
    }
  }

  /**
   * Python `int(s)` on text: surrounding whitespace (`ws`) is ignored, an
   * optional sign, then decimal digits, single underscores allowed between
   * digits. `None` is the `ValueError` Python raises.
   */
  function ParseInt(s: string, ws: set<char>): (r: Option<int>)
  {
    var t := Trim(s, ws);
    if t == [] then None
    else
      var body := if t[0] == '-' || t[0] == '+' then t[1..] else t;
      match ParseDigits(body)
      case None => None
      case Some(v) => Some(if t[0] == '-' then -(v as int) else v as int)
  }

  /** Decimal digits with single underscores between digits. */
  function ParseDigits(s: string): (r: Option<nat>)
    ensures r.Some? ==> s != []
  {
    if s == [] || !IsDigit(s[0]) || !IsDigit(s[|s| - 1]) then None
    else if exists k :: 0 <= k < |s| && !IsDigit(s[k]) && s[k] != '_' then None
    else if exists k :: 0 <= k < |s| - 1 && s[k] == '_' && s[k + 1] == '_' then None
    else Some(DigitsValue(Digits(s)))
  }

  /** `s` with its underscores removed. */
  function Digits(s: string): (r: string)
    requires forall k :: 0 <= k < |s| ==> IsDigit(s[k]) || s[k] == '_'
    ensures forall k :: 0 <= k < |r| ==> IsDigit(r[k])
    ensures (forall k :: 0 <= k < |s| ==> IsDigit(s[k])) ==> r == s
  {
    if s == [] then []
    else (if s[0] == '_' then [] else [s[0]]) + Digits(s[1..])
  }

  lemma ParseDigitsOfNat(n: nat)
    ensures ParseDigits(NatToString(n)) == Some(n)
  {
    var s := NatToString(n);
    DigitsValueOfNat(n);
    assert Digits(s) == s;
  }

  lemma ParseIntSigned(s: string, digits: string, n: nat, neg: bool, ws: set<char>)
    requires ParseDigits(digits) == Some(n)
    requires s == if neg then "-" + digits else digits
    requires Trim(s, ws) == s
    ensures ParseInt(s, ws) == Some(if neg then -(n as int) else n as int)
  {
    assert digits != [] && IsDigit(digits[0]);
    if neg {
      assert s[1..] == digits;
    }
  }

  /** `int(str(i)) == i`: the decimal rendering of every integer parses back to it. */
  lemma ParseIntOfString(i: int, ws: set<char>)
    requires '-' !in ws && forall c :: IsDigit(c) ==> c !in ws
    ensures ParseInt(IntToString(i), ws) == Some(i)
  {
    var n: nat := if i < 0 then -i else i;
    var digits := NatToString(n);
    ParseDigitsOfNat(n);
    var s := IntToString(i);
    assert s == if i < 0 then "-" + digits else digits;
    assert IsDigit(s[|s| - 1]);
    assert s[0] == '-' || IsDigit(s[0]);
    TrimPadded([], s, [], ws);
    assert [] + s + [] == s;
    ParseIntSigned(s, digits, n, i < 0, ws);
  }

  // ---------------------------------------------------------------- bytes and text

  /** `bytes.decode()` in this model: one character per byte (the Latin-1 reading). */
  function Decode(b: seq<byte>): (s: string)
    ensures |s| == |b| && forall k :: 0 <= k < |b| ==> s[k] as int == b[k] as int
  {
    seq(|b|, k requires 0 <= k < |b| => (b[k] as int) as char)
  }

  lemma DecodeAppend(a: seq<byte>, b: seq<byte>)
    ensures Decode(a + b) == Decode(a) + Decode(b)
  {
  }

  /** `str.encode()`: UTF-8. */
  function Encode(s: string): (b: seq<byte>)
    ensures |b| >= |s|
    ensures (forall k :: 0 <= k < |s| ==> s[k] as int < 128) ==> |b| == |s|
  {
    if s == [] then [] else EncodeChar(s[0]) + Encode(s[1..])
  }

  function EncodeChar(c: char): (b: seq<byte>)
    ensures 1 <= |b| <= 4
    ensures c as int < 128 <==> (|b| == 1 && b[0] as int == c as int)
  {
    var n := c as int;
    if n < 0x80 then [n as byte]
    else if n < 0x800 then [(0xC0 + n / 0x40) as byte, (0x80 + n % 0x40) as byte]
    else if n < 0x10000 then
      [(0xE0 + n / 0x1000) as byte, (0x80 + (n / 0x40) % 0x40) as byte, (0x80 + n % 0x40) as byte]
    else
      [(0xF0 + n / 0x40000) as byte, (0x80 + (n / 0x1000) % 0x40) as byte,
       (0x80 + (n / 0x40) % 0x40) as byte, (0x80 + n % 0x40) as byte]
  }

  predicate IsAscii(s: string) {
    forall k :: 0 <= k < |s| ==> s[k] as int < 128
  }

  lemma AsciiAppend(a: string, b: string)
    requires IsAscii(a) && IsAscii(b)
    ensures IsAscii(a + b)
  {
    assert forall k :: 0 <= k < |a + b| ==> (a + b)[k] == if k < |a| then a[k] else b[k - |a|];
  }

  /** On ASCII text, encoding and decoding are inverse. */
  lemma {:induction false} DecodeEncodeAscii(s: string)
    requires IsAscii(s)
    ensures Decode(Encode(s)) == s
    ensures forall k :: 0 <= k < |s| ==> Encode(s)[k] as int == s[k] as int
  {
    if s != [] {
      DecodeEncodeAscii(s[1..]);
      assert Encode(s) == [s[0] as int as byte] + Encode(s[1..]);
    }
  }

  lemma {:induction false} EncodeAppend(a: string, b: string)
    ensures Encode(a + b) == Encode(a) + Encode(b)
  {
    if a != [] {
      assert (a + b)[1..] == a[1..] + b;
      EncodeAppend(a[1..], b);
    } else {
      assert a + b == b;
    }
  }

  /** The bytes of a text as one byte per character: what encoding gives on ASCII text. */
  function Ascii(s: string): (b: seq<byte>)
    ensures |b| == |s|
  {
    seq(|s|, k requires 0 <= k < |s| => (s[k] as int % 256) as byte)
  }

  /** On ASCII text, UTF-8 encoding is one byte per character. */
  lemma {:induction false} AsciiIsEncode(s: string)
    requires IsAscii(s)
    ensures Encode(s) == Ascii(s)
  {
    if s != [] {
      AsciiIsEncode(s[1..]);
      assert Encode(s) == [s[0] as int as byte] + Encode(s[1..]);
    }
  }
}
