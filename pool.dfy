/**
 * The connection pool of `WTVPRequestRouter.handle_request`: a JSON document
 * in Redis mapping each client serial number to the list of its open
 * connections, each written `"<client port>:<server port>"`. The router notes
 * a connection when it handles a request and removes it again when the
 * connection drops. The document is modelled as a map held in memory.
 */
module ConnectionPool {
  import opened Wrappers
  import opened Text

  /** The `connections` document. */
  type Pool = map<string, seq<string>>

  /** Why removing a connection raised: the serial number has no list (`KeyError`). */
  datatype PoolError = UnknownSerial

  /** `f'{client_address[1]}:{service_config["port"]}'`. */
  function PortData(clientPort: nat, serverPort: nat): string {
    NatToString(clientPort) + ":" + NatToString(serverPort)
  }

  /** Two decimal numerals are equal only for equal numbers. */
  lemma NatToStringInjective(a: nat, b: nat)
    requires NatToString(a) == NatToString(b)
    ensures a == b
  {
    DigitsValueOfNat(a);
    DigitsValueOfNat(b);
  }

  /** The port string names the connection: different port pairs give different strings. */
  lemma PortDataInjective(a: nat, b: nat, c: nat, d: nat)
    requires PortData(a, b) == PortData(c, d)
    ensures a == c && b == d
  {
    var x, y := NatToString(a), NatToString(b);
    var u, v := NatToString(c), NatToString(d);
    SplitAroundColon(x, y);
    SplitAroundColon(u, v);
    assert x + ":" + y == x + [':'] + y;
    assert u + ":" + v == u + [':'] + v;
    NatToStringInjective(a, c);
    NatToStringInjective(b, d);
  }

  /** A numeral, a colon and a numeral split at the colon into the two numerals. */
  lemma SplitAroundColon(x: string, y: string)
    requires forall k :: 0 <= k < |x| ==> IsDigit(x[k])
    requires forall k :: 0 <= k < |y| ==> IsDigit(y[k])
    ensures Split(x + [':'] + y, ':') == [x, y]
  {
    assert ':' !in x by {
      forall k | 0 <= k < |x| ensures x[k] != ':' {
        assert IsDigit(x[k]);
      }
    }
    assert ':' !in y by {
      forall k | 0 <= k < |y| ensures y[k] != ':' {
        assert IsDigit(y[k]);
      }
    }
    SplitTwo(x, ':', y);
  }

  /** `list.remove(x)` with its `ValueError` swallowed: the first occurrence of `x` goes, if there is one. */
  function RemoveFirst(xs: seq<string>, x: string): (r: seq<string>)
    ensures x !in xs ==> r == xs
  {
    if x !in xs then xs
    else
      var i := FirstIndex(xs, x);
      xs[..i] + xs[i + 1..]
  }

  /** Removal takes exactly one occurrence of `x` away and keeps the rest. */
  lemma RemoveFirstCounts(xs: seq<string>, x: string)
    ensures multiset(RemoveFirst(xs, x)) == multiset(xs) - multiset{x}
  {
    if x in xs {
      CutCounts(xs, FirstIndex(xs, x));
    }
  }

  /** Cutting element `i` out of a list takes one occurrence of it away. */
  lemma CutCounts<T>(xs: seq<T>, i: nat)
    requires i < |xs|
    ensures multiset(xs[..i] + xs[i + 1..]) == multiset(xs) - multiset{xs[i]}
  {
    assert xs == xs[..i] + [xs[i]] + xs[i + 1..];
  }

  /** Removal keeps the order of what remains: the list is the remainder with `x` put back at its first position. */
  lemma RemoveFirstReinsert(xs: seq<string>, x: string)
    requires x in xs
    ensures var i := FirstIndex(xs, x);
            xs == RemoveFirst(xs, x)[..i] + [x] + RemoveFirst(xs, x)[i..]
  {
    Reinsert(xs, FirstIndex(xs, x));
  }

  /** Cutting element `i` out of a list and putting it back gives the list. */
  lemma Reinsert<T>(xs: seq<T>, i: nat)
    requires i < |xs|
    ensures var r := xs[..i] + xs[i + 1..];
            xs == r[..i] + [xs[i]] + r[i..]
  {
    var a, b := xs[..i], xs[i + 1..];
    assert (a + b)[..i] == a && (a + b)[i..] == b;
    assert xs == a + [xs[i]] + b;
  }

  /**
   * Noting a connection (the intended effect of server.py's tracking): the
   * serial number gets a list if it had none, and the port string is appended
   * unless the list already holds it.
   */
  function Track(pool: Pool, ssid: string, portdata: string): Pool {
    var list := if ssid in pool then pool[ssid] else [];
    if portdata in list then pool else pool[ssid := list + [portdata]]
  }

  /** After tracking, the serial number's list holds the connection; every other serial number is untouched. */
  lemma TrackRecords(pool: Pool, ssid: string, portdata: string)
    ensures var r := Track(pool, ssid, portdata);
            && ssid in r && portdata in r[ssid]
            && r.Keys == pool.Keys + {ssid}
            && (forall k :: k in pool && k != ssid ==> r[k] == pool[k])
            && (ssid in pool ==> pool[ssid] <= r[ssid] && |r[ssid]| <= |pool[ssid]| + 1)
  {
    var list := if ssid in pool then pool[ssid] else [];
    if portdata !in list {
      assert (list + [portdata])[|list|] == portdata;
    }
  }

  /** Tracking the same connection twice is tracking it once. */
  lemma TrackIdempotent(pool: Pool, ssid: string, portdata: string)
    ensures Track(Track(pool, ssid, portdata), ssid, portdata) == Track(pool, ssid, portdata)
  {
    TrackRecords(pool, ssid, portdata);
  }

  predicate NoDuplicates(xs: seq<string>) {
    forall i, j :: 0 <= i < j < |xs| ==> xs[i] != xs[j]
  }

  /** Tracking never lists a connection twice. */
  lemma TrackKeepsListsDistinct(pool: Pool, ssid: string, portdata: string)
    requires forall k :: k in pool ==> NoDuplicates(pool[k])
    ensures var r := Track(pool, ssid, portdata);
            forall k :: k in r ==> NoDuplicates(r[k])
  {
    var list := if ssid in pool then pool[ssid] else [];
    var r := Track(pool, ssid, portdata);
    if portdata !in list {
      var grown := list + [portdata];
      forall i, j | 0 <= i < j < |grown| ensures grown[i] != grown[j] {
        if j == |list| {
          assert grown[i] == list[i];
        } else {
          assert grown[i] == list[i] && grown[j] == list[j];
        }
      }
      assert r[ssid] == grown;
    }
  }

  /**
   * `garbage_collection`: with no serial number nothing happens; otherwise the
   * connection is removed from the serial number's list, and a serial number
   * without a list raises `KeyError` (the removal's own error is swallowed,
   * the later lookup's is not) with the document unchanged.
   */
  function Collect(pool: Pool, ssid: string, portdata: string): (r: Result<Pool, PoolError>)
    ensures r.Err? <==> ssid != "" && ssid !in pool
  {
    if ssid == "" then Ok(pool)
    else if ssid !in pool then Err(UnknownSerial)
    else Ok(pool[ssid := RemoveFirst(pool[ssid], portdata)])
  }

  /** Collection changes only the serial number's list, by one removal. */
  lemma CollectRemovesOne(pool: Pool, ssid: string, portdata: string)
    requires ssid != "" && ssid in pool
    ensures var r := Collect(pool, ssid, portdata).value;
            && r.Keys == pool.Keys
            && multiset(r[ssid]) == multiset(pool[ssid]) - multiset{portdata}
            && (forall k :: k in pool && k != ssid ==> r[k] == pool[k])
  {
    RemoveFirstCounts(pool[ssid], portdata);
  }

  /** Dropping a connection that was tracked while new undoes the tracking, apart from an empty list left behind. */
  lemma CollectUndoesTrack(pool: Pool, ssid: string, portdata: string)
    requires ssid != ""
    requires ssid in pool ==> portdata !in pool[ssid]
    ensures Collect(Track(pool, ssid, portdata), ssid, portdata)
         == Ok(pool[ssid := if ssid in pool then pool[ssid] else []])
  {
    var list := if ssid in pool then pool[ssid] else [];
    var grown := list + [portdata];
    assert Track(pool, ssid, portdata) == pool[ssid := grown];
    assert portdata in grown by {
      assert grown[|list|] == portdata;
    }
    assert FirstIndex(grown, portdata) == |list| by {
      assert list + [portdata] + [] == grown;
      FirstIndexAt(list, portdata, []);
    }
    assert grown[..|list|] + grown[|list| + 1..] == list;
    assert RemoveFirst(grown, portdata) == list;
    assert pool[ssid := grown][ssid := list] == pool[ssid := list];
  }

  // ---------------------------------------------------------------- as written

  /** The document as stored: a list or `null`. */
  type StoredPool = map<string, Option<seq<string>>>

  /**
   * Tracking as server.py:164-172 writes it: the result of `list.append`,
   * which is `None`, is stored as the serial number's list.
   */
  function TrackAsWritten(pool: StoredPool, ssid: string, portdata: string): StoredPool {
    var p1 := if ssid !in pool then pool[ssid := Some([])] else pool;
    var p2 := if p1[ssid].None? then p1[ssid := Some([])] else p1;
    if portdata !in p2[ssid].value then p2[ssid := None] else pool
  }

  /** As written, a connection that is not yet listed is never recorded: its serial number ends with `null`. */
  lemma TrackAsWrittenNeverRecords(pool: StoredPool, ssid: string, portdata: string)
    requires !(ssid in pool && pool[ssid].Some? && portdata in pool[ssid].value)
    ensures ssid in TrackAsWritten(pool, ssid, portdata)
    ensures TrackAsWritten(pool, ssid, portdata)[ssid] == None
  {
  }

  /** Two requests on one connection still leave nothing recorded. */
  lemma TrackAsWrittenTwice(pool: StoredPool, ssid: string, portdata: string)
    requires !(ssid in pool && pool[ssid].Some? && portdata in pool[ssid].value)
    ensures TrackAsWritten(TrackAsWritten(pool, ssid, portdata), ssid, portdata)[ssid] == None
  {
    TrackAsWrittenNeverRecords(pool, ssid, portdata);
    TrackAsWrittenNeverRecords(TrackAsWritten(pool, ssid, portdata), ssid, portdata);
  }
}
