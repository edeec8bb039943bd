/**
 * `return_service`: the value of a `wtv-service` header, built from a service
 * name, host and port, five optional flags and an optional connection count.
 */
module Service {
  import opened Text

  /** The flags a service can advertise, as keyword arguments of `return_service`. */
  datatype Flags = Flags(dontEncryptRequests: bool, useHttp: bool, wideOpen: bool, useServiceCookies: bool, noMeter: bool)

  /** The flag total: 1, 2, 4, 10 and 40 (decimal, as the source writes them) for the flags that are set. */
  function FlagTotal(f: Flags): nat {
    (if f.dontEncryptRequests then 1 else 0) + (if f.useHttp then 2 else 0) + (if f.wideOpen then 4 else 0)
    + (if f.useServiceCookies then 10 else 0) + (if f.noMeter then 40 else 0)
  }

  /** No flag text appears exactly when no flag is set. */
  lemma FlagTotalZero(f: Flags)
    ensures FlagTotal(f) == 0 <==> f == Flags(false, false, false, false, false)
  {
  }

  /** The weights never combine to the same total, so the total determines which flags are set. */
  lemma FlagTotalInjective(f: Flags, g: Flags)
    requires FlagTotal(f) == FlagTotal(g)
    ensures f == g
  {
    var low := FlagTotal(f) % 10;
    assert low == (if f.dontEncryptRequests then 1 else 0) + (if f.useHttp then 2 else 0) + (if f.wideOpen then 4 else 0);
    assert low == (if g.dontEncryptRequests then 1 else 0) + (if g.useHttp then 2 else 0) + (if g.wideOpen then 4 else 0);
  }

  /** The flag text as written: a fixed ` flags=0x00000011`, whatever flags are set. */
  function FlagText(total: int): string {
    if total == 0 then "" else " flags=0x" + "00000011"
  }

  /** The connections text: ` connections=N`, absent for the default -1. */
  function ConnectionsText(connections: int): string {
    if connections == -1 then "" else " connections=" + IntToString(connections)
  }

  /** `return_service(name, port, host, ...)` as written. */
  function ServiceText(name: string, port: int, host: string, f: Flags, connections: int): string {
    "name=" + name + " host=" + host + " port=" + IntToString(port) + FlagText(FlagTotal(f)) + ConnectionsText(connections)
  }

  /** The field an optional text ` key=value` adds to the header: none for the empty text. */
  function OptionalField<T>(t: seq<T>): seq<seq<T>> {
    if t == [] then [] else [t[1..]]
  }

  /** An optional text is empty or one separator followed by a separator-free field. */
  predicate IsOptionalText<T(==)>(t: seq<T>, sep: T) {
    t == [] || (t[0] == sep && sep !in t[1..])
  }

  lemma SplitOptional<T>(x: seq<T>, t: seq<T>, sep: T)
    requires sep !in x && IsOptionalText(t, sep)
    ensures Split(x + t, sep) == [x] + OptionalField(t)
  {
    if t == [] {
      assert x + t == x;
      SplitMany(x, sep);
    } else {
      assert Split(x + t, sep) == [x] + Split(t[1..], sep) by {
        assert x + t == x + [sep] + t[1..];
        SplitCons(x, sep, t[1..]);
      }
      SplitMany(t[1..], sep);
    }
  }

  /** A separated optional text after a field, then another optional text. */
  lemma SplitOptionalThen<T>(x: seq<T>, y: seq<T>, t2: seq<T>, sep: T)
    requires sep !in x && sep !in y && IsOptionalText(t2, sep)
    ensures Split(x + ([sep] + y) + t2, sep) == [x] + ([y] + OptionalField(t2))
  {
    assert x + ([sep] + y) + t2 == x + [sep] + (y + t2);
    SplitCons(x, sep, y + t2);
    SplitOptional(y, t2, sep);
  }

  lemma SplitOptionals<T>(x: seq<T>, t1: seq<T>, t2: seq<T>, sep: T)
    requires sep !in x && IsOptionalText(t1, sep) && IsOptionalText(t2, sep)
    ensures Split(x + t1 + t2, sep) == [x] + (OptionalField(t1) + OptionalField(t2))
  {
    if t1 == [] {
      assert x + t1 + t2 == x + t2;
      SplitOptional(x, t2, sep);
    } else {
      assert t1 == [sep] + t1[1..];
      SplitOptionalThen(x, t1[1..], t2, sep);
    }
  }

  /** Two separated fields in front of a text split into `tail`. */
  lemma SplitTwoFields<T>(a: seq<T>, b: seq<T>, rest: seq<T>, sep: T, tail: seq<seq<T>>)
    requires sep !in a && sep !in b && Split(rest, sep) == tail
    ensures Split(a + [sep] + (b + [sep] + rest), sep) == [a, b] + tail
  {
    SplitCons(b, sep, rest);
    SplitCons(a, sep, b + [sep] + rest);
    assert [a] + ([b] + tail) == [a, b] + tail;
  }

  /** Three separated fields followed by two optional texts. */
  lemma SplitFields<T>(a: seq<T>, b: seq<T>, c: seq<T>, t1: seq<T>, t2: seq<T>, sep: T)
    requires sep !in a && sep !in b && sep !in c && IsOptionalText(t1, sep) && IsOptionalText(t2, sep)
    ensures Split(a + [sep] + (b + [sep] + (c + t1 + t2)), sep) == [a, b, c] + (OptionalField(t1) + OptionalField(t2))
  {
    var o := OptionalField(t1) + OptionalField(t2);
    SplitOptionals(c, t1, t2, sep);
    SplitTwoFields(a, b, c + t1 + t2, sep, [c] + o);
    assert [a, b] + ([c] + o) == [a, b, c] + o;
  }

  /**
   * The shape of a service header: a two-part field, two two-part fields each
   * led by a separator, then two optional texts.
   */
  lemma SplitHeaderShape<T>(a1: seq<T>, a2: seq<T>, b1: seq<T>, b2: seq<T>, c1: seq<T>, c2: seq<T>,
                            t1: seq<T>, t2: seq<T>, sep: T)
    requires sep !in a1 && sep !in a2 && sep !in b2 && sep !in c2
    requires IsOptionalText(b1, sep) && b1 != [] && IsOptionalText(c1, sep) && c1 != []
    requires IsOptionalText(t1, sep) && IsOptionalText(t2, sep)
    ensures Split(a1 + a2 + b1 + b2 + c1 + c2 + t1 + t2, sep)
         == [a1 + a2, b1[1..] + b2, c1[1..] + c2] + (OptionalField(t1) + OptionalField(t2))
  {
    assert b1 == [sep] + b1[1..] && c1 == [sep] + c1[1..];
    Regroup(a1, a2, b1[1..], b2, c1[1..], c2, t1, t2, sep);
    SplitFields(a1 + a2, b1[1..] + b2, c1[1..] + c2, t1, t2, sep);
  }

  /** Regrouping the pieces of a service header around its separators. */
  lemma Regroup<T>(a1: seq<T>, a2: seq<T>, b1: seq<T>, b2: seq<T>, c1: seq<T>, c2: seq<T>, t1: seq<T>, t2: seq<T>, sep: T)
    ensures a1 + a2 + ([sep] + b1) + b2 + ([sep] + c1) + c2 + t1 + t2
         == (a1 + a2) + [sep] + ((b1 + b2) + [sep] + ((c1 + c2) + t1 + t2))
  {
  }

  /**
   * A service header is its fields joined by single spaces, so when the name
   * and the host hold no space, splitting it at the spaces gives the fields
   * back, the flag and connections fields only when present: a receiver can
   * read the header field by field.
   */
  lemma ServiceTextFields(name: string, port: int, host: string, f: Flags, connections: int)
    requires ' ' !in name && ' ' !in host
    ensures Split(ServiceText(name, port, host, f, connections), ' ')
         == ["name=" + name, "host=" + host, "port=" + IntToString(port)]
            + (OptionalField(FlagText(FlagTotal(f))) + OptionalField(ConnectionsText(connections)))
  {
    var p := IntToString(port);
    var ft := FlagText(FlagTotal(f));
    var ct := ConnectionsText(connections);
    IntToStringNoSpace(port);
    IntToStringNoSpace(connections);
    assert IsOptionalText(ft, ' ');
    assert IsOptionalText(ct, ' ') by {
      if ct != [] {
        assert ct[1..] == "connections=" + IntToString(connections);
      }
    }
    assert ' ' !in "name=";
    assert IsOptionalText(" host=", ' ') && " host="[1..] == "host=";
    assert IsOptionalText(" port=", ' ') && " port="[1..] == "port=";
    SplitHeaderShape("name=", name, " host=", host, " port=", p, ft, ct, ' ');
  }

  lemma IntToStringNoSpace(i: int)
    ensures ' ' !in IntToString(i)
  {
    NatToStringNoSpace(if i < 0 then -i else i);
  }

  lemma NatToStringNoSpace(n: nat)
    ensures ' ' !in NatToString(n)
  {
  }

  /**
   * As written, the header depends on the flags only through whether any is
   * set: two flag sets give the same header exactly when both or neither are
   * empty, so every non-empty flag set gives one header (the defect in the
   * "Findings" table).
   */
  lemma FlagTextCollides(name: string, port: int, host: string, f: Flags, g: Flags, connections: int)
    ensures ServiceText(name, port, host, f, connections) == ServiceText(name, port, host, g, connections)
            <==> (FlagTotal(f) == 0 <==> FlagTotal(g) == 0)
  {
    if (FlagTotal(f) == 0) != (FlagTotal(g) == 0) {
      assert |ServiceText(name, port, host, f, connections)| != |ServiceText(name, port, host, g, connections)|;
    }
  }

  /** `return_service`: the flag total accumulated with `+=`, then the optional texts, then one concatenation. */
  method ReturnService(name: string, port: int, host: string, f: Flags, connections: int) returns (r: string)
    ensures r == ServiceText(name, port, host, f, connections)
  {
    var flags := 0;
    if f.dontEncryptRequests {
      flags := flags + 1;
    }
    if f.useHttp {
      flags := flags + 2;
    }
    if f.wideOpen {
      flags := flags + 4;
    }
    if f.useServiceCookies {
      flags := flags + 10;
    }
    if f.noMeter {
      flags := flags + 40;
    }
    var strflags := "";
    var constr := "";
    if flags != 0 {
      strflags := " flags=0x" + "00000011";
    }
    if connections != -1 {
      constr := " connections=" + IntToString(connections);
    }
    r := "name=" + name + " host=" + host + " port=" + IntToString(port) + strflags + constr;
  }

  // ---------------------------------------------------------------- the evidently intended flag text

  /** `z` zeros in front of the digit string `s`. */
  function LeadingZeros(z: nat, s: string): (r: string)
    requires forall k :: 0 <= k < |s| ==> IsDigit(s[k])
    ensures |r| == z + |s| && forall k :: 0 <= k < |r| ==> IsDigit(r[k])
  {
    seq(z, k => '0') + s
  }

  /** `format(n, "08")`: the decimal digits of `n`, padded with zeros on the left to eight characters. */
  function Pad8(n: nat): (r: string)
    ensures |r| >= 8 && forall k :: 0 <= k < |r| ==> IsDigit(r[k])
  {
    var s := NatToString(n);
    if |s| < 8 then LeadingZeros(8 - |s|, s) else s
  }

  /**
   * The flag text with the flag total in place of the literal 11. With the
   * weights 1, 2, 4, 10 and 40 the decimal digits of the total read as the hex
   * bit mask 0x01, 0x02, 0x04, 0x10, 0x40 the `0x` prefix announces.
   */
  function FlagTextFixed(total: nat): string {
    if total == 0 then "" else " flags=0x" + Pad8(total)
  }

  /** `return_service` with the corrected flag text. */
  function ServiceTextFixed(name: string, port: int, host: string, f: Flags, connections: int): string {
    "name=" + name + " host=" + host + " port=" + IntToString(port) + FlagTextFixed(FlagTotal(f)) + ConnectionsText(connections)
  }

  /** Leading zeros do not change the value of a digit string. */
  lemma {:induction false} DigitsValueZeros(z: nat, s: string)
    requires forall k :: 0 <= k < |s| ==> IsDigit(s[k])
    ensures DigitsValue(LeadingZeros(z, s)) == DigitsValue(s)
    decreases |s|, z
  {
    var t := LeadingZeros(z, s);
    if s == [] {
      if z > 0 {
        DigitsValueZeros(z - 1, s);
        assert t[..|t| - 1] == LeadingZeros(z - 1, s);
      }
    } else {
      DigitsValueZeros(z, s[..|s| - 1]);
      assert t[..|t| - 1] == LeadingZeros(z, s[..|s| - 1]);
      assert t[|t| - 1] == s[|s| - 1];
    }
  }

  /** The padded digits read back as the number. */
  lemma Pad8Value(n: nat)
    ensures DigitsValue(Pad8(n)) == n
  {
    var s := NatToString(n);
    DigitsValueOfNat(n);
    if |s| < 8 {
      DigitsValueZeros(8 - |s|, s);
    }
  }

  /** The corrected flag text tells every flag set apart, including the empty one. */
  lemma FlagTextFixedInjective(f: Flags, g: Flags)
    requires FlagTextFixed(FlagTotal(f)) == FlagTextFixed(FlagTotal(g))
    ensures f == g
  {
    var a, b := FlagTotal(f), FlagTotal(g);
    if a != 0 && b != 0 {
      var pre := " flags=0x";
      assert Pad8(a) == FlagTextFixed(a)[|pre|..];
      assert Pad8(b) == FlagTextFixed(b)[|pre|..];
      Pad8Value(a);
      Pad8Value(b);
    } else {
      assert FlagTextFixed(a) == "" <==> a == 0;
      assert FlagTextFixed(b) == "" <==> b == 0;
    }
    FlagTotalInjective(f, g);
  }

  /**
   * The corrected text agrees with the written one where the written one is
   * right: with no flag set, and for the flags whose total is the literal 11
   * (`DontEncryptRequests` and `UseServiceCookies`, the bit mask 0x11).
   */
  lemma FixedAgreesWhereWrittenIsRight(name: string, port: int, host: string, connections: int)
    ensures ServiceTextFixed(name, port, host, Flags(false, false, false, false, false), connections)
         == ServiceText(name, port, host, Flags(false, false, false, false, false), connections)
    ensures ServiceTextFixed(name, port, host, Flags(true, false, false, true, false), connections)
         == ServiceText(name, port, host, Flags(true, false, false, true, false), connections)
  {
    assert NatToString(11) == "11";
    assert Pad8(11) == "00000011";
  }
}
