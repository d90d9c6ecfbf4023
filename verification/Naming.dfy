/**
 Names as printer and parser pairs: escaping for resource names, keys built from escaped
 names, and names that end in a generated hash.
 */
module Naming {
  import opened Sequences
  import opened Spec

  // ---------------------------------------------------------------- escaping

  predicate Plain(c: char)
  {
    'a' <= c <= 'z' || 'A' <= c <= 'Z' || '0' <= c <= '9' || c == '-'
  }

  function HexDigit(d: nat): char
    requires d < 16
  {
    if d < 10 then '0' + d as char else 'a' + (d - 10) as char
  }

  function HexValue(c: char): Option<nat>
  {
    if '0' <= c <= '9' then Some((c - '0') as nat)
    else if 'a' <= c <= 'f' then Some((c - 'a') as nat + 10)
    else None
  }

  /** Lower-case hexadecimal without leading zeros. */
  function Hex(n: nat): (s: string)
    ensures |s| > 0 && (|s| == 1 <==> n < 16) && (|s| == 2 <==> 16 <= n < 256)
  {
    if n < 16 then [HexDigit(n)] else Hex(n / 16) + [HexDigit(n % 16)]
  }

  /** Hexadecimal of at least two digits; larger numbers simply take more. */
  function Hex2(n: nat): string
  {
    if n < 16 then "0" + Hex(n) else Hex(n)
  }

  function Escape(c: char): string
  {
    if Plain(c) then [c] else "_x" + Hex2(c as nat)
  }

  function Sanitized(s: string): string
  {
    if s == "" then "" else Escape(s[0]) + Sanitized(s[1..])
  }

  lemma {:induction false} SanitizedAppend(s: string, t: string)
    ensures Sanitized(s + t) == Sanitized(s) + Sanitized(t)
  {
    if s == "" {
      assert s + t == t;
    } else {
      assert (s + t)[1..] == s[1..] + t;
      SanitizedAppend(s[1..], t);
    }
  }

  lemma SanitizedSnoc(s: string, i: nat)
    requires i < |s|
    ensures Sanitized(s[..i + 1]) == Sanitized(s[..i]) + Escape(s[i])
  {
    var one := [s[i]];
    assert s[..i + 1] == s[..i] + one;
    SanitizedAppend(s[..i], one);
    assert one[1..] == "" && Escape(s[i]) + "" == Escape(s[i]);
  }

  method SanitizeStringForResourceName(s: string) returns (b: string)
    ensures b == Sanitized(s)
  {
    b := "";
    for i := 0 to |s|
      invariant b == Sanitized(s[..i])
    {
      SanitizedSnoc(s, i);
      if Plain(s[i]) {
        b := b + [s[i]];
      } else {
        b := b + ("_x" + Hex2(s[i] as nat));
      }
    }
    assert s[..|s|] == s;
  }

  /** Reads an escape back as two hexadecimal digits. */
  function Decode(t: string): string
  {
    if t == "" then ""
    else if t[0] == '_' && |t| >= 4 && t[1] == 'x' && HexValue(t[2]).Some? && HexValue(t[3]).Some? then
      [(16 * HexValue(t[2]).value + HexValue(t[3]).value) as char] + Decode(t[4..])
    else [t[0]] + Decode(t[1..])
  }

  predicate Latin1(s: string)
  {
    forall i :: 0 <= i < |s| ==> s[i] as nat < 0x100
  }

  lemma HexDigitValue(d: nat)
    requires d < 16
    ensures HexValue(HexDigit(d)) == Some(d) && Plain(HexDigit(d))
  {
  }

  lemma {:induction false} HexChars(n: nat)
    ensures forall i :: 0 <= i < |Hex(n)| ==> HexValue(Hex(n)[i]).Some? && Plain(Hex(n)[i])
  {
    if n < 16 {
      HexDigitValue(n);
    } else {
      HexDigitValue(n % 16);
      HexChars(n / 16);
    }
  }

  lemma Hex2Digits(n: nat)
    requires n < 256
    ensures Hex2(n) == [HexDigit(n / 16), HexDigit(n % 16)]
  {
    if n >= 16 {
      assert Hex(n) == Hex(n / 16) + [HexDigit(n % 16)];
      assert Hex(n / 16) == [HexDigit(n / 16)];
    }
  }

  /** Decoding the escape of one narrow character gives it back. */
  lemma DecodeEscape(c: char, rest: string)
    requires c as nat < 0x100
    ensures Decode(Escape(c) + rest) == [c] + Decode(rest)
  {
    var t := Escape(c) + rest;
    if Plain(c) {
      assert t[1..] == rest;
    } else {
      var n := c as nat;
      Hex2Digits(n);
      HexDigitValue(n / 16);
      HexDigitValue(n % 16);
      assert t == ['_', 'x', HexDigit(n / 16), HexDigit(n % 16)] + rest;
      assert t[4..] == rest;
      assert 16 * (n / 16) + n % 16 == n;
    }
  }

  /** Decoding the escape of a wide character yields some narrow one instead. */
  lemma DecodeWide(c: char, rest: string)
    requires c as nat >= 0x100
    ensures Decode(Escape(c) + rest) != "" && Decode(Escape(c) + rest)[0] as nat < 0x100
  {
    var t, h := Escape(c) + rest, Hex(c as nat);
    HexChars(c as nat);
    assert t[0] == '_' && t[1] == 'x' && t[2] == h[0] && t[3] == h[1];
  }

  /** The decoder undoes the escaping exactly on strings of narrow characters. */
  lemma {:induction false} DecodeSanitized(s: string)
    ensures Decode(Sanitized(s)) == s <==> Latin1(s)
  {
    if s != "" {
      var t := Sanitized(s[1..]);
      DecodeSanitized(s[1..]);
      assert s == [s[0]] + s[1..];
      if s[0] as nat < 0x100 {
        DecodeEscape(s[0], t);
        assert Latin1(s[1..]) <==> Latin1(s) by {
          if Latin1(s[1..]) {
            forall i | 0 <= i < |s| ensures s[i] as nat < 0x100 {
              if i > 0 {
                assert s[i] == s[1..][i - 1];
              }
            }
          }
        }
        if Decode(Sanitized(s)) == s {
          assert Decode(t) == s[1..];
        }
      } else {
        DecodeWide(s[0], t);
      }
    }
  }

  /** Different narrow names never collide after escaping. */
  lemma SanitizedInjective(s: string, t: string)
    requires Latin1(s) && Latin1(t)
    ensures Sanitized(s) == Sanitized(t) <==> s == t
  {
    DecodeSanitized(s);
    DecodeSanitized(t);
  }

  // The digits of an escape and the characters behind it can read as the digits of another one.

  lemma {:induction false} PlainSanitized(s: string)
    requires forall i :: 0 <= i < |s| ==> Plain(s[i])
    ensures Sanitized(s) == s
  {
    if s != "" {
      PlainSanitized(s[1..]);
    }
  }

  /** Plain characters at the start of the result were there from the start. */
  lemma {:induction false} PlainPrefix(p: string, s: string)
    requires forall i :: 0 <= i < |p| ==> Plain(p[i])
    requires p <= Sanitized(s)
    ensures p <= s
  {
    if p != "" {
      assert s != "" && Sanitized(s)[0] == Escape(s[0])[0] == p[0];
      assert Sanitized(s)[1..] == Sanitized(s[1..]);
      PlainPrefix(p[1..], s[1..]);
      assert s == [s[0]] + s[1..] && p == [p[0]] + p[1..];
    }
  }

  lemma Hex2Chars(n: nat)
    ensures forall i :: 0 <= i < |Hex2(n)| ==> Plain(Hex2(n)[i])
  {
    HexChars(n);
  }

  /** The escape of the character at `i` can be read as that of `c`, together with what follows it. */
  predicate Misread(s: string, i: nat, c: char)
  {
    && i < |s| && !Plain(s[i]) && !Plain(c) && c != s[i]
    && Hex2(c as nat) <= Hex2(s[i] as nat) + s[i + 1..]
  }

  /** The string that the other reading stands for. */
  function Reread(s: string, i: nat, c: char): string
    requires Misread(s, i, c)
  {
    s[..i] + [c] + (Hex2(s[i] as nat) + s[i + 1..])[|Hex2(c as nat)|..]
  }

  lemma Associate(a: string, b: string, c: string)
    ensures a + b + c == a + (b + c)
  {
  }

  /** A character that is not plain, and what follows. */
  lemma SanitizedAt(s: string, i: nat)
    requires i < |s| && !Plain(s[i])
    ensures Sanitized(s) == Sanitized(s[..i]) + Sanitized(s[i..])
    ensures Sanitized(s[i..]) == "_x" + (Hex2(s[i] as nat) + Sanitized(s[i + 1..]))
  {
    var tail := s[i..];
    assert s == s[..i] + tail;
    SanitizedAppend(s[..i], tail);
    assert tail[0] == s[i] && tail[1..] == s[i + 1..];
    Associate("_x", Hex2(s[i] as nat), Sanitized(s[i + 1..]));
  }

  lemma RereadCollides(s: string, i: nat, c: char)
    requires Misread(s, i, c)
    ensures Reread(s, i, c) != s && Sanitized(Reread(s, i, c)) == Sanitized(s)
  {
    var d, e, t := Hex2(s[i] as nat), Hex2(c as nat), Reread(s, i, c);
    var flat := d + s[i + 1..];
    var rest := flat[|e|..];
    assert flat == e + rest;
    Hex2Chars(s[i] as nat);
    Hex2Chars(c as nat);
    PlainSanitized(d);
    PlainSanitized(e);
    SanitizedAppend(d, s[i + 1..]);
    SanitizedAppend(e, rest);
    assert d + Sanitized(s[i + 1..]) == e + Sanitized(rest);
    SanitizedAt(s, i);
    assert t[i] == c && t[..i] == s[..i] && t[i + 1..] == rest;
    SanitizedAt(t, i);
  }

  lemma SameHead(s: string, t: string)
    requires s != "" && t != "" && s[0] == t[0] && Sanitized(s) == Sanitized(t)
    ensures Sanitized(s[1..]) == Sanitized(t[1..])
  {
    var e := Escape(s[0]);
    assert Sanitized(s)[|e|..] == Sanitized(s[1..]) && Sanitized(t)[|e|..] == Sanitized(t[1..]);
  }

  lemma MisreadLater(s: string, k: nat, c: char)
    requires s != "" && Misread(s[1..], k, c)
    ensures Misread(s, k + 1, c)
  {
    assert s[1..][k] == s[k + 1] && s[1..][k + 1..] == s[k + 2..];
  }

  /** Two different strings with one result part where an escape reads in two ways. */
  lemma {:induction false} CollisionMisreads(s: string, t: string) returns (i: nat, c: char)
    requires s != t && Sanitized(s) == Sanitized(t)
    ensures Misread(s, i, c)
  {
    SanitizedNonEmpty(s);
    SanitizedNonEmpty(t);
    if s[0] == t[0] {
      assert s == [s[0]] + s[1..] && t == [t[0]] + t[1..];
      SameHead(s, t);
      var k;
      k, c := CollisionMisreads(s[1..], t[1..]);
      MisreadLater(s, k, c);
      i := k + 1;
    } else {
      i, c := 0, t[0];
      FirstDiffers(s, t);
    }
  }

  lemma FirstDiffers(s: string, t: string)
    requires s != "" && t != "" && s[0] != t[0] && Sanitized(s) == Sanitized(t)
    ensures Misread(s, 0, t[0])
  {
    assert Sanitized(s)[0] == Escape(s[0])[0] && Sanitized(t)[0] == Escape(t[0])[0];
    var d, e := Hex2(s[0] as nat), Hex2(t[0] as nat);
    SanitizedAt(s, 0);
    SanitizedAt(t, 0);
    assert Sanitized(s[..0]) == "" && Sanitized(t[..0]) == "";
    assert Sanitized(s)[2..] == d + Sanitized(s[1..]) && Sanitized(t)[2..] == e + Sanitized(t[1..]);
    Hex2Chars(s[0] as nat);
    Hex2Chars(t[0] as nat);
    PlainSanitized(d);
    SanitizedAppend(d, s[1..]);
    assert e <= Sanitized(d + s[1..]);
    PlainPrefix(e, d + s[1..]);
  }

  /** A string shares its result with another one exactly when one of its escapes can be misread. */
  lemma CollidesExactly(s: string)
    ensures (exists t :: t != s && Sanitized(t) == Sanitized(s)) <==> (exists i, c :: Misread(s, i, c))
  {
    if t :| t != s && Sanitized(t) == Sanitized(s) {
      var i, c := CollisionMisreads(s, t);
    }
    if i, c :| Misread(s, i, c) {
      RereadCollides(s, i, c);
    }
  }

  /** A narrow name collides with a wide one when a digit follows the escape. */
  lemma WideNamesCollide() returns (s: string, t: string)
    ensures s != t && Sanitized(s) == Sanitized(t) && Latin1(s)
  {
    s, t := [0x12 as char, '3'], [0x123 as char];
    assert Hex(0x12) == Hex(1) + [HexDigit(2)] == "12";
    assert Hex(0x123) == Hex(0x12) + [HexDigit(3)] == "123";
    assert Hex2(0x12) + s[1..] == "123";
    assert Misread(s, 0, t[0]) && Reread(s, 0, t[0]) == t;
    RereadCollides(s, 0, t[0]);
  }

  /** The value of a string of hexadecimal digits. */
  function Number(s: string): nat
  {
    if s == "" then 0
    else
      var v := HexValue(s[|s| - 1]);
      16 * Number(s[..|s| - 1]) + (if v.Some? then v.value else 0)
  }

  lemma {:induction false} NumberOfHex(n: nat)
    ensures Number(Hex(n)) == n && Number(Hex2(n)) == n
  {
    HexDigitValue(n % 16);
    if n < 16 {
      assert Hex(n)[..0] == "" && Number("") == 0 && Number("0") == 0;
      assert Hex2(n)[..1] == "0" && Hex2(n)[1] == HexDigit(n);
    } else {
      NumberOfHex(n / 16);
      assert Hex(n)[..|Hex(n)| - 1] == Hex(n / 16);
    }
  }

  lemma Hex300()
    ensures Hex2(0x30) == "30" && Hex2(0x300) == "300"
  {
    assert Hex(0x30) == Hex(3) + [HexDigit(0)] == "30";
    assert Hex(0x300) == Hex(0x30) + [HexDigit(0)] == "300";
  }

  lemma PrefixOf300(d: string)
    requires d <= "300" && |d| >= 2
    ensures d == "30" || d == "300"
  {
    assert d == "300"[..|d|];
  }

  /** A wide name need not collide: here a shorter reading would be that of a plain character. */
  lemma WideNameAlone(i: nat, c: char)
    ensures !Misread([0x300 as char], i, c)
  {
    var d := Hex2(c as nat);
    Hex300();
    NumberOfHex(c as nat);
    NumberOfHex(0x30);
    NumberOfHex(0x300);
    assert [0x300 as char][1..] == "";
    if i == 0 && d <= "300" {
      PrefixOf300(d);
    }
  }

  /** Exactly the names of letters, digits and dashes stay as they are. */
  lemma SanitizedUnchanged(s: string)
    ensures Sanitized(s) == s <==>
            forall c :: c in s ==> 'a' <= c <= 'z' || 'A' <= c <= 'Z' || '0' <= c <= '9' || c == '-'
  {
    if forall c :: c in s ==> Plain(c) {
      PlainSanitized(s);
    } else {
      var i :| 0 <= i < |s| && !Plain(s[i]);
      SanitizedAt(s, i);
      SanitizedNonEmpty(s[..i]);
      SanitizedNonEmpty(s[i + 1..]);
      assert |Sanitized(s)| > |s|;
    }
  }

  /** Whatever the input, the result only uses characters allowed in a resource name. */
  lemma {:induction false} SanitizedAlphabet(s: string)
    ensures forall c :: c in Sanitized(s) ==> Plain(c) || c == '_'
  {
    if s != "" {
      SanitizedAlphabet(s[1..]);
      HexChars(s[0] as nat);
      assert forall c :: c in Escape(s[0]) ==> Plain(c) || c == '_';
    }
  }

  // ------------------------------------------------------------- output keys

  /** The key of a DNS endpoint; `suffix` stands for provider name and digest. */
  function DnsEndpointKey(clusterId: string, alternative: string, suffix: string): string
  {
    (if alternative == "" then clusterId else clusterId + "_" + Sanitized(alternative)) + "_" + suffix
  }

  lemma {:induction false} SanitizedNonEmpty(s: string)
    ensures |Sanitized(s)| >= |s|
  {
    if s != "" {
      SanitizedNonEmpty(s[1..]);
    }
  }

  /** Different alternative names of one cluster, the empty one included, get different keys. */
  lemma KeysDistinct(clusterId: string, a: string, b: string, suffix: string)
    requires Latin1(a) && Latin1(b)
    ensures DnsEndpointKey(clusterId, a, suffix) == DnsEndpointKey(clusterId, b, suffix) <==> a == b
  {
    var x, y := DnsEndpointKey(clusterId, a, suffix), DnsEndpointKey(clusterId, b, suffix);
    SanitizedNonEmpty(a);
    SanitizedNonEmpty(b);
    SanitizedInjective(a, b);
    if a != "" && b != "" && x == y {
      var n := |clusterId| + 1;
      assert x[n..|x| - |suffix| - 1] == Sanitized(a);
      assert y[n..|y| - |suffix| - 1] == Sanitized(b);
    }
  }

  // ---------------------------------------------------------- name and hash

  /** The position of the last dash, or -1. */
  function LastDash(s: string): (i: int)
    ensures -1 <= i < |s|
    ensures i >= 0 ==> s[i] == '-'
    ensures forall k :: i < k < |s| ==> s[k] != '-'
  {
    if s == "" then -1
    else if s[|s| - 1] == '-' then |s| - 1
    else LastDash(s[..|s| - 1])
  }

  function MatchNameAndHash(typ: string, name: string): (string, string)
  {
    var i := LastDash(name);
    if |name| != |typ| + HASH_LENGTH + 1 || i < 0 || name[..i] != typ then ("", "")
    else (name[..i], name[i + 1..])
  }

  predicate HasNodePoolTypeOf(typ: string, name: string)
  {
    typ == MatchNameAndHash(typ, name).0
  }

  function ExtractNameAndHash(pool: string): (string, string)
    requires '-' in pool
  {
    var i := LastDash(pool);
    (pool[..i], pool[i + 1..])
  }

  predicate IsHash(h: string)
  {
    |h| == HASH_LENGTH && '-' !in h
  }

  lemma LastDashAt(name: string, h: string)
    requires '-' !in h
    ensures LastDash(name + "-" + h) == |name|
    ensures ExtractNameAndHash(name + "-" + h) == (name, h)
  {
    var s := name + "-" + h;
    assert s[|name|] == '-';
    assert s[..|name|] == name && s[|name| + 1..] == h;
  }

  /** A pool is of a non-empty type exactly when its name is the type, a dash and a hash. */
  lemma HasTypeExactly(typ: string, name: string)
    ensures typ != "" ==>
              (HasNodePoolTypeOf(typ, name) <==> exists h :: IsHash(h) && name == typ + "-" + h)
    ensures typ == "" ==> HasNodePoolTypeOf(typ, name)
  {
    if typ != "" && HasNodePoolTypeOf(typ, name) {
      var h := name[|typ| + 1..];
      assert IsHash(h) && name == typ + "-" + h;
    }
    if h :| IsHash(h) && name == typ + "-" + h {
      LastDashAt(typ, h);
    }
  }

  /** Splitting undoes appending, and the split recovers type and hash of any matching name. */
  lemma SplitInvertsAppend(typ: string, name: string)
    requires typ != "" && HasNodePoolTypeOf(typ, name)
    ensures '-' in name && ExtractNameAndHash(name) == MatchNameAndHash(typ, name)
    ensures var (t, h) := ExtractNameAndHash(name); t == typ && IsHash(h) && name == t + "-" + h
  {
    HasTypeExactly(typ, name);
    var h :| IsHash(h) && name == typ + "-" + h;
    LastDashAt(typ, h);
  }

  // ------------------------------------------------------------ config names

  function Namespace(ns: string): string
  {
    if ns == "" then "default" else ns
  }

  /** The name under which the manager keeps the config of a resource. */
  function DashedName(ns: string, name: string): string
  {
    Namespace(ns) + "-" + name
  }

  /** Two resources share a config name exactly when one namespace continues into the other's name. */
  lemma DashedNameCollision(ns: string, name: string, ns': string, name': string)
    requires |Namespace(ns)| <= |Namespace(ns')|
    ensures DashedName(ns, name) == DashedName(ns', name') <==>
            || (Namespace(ns) == Namespace(ns') && name == name')
            || exists x :: Namespace(ns') == Namespace(ns) + "-" + x && name == x + "-" + name'
  {
    var a, b := Namespace(ns), Namespace(ns');
    var s, t := DashedName(ns, name), DashedName(ns', name');
    if s == t {
      assert a == s[..|a|] && b == t[..|b|];
      assert name == s[|a| + 1..] && name' == t[|b| + 1..];
      if |a| < |b| {
        var x := b[|a| + 1..];
        assert s[|a|] == '-' && b[|a|] == t[|a|];
        assert b == a + "-" + x;
        assert name == x + "-" + name';
      }
    }
    if x :| b == a + "-" + x && name == x + "-" + name' {
      assert s == t;
    }
  }

  /** Two different resources can share a config name. */
  lemma ConfigNameShared() returns (ns: string, name: string, ns': string, name': string)
    ensures ns != ns' && name != name' && DashedName(ns, name) == DashedName(ns', name')
  {
    ns, name, ns', name' := "a", "b-c", "a-b", "c";
    assert DashedName(ns, name) == "a-b-c" == DashedName(ns', name');
  }
}
