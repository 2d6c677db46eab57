/** UUIDs, and the two ways the storage dialects order them: Postgres compares the
    16 raw bytes (here, the 128-bit number they spell), MySQL compares the 36-character
    lowercase text of section 4 of RFC 9562. */
module Uuids {
  import Lexicographic

  const SPACE: nat := 0x1_0000_0000_0000_0000_0000_0000_0000_0000

  type Uuid = x: nat | x < SPACE witness 0

  const NIL: Uuid := 0

  /** The n least significant hexadecimal digits of x, most significant first. */
  function Digits(x: nat, n: nat): (ds: seq<nat>)
    ensures |ds| == n && forall i :: 0 <= i < n ==> ds[i] < 16
  {
    if n == 0 then [] else Digits(x / 16, n - 1) + [x % 16]
  }

  function HexChar(d: nat): char
    requires d < 16
  {
    "0123456789abcdef"[d]
  }

  function Hex(ds: seq<nat>): (s: string)
    requires forall i :: 0 <= i < |ds| ==> ds[i] < 16
    ensures |s| == |ds|
  {
    seq(|ds|, i requires 0 <= i < |ds| => HexChar(ds[i]))
  }

  function Dash(s: string, at: nat): (r: string)
    requires at <= |s|
    ensures |r| == |s| + 1
  {
    s[..at] + "-" + s[at..]
  }

  /** Groups of 8, 4, 4, 4 and 12 digits separated by dashes, put in from the right. */
  function Text(x: Uuid): (s: string)
    ensures |s| == 36
  {
    Dash(Dash(Dash(Dash(Hex(Digits(x, 32)), 20), 16), 12), 8)
  }

  function Weights(s: string, w: char -> int): (r: seq<int>)
    ensures |r| == |s| && forall i :: 0 <= i < |s| ==> r[i] == w(s[i])
  {
    seq(|s|, i requires 0 <= i < |s| => w(s[i]))
  }

  /** A collation that orders the sixteen lowercase hexadecimal digits by value. */
  ghost predicate OrdersHex(w: char -> int)
  {
    forall d, e :: 0 <= d < e < 16 ==> w(HexChar(d)) < w(HexChar(e))
  }

  /** ascii_general_ci: letters weigh as their capitals. */
  function AsciiGeneralCi(c: char): int
  {
    if 'a' <= c <= 'z' then c as int - 32 else c as int
  }

  function AsciiBin(c: char): int { c as int }

  lemma CollationsOrderHex()
    ensures OrdersHex(AsciiGeneralCi) && OrdersHex(AsciiBin)
  {
    forall d, e | 0 <= d < e < 16
      ensures AsciiGeneralCi(HexChar(d)) < AsciiGeneralCi(HexChar(e))
      ensures AsciiBin(HexChar(d)) < AsciiBin(HexChar(e))
    {
      HexCharCode(d);
      HexCharCode(e);
    }
  }

  lemma HexCharCode(d: nat)
    requires d < 16
    ensures HexChar(d) as int == if d < 10 then 48 + d else 87 + d
  {
    var s := "0123456789abcdef";
    assert s[d] == HexChar(d);
  }

  function Power16(n: nat): nat { if n == 0 then 1 else 16 * Power16(n - 1) }

  /** Numbers of n hexadecimal digits are ordered as their digit strings. */
  lemma {:induction false} DigitsOrder(x: nat, y: nat, n: nat)
    requires x < Power16(n) && y < Power16(n)
    ensures x < y <==> Lexicographic.Less(Digits(x, n), Digits(y, n))
    decreases n
  {
    if n > 0 {
      var dx, dy := Digits(x / 16, n - 1), Digits(y / 16, n - 1);
      DigitsOrder(x / 16, y / 16, n - 1);
      DigitsOrder(y / 16, x / 16, n - 1);
      Lexicographic.Split(dx, [x % 16], dy, [y % 16]);
      Lexicographic.Trichotomous(dx, dy);
      Lexicographic.Irreflexive(dx);
    }
  }

  lemma {:induction false} HexOrder(ds: seq<nat>, es: seq<nat>, w: char -> int)
    requires OrdersHex(w) && |ds| == |es|
    requires forall i :: 0 <= i < |ds| ==> ds[i] < 16 && es[i] < 16
    ensures Lexicographic.Less(Weights(Hex(ds), w), Weights(Hex(es), w)) <==> Lexicographic.Less(ds, es)
  {
    if ds != [] {
      var a, b := Weights(Hex(ds), w), Weights(Hex(es), w);
      assert a[1..] == Weights(Hex(ds[1..]), w);
      assert b[1..] == Weights(Hex(es[1..]), w);
      HexOrder(ds[1..], es[1..], w);
      assert a[0] == w(HexChar(ds[0])) && b[0] == w(HexChar(es[0]));
    }
  }

  lemma DashOrder(s: string, t: string, at: nat, w: char -> int)
    requires |s| == |t| && at <= |s|
    ensures Lexicographic.Less(Weights(Dash(s, at), w), Weights(Dash(t, at), w))
       <==> Lexicographic.Less(Weights(s, w), Weights(t, w))
  {
    var a, b, c, d := Weights(s[..at], w), Weights(s[at..], w), Weights(t[..at], w), Weights(t[at..], w);
    var dash := [w('-')];
    assert Weights(s, w) == a + b && Weights(t, w) == c + d;
    assert Weights(Dash(s, at), w) == a + (dash + b);
    assert Weights(Dash(t, at), w) == c + (dash + d);
    Lexicographic.Split(a, b, c, d);
    Lexicographic.Split(a, dash + b, c, dash + d);
    Lexicographic.Split(dash, b, dash, d);
    Lexicographic.Irreflexive(dash);
  }

  lemma SpaceIsPower()
    ensures SPACE == Power16(32)
  {
    assert Power16(8) == 0x1_0000_0000;
    assert Power16(16) == 0x1_0000_0000_0000_0000;
    assert Power16(24) == 0x1_0000_0000_0000_0000_0000_0000;
  }

  /** The two dialects agree on the order of identifiers, whatever the collation,
      as long as it orders the hexadecimal digits by value. */
  lemma TextOrdersAsBytes(x: Uuid, y: Uuid, w: char -> int)
    requires OrdersHex(w)
    ensures x < y <==> Lexicographic.Less(Weights(Text(x), w), Weights(Text(y), w))
  {
    SpaceIsPower();
    var dx, dy := Digits(x, 32), Digits(y, 32);
    DigitsOrder(x, y, 32);
    HexOrder(dx, dy, w);
    var x0, y0 := Hex(dx), Hex(dy);
    var x1, y1 := Dash(x0, 20), Dash(y0, 20);
    var x2, y2 := Dash(x1, 16), Dash(y1, 16);
    var x3, y3 := Dash(x2, 12), Dash(y2, 12);
    DashOrder(x0, y0, 20, w);
    DashOrder(x1, y1, 16, w);
    DashOrder(x2, y2, 12, w);
    DashOrder(x3, y3, 8, w);
  }

  lemma TextInjective(x: Uuid, y: Uuid)
    ensures Text(x) == Text(y) <==> x == y
  {
    CollationsOrderHex();
    TextOrdersAsBytes(x, y, AsciiBin);
    TextOrdersAsBytes(y, x, AsciiBin);
    Lexicographic.Irreflexive(Weights(Text(x), AsciiBin));
  }
}
