/** Truncating a UTF-8 string to a number of bytes. Validity is section 4 of RFC 3629. */
module Utf8Clip {

  type Byte = b: nat | b < 256

  predicate Tail(b: Byte) { 0x80 <= b <= 0xBF }

  predicate Two(a: Byte, b: Byte) {
    0xC2 <= a <= 0xDF && Tail(b)
  }

  predicate Three(a: Byte, b: Byte, c: Byte) {
    && Tail(c)
    && (|| (a == 0xE0 && 0xA0 <= b <= 0xBF)
        || (0xE1 <= a <= 0xEC && Tail(b))
        || (a == 0xED && 0x80 <= b <= 0x9F)
        || (0xEE <= a <= 0xEF && Tail(b)))
  }

  predicate Four(a: Byte, b: Byte, c: Byte, d: Byte) {
    && Tail(c) && Tail(d)
    && (|| (a == 0xF0 && 0x90 <= b <= 0xBF)
        || (0xF1 <= a <= 0xF3 && Tail(b))
        || (a == 0xF4 && 0x80 <= b <= 0x8F))
  }

  /** Length of the character `s` starts with, or 0 if it starts with none. */
  function CharLen(s: seq<Byte>): (n: nat)
    ensures n <= |s| && n <= 4
  {
    if |s| >= 1 && s[0] <= 0x7F then 1
    else if |s| >= 2 && Two(s[0], s[1]) then 2
    else if |s| >= 3 && Three(s[0], s[1], s[2]) then 3
    else if |s| >= 4 && Four(s[0], s[1], s[2], s[3]) then 4
    else 0
  }

  predicate Valid(s: seq<Byte>) {
    s == [] || (CharLen(s) > 0 && Valid(s[CharLen(s)..]))
  }

  /** The bytes of one character, as section 3 of RFC 3629 lays them out. */
  function CharBytes(c: char): (bytes: seq<Byte>)
    ensures 1 <= |bytes| <= 4
  {
    var n := c as int;
    if n < 0x80 then [n]
    else if n < 0x800 then [0xC0 + n / 0x40, 0x80 + n % 0x40]
    else if n < 0x1_0000 then [0xE0 + n / 0x1000, 0x80 + n / 0x40 % 0x40, 0x80 + n % 0x40]
    else [0xF0 + n / 0x4_0000, 0x80 + n / 0x1000 % 0x40, 0x80 + n / 0x40 % 0x40, 0x80 + n % 0x40]
  }

  function Utf8(s: string): seq<Byte> {
    if s == [] then [] else CharBytes(s[0]) + Utf8(s[1..])
  }

  function Payload2(a: int, b: int): int {
    (a - 0xC0) * 0x40 + (b - 0x80)
  }

  function Payload3(a: int, b: int, c: int): int {
    (a - 0xE0) * 0x1000 + (b - 0x80) * 0x40 + (c - 0x80)
  }

  function Payload4(a: int, b: int, c: int, d: int): int {
    (a - 0xF0) * 0x4_0000 + (b - 0x80) * 0x1000 + (c - 0x80) * 0x40 + (d - 0x80)
  }

  /** The code point the first character of valid bytes stands for: the payload bits, in order. */
  function CodePoint(s: seq<Byte>): int
    requires CharLen(s) > 0
  {
    match CharLen(s)
    case 1 => s[0]
    case 2 => Payload2(s[0], s[1])
    case 3 => Payload3(s[0], s[1], s[2])
    case _ => Payload4(s[0], s[1], s[2], s[3])
  }

  lemma Shape2(c: char)
    requires |CharBytes(c)| == 2
    ensures var b := CharBytes(c); Two(b[0], b[1]) && Payload2(b[0], b[1]) == c as int
  {
  }

  lemma Shape3(c: char)
    requires |CharBytes(c)| == 3
    ensures var b := CharBytes(c); Three(b[0], b[1], b[2]) && Payload3(b[0], b[1], b[2]) == c as int
  {
    var n := c as int;
    assert n / 0x40 == n / 0x1000 * 0x40 + n / 0x40 % 0x40 && n == n / 0x40 * 0x40 + n % 0x40;
  }

  lemma Shape4(c: char)
    requires |CharBytes(c)| == 4
    ensures var b := CharBytes(c); Four(b[0], b[1], b[2], b[3]) && Payload4(b[0], b[1], b[2], b[3]) == c as int
  {
    var n := c as int;
    assert n / 0x1000 == n / 0x4_0000 * 0x40 + n / 0x1000 % 0x40;
    assert n / 0x40 == n / 0x1000 * 0x40 + n / 0x40 % 0x40 && n == n / 0x40 * 0x40 + n % 0x40;
  }

  /** The bytes of a character are one character, whatever follows, and tell it. */
  lemma CharBytesTell(c: char, rest: seq<Byte>)
    ensures CharLen(CharBytes(c) + rest) == |CharBytes(c)|
    ensures CodePoint(CharBytes(c) + rest) == c as int
  {
    var b, s := CharBytes(c), CharBytes(c) + rest;
    assert forall i :: 0 <= i < |b| ==> s[i] == b[i];
    if |b| == 1 { assert b[0] == c as int; }
    if |b| == 2 { Shape2(c); }
    if |b| == 3 { Shape3(c); }
    if |b| == 4 { Shape4(c); }
    hide CharBytes, Payload2, Payload3, Payload4;
  }

  lemma {:induction false} Utf8Valid(s: string)
    ensures Valid(Utf8(s))
  {
    if s != [] {
      Utf8Valid(s[1..]);
      CharBytesTell(s[0], Utf8(s[1..]));
      assert Utf8(s)[|CharBytes(s[0])|..] == Utf8(s[1..]);
    }
  }

  lemma Back2(a: Byte, b: Byte)
    requires Two(a, b)
    ensures var n := Payload2(a, b); 0x80 <= n < 0x800 && 0xC0 + n / 0x40 == a && 0x80 + n % 0x40 == b
  {
  }

  lemma Back3(a: Byte, b: Byte, c: Byte)
    requires Three(a, b, c)
    ensures var n := Payload3(a, b, c);
            && (0x800 <= n < 0xD800 || 0xE000 <= n < 0x1_0000)
            && 0xE0 + n / 0x1000 == a && 0x80 + n / 0x40 % 0x40 == b && 0x80 + n % 0x40 == c
  {
    var n := Payload3(a, b, c);
    assert n / 0x40 == (a - 0xE0) as int * 0x40 + (b - 0x80);
  }

  lemma Back4(a: Byte, b: Byte, c: Byte, d: Byte)
    requires Four(a, b, c, d)
    ensures var n := Payload4(a, b, c, d);
            && 0x1_0000 <= n < 0x11_0000
            && 0xF0 + n / 0x4_0000 == a && 0x80 + n / 0x1000 % 0x40 == b
            && 0x80 + n / 0x40 % 0x40 == c && 0x80 + n % 0x40 == d
  {
    var n := Payload4(a, b, c, d);
    var high: int := (a - 0xF0) * 0x40 + (b - 0x80);
    assert n / 0x1000 == high;
    assert n / 0x40 == high * 0x40 + (c - 0x80);
  }

  /** One character of valid bytes is that of a code point that is no surrogate, in its own bytes. */
  lemma CharHasText(s: seq<Byte>) returns (c: char)
    requires CharLen(s) > 0
    ensures s[..CharLen(s)] == CharBytes(c)
  {
    hide Payload2, Payload3, Payload4;
    if CharLen(s) == 2 { Back2(s[0], s[1]); }
    if CharLen(s) == 3 { Back3(s[0], s[1], s[2]); }
    if CharLen(s) == 4 { Back4(s[0], s[1], s[2], s[3]); }
    c := CodePoint(s) as char;
  }

  /** Two texts with the same bytes are the same text. */
  lemma {:induction false} Utf8Injective(a: string, b: string)
    requires Utf8(a) == Utf8(b)
    ensures a == b
  {
    if a != [] && b != [] {
      CharBytesTell(a[0], Utf8(a[1..]));
      CharBytesTell(b[0], Utf8(b[1..]));
      assert Utf8(a)[|CharBytes(a[0])|..] == Utf8(a[1..]) && Utf8(b)[|CharBytes(b[0])|..] == Utf8(b[1..]);
      Utf8Injective(a[1..], b[1..]);
      assert a == [a[0]] + a[1..] && b == [b[0]] + b[1..];
    }
  }

  lemma {:induction false} TextOf(s: seq<Byte>) returns (text: string)
    requires Valid(s)
    ensures Utf8(text) == s
    decreases |s|
  {
    text := [];
    if s != [] {
      var c := CharHasText(s);
      var rest := TextOf(s[CharLen(s)..]);
      text := [c] + rest;
      assert text[1..] == rest;
      assert s == s[..CharLen(s)] + s[CharLen(s)..];
    }
  }

  /** Bytes are valid exactly if they are those of some text. */
  lemma ValidIffText(s: seq<Byte>)
    ensures Valid(s) <==> exists text :: Utf8(text) == s
  {
    if Valid(s) { var text := TextOf(s); }
    if text :| Utf8(text) == s { Utf8Valid(text); }
  }

  /** `str::is_char_boundary`: either end, or a byte that does not continue a character. */
  predicate IsCharBoundary(s: seq<Byte>, i: nat) {
    i == 0 || i == |s| || (i < |s| && !Tail(s[i]))
  }

  lemma DropTake(s: seq<Byte>, n: nat, i: nat)
    requires n <= i <= |s|
    ensures s[..i][n..] == s[n..][..i - n]
    ensures i < |s| ==> s[n..][i - n] == s[i]
  {
  }

  /** On valid text a cut leaves valid text exactly at a character boundary. */
  lemma {:induction false} BoundaryIffValid(s: seq<Byte>, i: nat)
    requires Valid(s) && i <= |s|
    ensures IsCharBoundary(s, i) <==> Valid(s[..i])
    decreases |s|
  {
    if 0 < i {
      var n := CharLen(s);
      if i < n {
        assert Tail(s[i]) && CharLen(s[..i]) == 0;
      } else {
        BoundaryIffValid(s[n..], i - n);
        DropTake(s, n, i);
        assert CharLen(s[..i]) == n;
      }
    }
  }

  /** No four consecutive positions are without a boundary. */
  lemma {:induction false} BoundaryNear(s: seq<Byte>, i: nat) returns (k: nat)
    requires Valid(s) && i <= |s|
    ensures i - 3 <= k <= i && IsCharBoundary(s, k)
    decreases |s|
  {
    var n := CharLen(s);
    if i == 0 || i < n {
      k := 0;
    } else {
      k := BoundaryNear(s[n..], i - n);
      BoundaryIffValid(s[n..], k);
      k := k + n;
      DropTake(s, n, k);
      assert CharLen(s[..k]) == n;
      BoundaryIffValid(s, k);
    }
  }

  function LastBoundary(s: seq<Byte>, end: nat): (k: nat)
    requires end <= |s|
    ensures k <= end && IsCharBoundary(s, k) && forall i :: k < i <= end ==> !IsCharBoundary(s, i)
  {
    if IsCharBoundary(s, end) then end else LastBoundary(s, end - 1)
  }

  function Clipped(s: seq<Byte>, max: nat): seq<Byte> {
    if |s| <= max then s else s[..LastBoundary(s, max)]
  }

  /** The longest valid prefix of at most `max` bytes. */
  ghost predicate LongestValidPrefix(r: seq<Byte>, s: seq<Byte>, max: nat) {
    && r <= s && |r| <= max && Valid(r)
    && forall k :: |r| < k <= |s| && k <= max ==> !Valid(s[..k])
  }

  /**
   `clip`: the longest valid prefix of at most `max` bytes, the whole string if it fits, and
   otherwise at most three bytes short of `max`.
   */
  method Clip(s: seq<Byte>, max: nat) returns (r: seq<Byte>)
    requires Valid(s)
    ensures LongestValidPrefix(r, s, max)
    ensures if |s| <= max then r == s else |r| >= max - 3
    ensures r == Clipped(s, max)
  {
    ClippedIsLongest(s, max);
    if |s| <= max {
      return s;
    }
    var end: nat := max;
    while !IsCharBoundary(s, end) && end > 0
      invariant 0 <= end <= max && LastBoundary(s, end) == LastBoundary(s, max)
    {
      end := end - 1;
    }
    r := s[..end];
  }

  lemma ClippedIsLongest(s: seq<Byte>, max: nat)
    requires Valid(s)
    ensures var r := Clipped(s, max);
            LongestValidPrefix(r, s, max) && if |s| <= max then r == s else |r| >= max - 3
  {
    if |s| > max {
      var end := LastBoundary(s, max);
      BoundaryIffValid(s, end);
      var k := BoundaryNear(s, max);
      forall k | end < k <= |s| && k <= max ensures !Valid(s[..k]) { BoundaryIffValid(s, k); }
    }
  }
}
