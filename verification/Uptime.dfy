/** The printed uptime, and that it can be read back. */
module Uptime {
  import opened Text

  function Digit(d: nat): char
    requires d < 10
  {
    ('0' as int + d) as char
  }

  /** Decimal digits, as `{}` prints them. */
  function Digits(n: nat): (s: string)
    ensures s != [] && (n >= 10 <==> |s| > 1)
    ensures forall i :: 0 <= i < |s| ==> '0' <= s[i] <= '9'
  {
    if n < 10 then [Digit(n)] else Digits(n / 10) + [Digit(n % 10)]
  }

  datatype Unit = Day | Hr | Min | Sec

  datatype Part = Part(value: nat, unit: Unit)

  function Label(unit: Unit): (s: string)
    ensures s != []
  {
    match unit
    case Day => "day"
    case Hr => "hr"
    case Min => "min"
    case Sec => "sec"
  }

  function Length(unit: Unit): nat {
    match unit
    case Day => 86400
    case Hr => 3600
    case Min => 60
    case Sec => 1
  }

  function Name(p: Part): (s: string)
    ensures s != []
  {
    Label(p.unit) + if p.value != 1 then "s" else ""
  }

  function Shown(p: Part): string {
    Digits(p.value) + " " + Name(p)
  }

  function Texts(ps: seq<Part>): (ts: seq<string>)
    ensures |ts| == |ps|
  {
    seq(|ps|, i requires 0 <= i < |ps| => Shown(ps[i]))
  }

  function Seconds(ps: seq<Part>): nat {
    if ps == [] then 0 else ps[0].value * Length(ps[0].unit) + Seconds(ps[1..])
  }

  function NonZero(value: nat, unit: Unit): seq<Part> {
    if value > 0 then [Part(value, unit)] else []
  }

  /** The non-zero parts, largest unit first. */
  function Parts(total: nat): seq<Part> {
    NonZero(total / 86400, Day)
    + NonZero(total % 86400 / 3600, Hr)
    + NonZero(total % 3600 / 60, Min)
    + NonZero(total % 60, Sec)
  }

  /** Appends the part, unless it is zero. */
  method Push(parts: seq<string>, value: nat, unit: Unit) returns (r: seq<string>)
    ensures r == parts + Texts(NonZero(value, unit))
  {
    TextsOfNonZero(value, unit);
    r := parts;
    if value > 0 {
      r := r + [Digits(value) + " " + (Label(unit) + if value != 1 then "s" else "")];
    }
  }

  method FormatUptime(total: nat) returns (s: string)
    ensures s == Join(Texts(Parts(total)))
    ensures Tells(s, total)
  {
    hide Tells;
    UptimeTells(total);
    if total == 0 {
      return "";
    }
    var days := total / 86400;
    var rem := total % 86400;
    var hours := rem / 3600;
    rem := rem % 3600;
    var minutes := rem / 60;
    var seconds := rem % 60;
    var parts := Push([], days, Day);
    parts := Push(parts, hours, Hr);
    parts := Push(parts, minutes, Min);
    parts := Push(parts, seconds, Sec);
    Remainders(total);
    FourParts(NonZero(days, Day), NonZero(hours, Hr), NonZero(minutes, Min), NonZero(seconds, Sec));
    s := Join(parts);
  }

  lemma FourParts(d: seq<Part>, h: seq<Part>, m: seq<Part>, s: seq<Part>)
    ensures [] + Texts(d) + Texts(h) + Texts(m) + Texts(s) == Texts(d + h + m + s)
  {
    assert [] + Texts(d) == Texts(d);
    TextsAppend(d, h);
    TextsAppend(d + h, m);
    TextsAppend(d + h + m, s);
  }

  lemma TextsOfNonZero(value: nat, unit: Unit)
    ensures Texts(NonZero(value, unit)) == if value > 0 then [Shown(Part(value, unit))] else []
  {
  }

  lemma TextsAppend(ps: seq<Part>, qs: seq<Part>)
    ensures Texts(ps + qs) == Texts(ps) + Texts(qs)
  {
  }

  lemma WholeHoursMore(hours: nat, rest: nat)
    ensures (hours * 3600 + rest) % 3600 == rest % 3600
  {
    var q := rest / 3600;
    assert hours * 3600 + rest == (hours + q) * 3600 + rest % 3600;
  }

  lemma WholeMinutesMore(minutes: nat, rest: nat)
    ensures (minutes * 60 + rest) % 60 == rest % 60
  {
    var q := rest / 60;
    assert minutes * 60 + rest == (minutes + q) * 60 + rest % 60;
  }

  lemma Remainders(total: nat)
    ensures total % 86400 % 3600 == total % 3600
    ensures total % 3600 % 60 == total % 60
  {
    WholeHoursMore(total / 86400 * 24, total % 86400);
    WholeMinutesMore(total / 3600 * 60, total % 3600);
  }

  // ----- what the text says

  /** The number a string of decimal digits stands for. */
  ghost function NumberOf(s: string): int {
    if s == "" then 0 else NumberOf(s[..|s| - 1]) * 10 + (s[|s| - 1] as int - '0' as int)
  }

  lemma {:induction false} DigitsTell(n: nat)
    ensures NumberOf(Digits(n)) == n && (n > 0 ==> Digits(n)[0] != '0')
  {
    if n >= 10 {
      DigitsTell(n / 10);
      assert Digits(n)[..|Digits(n)| - 1] == Digits(n / 10);
    } else {
      assert NumberOf([]) == 0 && Digits(n)[..0] == [];
    }
  }

  /** A decimal number without leading zeros, a space, and the word, in the plural unless the number is 1. */
  ghost predicate Says(text: string, value: nat, word: string) {
    exists digits ::
      && text == digits + " " + word + (if value == 1 then "" else "s")
      && NumberOf(digits) == value && digits != "" && digits[0] != '0'
      && forall i :: 0 <= i < |digits| ==> '0' <= digits[i] <= '9'
  }

  /** Nothing for a zero, else the one text that says it. */
  ghost predicate Piece(texts: seq<string>, value: nat, word: string) {
    if value == 0 then texts == [] else |texts| == 1 && Says(texts[0], value, word)
  }

  /** Days, hours, minutes and seconds that make up the total, those that are not zero, in this order. */
  ghost predicate Tells(s: string, total: nat) {
    exists d: nat, h: nat, m: nat, c: nat, ds, hs, ms, cs ::
      && Piece(ds, d, "day") && Piece(hs, h, "hr") && Piece(ms, m, "min") && Piece(cs, c, "sec")
      && total == d * 86400 + h * 3600 + m * 60 + c && h < 24 && m < 60 && c < 60
      && s == Join(ds + hs + ms + cs)
  }

  lemma ShownSays(value: nat, unit: Unit)
    requires value > 0
    ensures Says(Shown(Part(value, unit)), value,
                 match unit case Day => "day" case Hr => "hr" case Min => "min" case Sec => "sec")
  {
    DigitsTell(value);
    var text := Shown(Part(value, unit));
    assert text == Digits(value) + " " + Label(unit) + (if value == 1 then "" else "s");
  }

  lemma NonZeroSays(value: nat, unit: Unit)
    ensures Piece(Texts(NonZero(value, unit)), value,
                  match unit case Day => "day" case Hr => "hr" case Min => "min" case Sec => "sec")
  {
    TextsOfNonZero(value, unit);
    if value > 0 { ShownSays(value, unit); }
  }

  lemma UptimeTells(total: nat)
    ensures Tells(Join(Texts(Parts(total))), total)
  {
    hide Piece, Texts, NonZero, Join;
    var d, h, m, c := total / 86400, total % 86400 / 3600, total % 3600 / 60, total % 60;
    Dismantled(total);
    NonZeroSays(d, Day);
    NonZeroSays(h, Hr);
    NonZeroSays(m, Min);
    NonZeroSays(c, Sec);
    var ds, hs, ms, cs := Texts(NonZero(d, Day)), Texts(NonZero(h, Hr)), Texts(NonZero(m, Min)), Texts(NonZero(c, Sec));
    FourParts(NonZero(d, Day), NonZero(h, Hr), NonZero(m, Min), NonZero(c, Sec));
    assert [] + ds == ds;
    assert Piece(ds, d, "day") && Piece(hs, h, "hr") && Piece(ms, m, "min") && Piece(cs, c, "sec");
  }

  // ----- and that no two uptimes are told alike

  lemma {:induction false} DigitsInjective(a: nat, b: nat)
    requires Digits(a) == Digits(b)
    ensures a == b
  {
    var s := Digits(a);
    if a >= 10 {
      assert s[..|s| - 1] == Digits(a / 10) && s[..|s| - 1] == Digits(b / 10);
      DigitsInjective(a / 10, b / 10);
      assert s[|s| - 1] == Digit(a % 10) && s[|s| - 1] == Digit(b % 10);
    }
  }

  /** A number ends at the first space. */
  lemma DigitsEnd(a: nat, b: nat, x: string, y: string)
    requires Digits(a) + " " + x == Digits(b) + " " + y
    ensures a == b && x == y
  {
    var s, m, n := Digits(a) + " " + x, |Digits(a)|, |Digits(b)|;
    assert s[m] == ' ' && (Digits(b) + " " + y)[n] == ' ';
    assert forall k :: 0 <= k < m ==> s[k] == Digits(a)[k];
    assert forall k :: 0 <= k < n ==> s[k] == Digits(b)[k];
    assert m == n;
    assert Digits(a) == s[..m] && Digits(b) == s[..n];
    DigitsInjective(a, b);
    assert x == s[m + 1..] && y == s[n + 1..];
  }

  lemma Split(p: Part, rest: string)
    ensures Shown(p) + rest == Digits(p.value) + " " + (Name(p) + rest)
    ensures (Name(p) + rest)[0] == Label(p.unit)[0]
    ensures (Name(p) + rest)[|Name(p)|..] == rest
  {
  }

  /** What follows the first part. */
  function Tail(ps: seq<Part>): string
    requires ps != []
  {
    if |ps| == 1 then "" else ", " + Join(Texts(ps[1..]))
  }

  lemma JoinTexts(ps: seq<Part>)
    requires ps != []
    ensures Join(Texts(ps)) == Shown(ps[0]) + Tail(ps) && Join(Texts(ps)) != ""
  {
    assert Texts(ps)[0] == Shown(ps[0]);
    assert Texts(ps)[1..] == Texts(ps[1..]);
  }

  lemma FirstPart(p: Part, q: Part, x: string, y: string)
    requires Shown(p) + x == Shown(q) + y
    ensures p == q && x == y
  {
    Split(p, x);
    Split(q, y);
    DigitsEnd(p.value, q.value, Name(p) + x, Name(q) + y);
  }

  lemma SameRest(ps: seq<Part>, qs: seq<Part>)
    requires ps != [] && qs != [] && Tail(ps) == Tail(qs)
    ensures Join(Texts(ps[1..])) == Join(Texts(qs[1..]))
  {
    if |ps| > 1 && |qs| > 1 {
      assert Tail(ps)[2..] == Join(Texts(ps[1..])) && Tail(qs)[2..] == Join(Texts(qs[1..]));
    }
  }

  lemma {:induction false} JoinInjective(ps: seq<Part>, qs: seq<Part>)
    requires Join(Texts(ps)) == Join(Texts(qs))
    ensures ps == qs
  {
    if ps == [] || qs == [] {
      if ps != [] { JoinTexts(ps); }
      if qs != [] { JoinTexts(qs); }
    } else {
      JoinTexts(ps);
      JoinTexts(qs);
      FirstPart(ps[0], qs[0], Tail(ps), Tail(qs));
      SameRest(ps, qs);
      JoinInjective(ps[1..], qs[1..]);
      assert ps == [ps[0]] + ps[1..] && qs == [qs[0]] + qs[1..];
    }
  }

  lemma {:induction false} SecondsAppend(ps: seq<Part>, qs: seq<Part>)
    ensures Seconds(ps + qs) == Seconds(ps) + Seconds(qs)
  {
    if ps == [] {
      assert ps + qs == qs;
    } else {
      assert (ps + qs)[1..] == ps[1..] + qs;
      SecondsAppend(ps[1..], qs);
    }
  }

  lemma SecondsOf(value: nat, unit: Unit)
    ensures Seconds(NonZero(value, unit)) == value * Length(unit)
  {
  }

  /** The parts add up to the whole. */
  lemma PartsAddUp(total: nat)
    ensures Seconds(Parts(total)) == total
  {
    hide Seconds, NonZero;
    var d, h := NonZero(total / 86400, Day), NonZero(total % 86400 / 3600, Hr);
    var m, s := NonZero(total % 3600 / 60, Min), NonZero(total % 60, Sec);
    SecondsAppend(d + h + m, s);
    SecondsAppend(d + h, m);
    SecondsAppend(d, h);
    SecondsOf(total / 86400, Day);
    SecondsOf(total % 86400 / 3600, Hr);
    SecondsOf(total % 3600 / 60, Min);
    SecondsOf(total % 60, Sec);
    Dismantled(total);
  }

  lemma Dismantled(total: nat)
    ensures total == total / 86400 * 86400 + total % 86400 / 3600 * 3600 + total % 3600 / 60 * 60 + total % 60
  {
    Remainders(total);
    var rem := total % 86400;
    assert total == total / 86400 * 86400 + rem;
    assert rem == rem / 3600 * 3600 + rem % 3600;
    assert total % 3600 == total % 3600 / 60 * 60 + total % 3600 % 60;
  }

  /** Two different uptimes never print alike, and only zero prints nothing. */
  lemma UptimeInjective(a: nat, b: nat)
    ensures Join(Texts(Parts(a))) == Join(Texts(Parts(b))) <==> a == b
    ensures Join(Texts(Parts(a))) == "" <==> a == 0
  {
    PartsAddUp(a);
    PartsAddUp(b);
    if Join(Texts(Parts(a))) == Join(Texts(Parts(b))) { JoinInjective(Parts(a), Parts(b)); }
    if a != 0 { JoinTexts(Parts(a)); }
  }
}
