/** The pauses between hub connection attempts. */
module Backoff {

  const BACKOFF_INITIAL: real := 1.0
  const BACKOFF_MAX: real := 30.0
  const BACKOFF_GROWTH: real := 1.7

  function MinReal(a: real, b: real): real {
    if a <= b then a else b
  }

  function Pow(n: nat): (p: real)
    ensures p >= 1.0 && (n > 0 ==> p >= 1.7)
  {
    if n == 0 then 1.0 else BACKOFF_GROWTH * Pow(n - 1)
  }

  /** The latest attempt up to `j` that ended Ok, or the first attempt. */
  function ResetAt(oks: seq<bool>, j: nat): (i: nat)
    requires j < |oks|
    ensures i <= j && (i == 0 || oks[i]) && forall k :: i < k <= j ==> !oks[k]
  {
    if j == 0 || oks[j] then j else ResetAt(oks, j - 1)
  }

  function Pause(oks: seq<bool>, j: nat): real
    requires j < |oks|
  {
    MinReal(BACKOFF_MAX, Pow(j - ResetAt(oks, j)))
  }

  /** `supervise`, given how each attempt ended: the pause slept after each. */
  method Supervise(oks: seq<bool>) returns (pauses: seq<real>)
    ensures |pauses| == |oks|
    ensures forall j :: 0 <= j < |oks| ==> pauses[j] == Pause(oks, j)
  {
    pauses := [];
    var backoff := BACKOFF_INITIAL;
    for j := 0 to |oks|
      invariant |pauses| == j && forall i :: 0 <= i < j ==> pauses[i] == Pause(oks, i)
      invariant backoff == if j == 0 then 1.0 else MinReal(BACKOFF_MAX, Pow(j - ResetAt(oks, j - 1)))
    {
      if oks[j] {
        backoff := BACKOFF_INITIAL;
      }
      pauses := pauses + [backoff];
      var next := MinReal(backoff * BACKOFF_GROWTH, BACKOFF_MAX);
      backoff := next;
    }
  }

  lemma {:induction false} PowGrows(m: nat, n: nat)
    requires m <= n
    ensures Pow(m) <= Pow(n)
    decreases n
  {
    if m < n { PowGrows(m, n - 1); }
  }

  lemma PowAroundCap()
    ensures Pow(6) < BACKOFF_MAX < Pow(7)
  {
    assert Pow(1) == 1.7;
    assert Pow(2) == 2.89;
    assert Pow(3) == 4.913;
    assert Pow(4) == 8.3521;
    assert Pow(5) == 14.19857;
    assert Pow(6) == 24.137569;
  }

  /**
   Every pause lies in [1, 30]; it is 1 right after a success, never shrinks over a run of
   failures, and is at the cap exactly from the seventh failure in a row after a reset.
   */
  lemma PausesBehave(oks: seq<bool>, j: nat)
    requires j < |oks|
    ensures 1.0 <= Pause(oks, j) <= 30.0
    ensures oks[j] ==> Pause(oks, j) == 1.0
    ensures j > 0 && !oks[j] ==> Pause(oks, j - 1) <= Pause(oks, j)
    ensures Pause(oks, j) == 30.0 <==> j - ResetAt(oks, j) >= 7
  {
    PowAroundCap();
    var d := j - ResetAt(oks, j);
    if d >= 7 { PowGrows(7, d); } else { PowGrows(d, 6); }
    if j > 0 && !oks[j] { PowGrows(d - 1, d); }
  }
}
