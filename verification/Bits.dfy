/** Fixed-width words as their bits, the least significant first. */
module Bits {
  type Byte = b: seq<bool> | |b| == 8 witness [false, false, false, false, false, false, false, false]

  function Xor(a: seq<bool>, b: seq<bool>): (r: seq<bool>)
    requires |a| == |b|
    ensures |r| == |a| && forall i :: 0 <= i < |r| ==> r[i] == (a[i] != b[i])
  {
    seq(|a|, i requires 0 <= i < |a| && |a| == |b| => a[i] != b[i])
  }

  function Zeros(n: nat): (r: seq<bool>)
    ensures |r| == n && forall i :: 0 <= i < n ==> !r[i]
  {
    seq(n, _ => false)
  }

  function Ones(n: nat): (r: seq<bool>)
    ensures |r| == n && forall i :: 0 <= i < n ==> r[i]
  {
    seq(n, _ => true)
  }

  function Value(b: seq<bool>): nat
  {
    if b == [] then 0 else (if b[0] then 1 else 0) + 2 * Value(b[1..])
  }

  function Power(n: nat): nat
  {
    if n == 0 then 1 else 2 * Power(n - 1)
  }

  lemma DoubleProduct(a: nat, b: nat)
    ensures 2 * (a * b) == (2 * a) * b
  {
  }

  lemma {:induction false} PowerSum(m: nat, n: nat)
    ensures Power(m + n) == Power(m) * Power(n)
  {
    if m > 0 {
      PowerSum(m - 1, n);
      DoubleProduct(Power(m - 1), Power(n));
      assert Power(m + n) == 2 * Power((m - 1) + n);
    }
  }

  /** The n low bits of v. */
  function Of(v: nat, n: nat): (b: seq<bool>)
    ensures |b| == n
  {
    if n == 0 then [] else [v % 2 == 1] + Of(v / 2, n - 1)
  }

  lemma {:induction false} ValueOf(v: nat, n: nat)
    requires v < Power(n)
    ensures Value(Of(v, n)) == v
  {
    if n > 0 {
      ValueOf(v / 2, n - 1);
    }
  }

  lemma {:induction false} OfValue(b: seq<bool>)
    ensures Value(b) < Power(|b|) && Of(Value(b), |b|) == b
  {
    if b != [] {
      OfValue(b[1..]);
    }
  }

  lemma {:induction false} ValueOfZeros(n: nat)
    ensures Value(Zeros(n)) == 0
  {
    if n > 0 {
      assert Zeros(n)[1..] == Zeros(n - 1);
      ValueOfZeros(n - 1);
    }
  }

  lemma ValueOfFirst(a: seq<bool>, b: seq<bool>)
    requires a != []
    ensures Value(a + b) == (if a[0] then 1 else 0) + 2 * Value(a[1..] + b)
  {
    assert (a + b)[1..] == a[1..] + b;
  }

  lemma {:induction false} ValueOfJoined(a: seq<bool>, b: seq<bool>)
    ensures Value(a + b) == Value(a) + Power(|a|) * Value(b)
  {
    if a == [] {
      assert a + b == b;
    } else {
      ValueOfJoined(a[1..], b);
      ValueOfFirst(a, b);
      DoubleProduct(Power(|a| - 1), Value(b));
    }
  }
}
