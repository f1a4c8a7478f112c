/**
 Scan-based stand-ins for the succinct structures behind the index: select over
 a bit vector, and the matching operations over a parenthesis vector.
 */
module Succinct {
  import opened Lexer

  /** Position of the set bit number `k`, counting from zero. */
  function Select(bits: seq<bool>, k: nat): (p: nat)
    requires k < Ones(bits)
    ensures p < |bits| && bits[p]
  {
    if bits[0] then
      if k == 0 then 0 else 1 + Select(bits[1..], k - 1)
    else 1 + Select(bits[1..], k)
  }

  /** `Select` inverts rank: it is the only set bit with exactly `k` set bits before it. */
  lemma {:induction false} SelectRank(bits: seq<bool>, p: nat)
    requires p < |bits| && bits[p]
    ensures Ones(bits[..p]) < Ones(bits)
    ensures Select(bits, Ones(bits[..p])) == p
  {
    if p > 0 {
      assert bits[..p][1..] == bits[1..][..p-1];
      SelectRank(bits[1..], p - 1);
    }
  }

  function Excess(b: seq<bool>): int {
    if b == [] then 0 else (if b[0] then 1 else -1) + Excess(b[1..])
  }

  /** Starting at depth `d`, no prefix of `b` goes below zero. */
  predicate NonNegative(b: seq<bool>, d: int) {
    d >= 0 && (b == [] || NonNegative(b[1..], d + (if b[0] then 1 else -1)))
  }

  predicate Balanced(b: seq<bool>) {
    NonNegative(b, 0) && Excess(b) == 0
  }

  lemma {:induction false} ExcessConcat(a: seq<bool>, b: seq<bool>, d: int)
    ensures Excess(a + b) == Excess(a) + Excess(b)
    ensures NonNegative(a, d) && NonNegative(b, d + Excess(a)) ==> NonNegative(a + b, d)
  {
    if a == [] {
      assert a + b == b;
    } else {
      assert (a + b)[1..] == a[1..] + b;
      ExcessConcat(a[1..], b, d + (if a[0] then 1 else -1));
    }
  }

  lemma {:induction false} NonNegativeMono(b: seq<bool>, d: int, e: int)
    requires NonNegative(b, d) && d <= e
    ensures NonNegative(b, e)
  {
    if b != [] {
      var s := if b[0] then 1 else -1;
      NonNegativeMono(b[1..], d + s, e + s);
    }
  }

  lemma BalancedConcat(a: seq<bool>, b: seq<bool>)
    requires Balanced(a) && Balanced(b)
    ensures Balanced(a + b)
  {
    ExcessConcat(a, b, 0);
  }

  lemma BalancedWrap(b: seq<bool>)
    requires Balanced(b)
    ensures Balanced([true] + b + [false])
  {
    NonNegativeMono(b, 0, 1);
    ExcessConcat(b, [false], 1);
    assert NonNegative([false], 1) by {
      assert [false][1..] == [];
      assert NonNegative([], 0);
    }
    assert Excess([false]) == -1 by { assert [false][1..] == []; }
    var w := [true] + b + [false];
    assert w[0] && w[1..] == b + [false];
  }

  function ScanClose(bp: seq<bool>, j: nat, depth: nat): nat
    requires j <= |bp|
    decreases |bp| - j
  {
    if j == |bp| then |bp|
    else if bp[j] then ScanClose(bp, j + 1, depth + 1)
    else if depth == 0 then j
    else ScanClose(bp, j + 1, depth - 1)
  }

  /** The closing parenthesis that matches the opening one at `i` (the length of `bp` if there is none). */
  function FindClose(bp: seq<bool>, i: nat): nat
    requires i < |bp| && bp[i]
  {
    ScanClose(bp, i + 1, 0)
  }

  function ScanOpen(bp: seq<bool>, j: nat, depth: nat): int
    requires j <= |bp|
    decreases j
  {
    if j == 0 then -1
    else if !bp[j-1] then ScanOpen(bp, j - 1, depth + 1)
    else if depth == 0 then j - 1
    else ScanOpen(bp, j - 1, depth - 1)
  }

  /** The opening parenthesis that matches the closing one at `i` (-1 if there is none). */
  function FindOpen(bp: seq<bool>, i: nat): int
    requires i < |bp| && !bp[i]
  {
    ScanOpen(bp, i, 0)
  }

  lemma {:induction false} ScanOver(bp: seq<bool>, j: nat, b: seq<bool>, d: nat)
    requires j + |b| <= |bp| && bp[j..j+|b|] == b
    requires NonNegative(b, d)
    ensures d + Excess(b) >= 0
    ensures ScanClose(bp, j, d) == ScanClose(bp, j + |b|, d + Excess(b))
    ensures ScanOpen(bp, j + |b|, d + Excess(b)) == ScanOpen(bp, j, d)
    decreases |b|
  {
    if b != [] {
      assert bp[j] == b[0] by { assert bp[j..j+|b|][0] == bp[j]; }
      assert bp[j+1..j+1+|b[1..]|] == b[1..];
      ScanOver(bp, j + 1, b[1..], d + (if b[0] then 1 else -1));
    }
  }

  /** Both matching operations on a pair of parentheses around a balanced string. */
  lemma Matching(bp: seq<bool>, i: nat, b: seq<bool>)
    requires i + |b| + 1 < |bp|
    requires bp[i] && bp[i+1..i+1+|b|] == b && !bp[i+1+|b|]
    requires Balanced(b)
    ensures FindClose(bp, i) == i + 1 + |b|
    ensures FindOpen(bp, i + 1 + |b|) == i
  {
    ScanOver(bp, i + 1, b, 0);
  }
}
