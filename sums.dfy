/** Totals over the account balances, shared by both servers. */
module Sums {

  /** The sum of all balances in `s`. */
  function Sum(s: seq<int>): (r: int)
  {
    if |s| == 0 then 0 else Sum(s[..|s| - 1]) + s[|s| - 1]
  }

  /** Adds `delta` (negative for a debit) to the balance in slot `i`. */
  function Adjust(s: seq<int>, i: int, delta: int): (r: seq<int>)
    requires 0 <= i < |s|
    ensures |r| == |s|
  {
    s[i := s[i] + delta]
  }

  /** Adjusting one slot changes the total by exactly the adjustment. */
  lemma {:induction false} AdjustSum(s: seq<int>, i: int, delta: int)
    requires 0 <= i < |s|
    ensures Sum(Adjust(s, i, delta)) == Sum(s) + delta
  {
    var t := Adjust(s, i, delta);
    var n := |s| - 1;
    if i == n {
      assert t[..n] == s[..n];
    } else {
      assert t[..n] == Adjust(s[..n], i, delta);
      AdjustSum(s[..n], i, delta);
    }
  }

  /** Moving `amount` from slot `from` to slot `to` the way both servers do it:
      debit the source first, then credit the target (which may be the same slot). */
  function Move(s: seq<int>, from: int, to: int, amount: int): (r: seq<int>)
    requires 0 <= from < |s| && 0 <= to < |s|
    ensures |r| == |s|
  {
    Adjust(Adjust(s, from, -amount), to, amount)
  }

  /** A move changes the two named slots by the amount, leaves every other slot
      alone, and is no change at all when the slots coincide. */
  lemma MoveEffect(s: seq<int>, from: int, to: int, amount: int)
    requires 0 <= from < |s| && 0 <= to < |s|
    ensures from != to ==> Move(s, from, to, amount)[from] == s[from] - amount
    ensures from != to ==> Move(s, from, to, amount)[to] == s[to] + amount
    ensures from == to ==> Move(s, from, to, amount) == s
    ensures forall k :: 0 <= k < |s| && k != from && k != to ==> Move(s, from, to, amount)[k] == s[k]
  {
    if from == to {
      assert Move(s, from, to, amount) == s[from := s[from] - amount + amount];
    }
  }

  /** Debiting one slot and then crediting the same amount to a slot keeps the total. */
  lemma DebitCreditSum(s: seq<int>, from: int, to: int, amount: int)
    requires 0 <= from < |s| && 0 <= to < |s|
    ensures Sum(Adjust(Adjust(s, from, -amount), to, amount)) == Sum(s)
  {
    AdjustSum(s, from, -amount);
    AdjustSum(Adjust(s, from, -amount), to, amount);
  }

  /** A move keeps the total. */
  lemma MoveKeepsSum(s: seq<int>, from: int, to: int, amount: int)
    requires 0 <= from < |s| && 0 <= to < |s|
    ensures Sum(Move(s, from, to, amount)) == Sum(s)
  {
    DebitCreditSum(s, from, to, amount);
  }
}
