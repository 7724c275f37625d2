/** Arithmetic of a rotating index: how often `(start + i) % n` lands on a given slot.
    Shared by every round-robin selector of the model. */
module Cyclic {

  /** How many of the indices `start, start + 1, .., start + k - 1`, taken modulo `n`, equal `j`. */
  function Hits(start: nat, k: nat, n: nat, j: nat): nat
    requires n > 0
  {
    if k == 0 then 0 else Hits(start, k - 1, n, j) + (if (start + k - 1) % n == j then 1 else 0)
  }

  lemma MulAtLeast(n: nat, d: int)
    requires d >= 1
    ensures n * d >= n
  {
  }

  lemma QuotientUnique(n: nat, q: nat, r: nat, p: nat, t: nat)
    requires r < n && t < n && n * q + r == n * p + t
    ensures q == p && r == t
  {
    assert n * (q - p) == n * q - n * p;
    assert n * (p - q) == n * p - n * q;
    if q > p {
      MulAtLeast(n, q - p);
    } else if p > q {
      MulAtLeast(n, p - q);
    }
  }

  lemma ModUnique(x: nat, n: nat, q: nat, r: nat)
    requires n > 0 && r < n && x == n * q + r
    ensures x / n == q && x % n == r
  {
    QuotientUnique(n, q, r, x / n, x % n);
  }

  /** Only the start's residue matters. */
  lemma ModOfSum(start: nat, i: nat, n: nat)
    requires n > 0
    ensures (start + i) % n == (start % n + i) % n
  {
    var q, s := start / n, start % n;
    var q2, r2 := (s + i) / n, (s + i) % n;
    assert start + i == n * (q + q2) + r2;
    ModUnique(start + i, n, q + q2, r2);
  }

  lemma {:induction false} HitsOfResidue(start: nat, k: nat, n: nat, j: nat)
    requires n > 0
    ensures Hits(start, k, n, j) == Hits(start % n, k, n, j)
  {
    if k > 0 {
      HitsOfResidue(start, k - 1, n, j);
      ModOfSum(start, k - 1, n);
    }
  }

  lemma {:induction false} HitsAppend(start: nat, k: nat, m: nat, n: nat, j: nat)
    requires n > 0
    ensures Hits(start, k + m, n, j) == Hits(start, k, n, j) + Hits(start + k, m, n, j)
  {
    if m > 0 {
      HitsAppend(start, k, m - 1, n, j);
      assert start + (k + m) - 1 == (start + k) + m - 1;
    }
  }

  /** Within one turn a slot is hit exactly when the window of indices covers it. */
  lemma {:induction false} HitsWithinTurn(s: nat, r: nat, n: nat, j: nat)
    requires s < n && r <= n && j < n
    ensures Hits(s, r, n, j) == if s <= j < s + r || j + n < s + r then 1 else 0
  {
    if r > 0 {
      HitsWithinTurn(s, r - 1, n, j);
      var x := s + r - 1;
      if x < n {
        ModUnique(x, n, 0, x);
      } else {
        ModUnique(x, n, 1, x - n);
      }
    }
  }

  lemma HitsOneTurn(start: nat, n: nat, j: nat)
    requires j < n
    ensures Hits(start, n, n, j) == 1
  {
    HitsOfResidue(start, n, n, j);
    HitsWithinTurn(start % n, n, n, j);
  }

  /** `c` whole turns hit every slot exactly `c` times, wherever they start. */
  lemma {:induction false} HitsWholeTurns(start: nat, c: nat, n: nat, j: nat)
    requires j < n
    ensures Hits(start, n * c, n, j) == c
  {
    if c == 0 {
      assert n * c == 0;
    } else {
      HitsWholeTurns(start, c - 1, n, j);
      assert n * c == n * (c - 1) + n;
      HitsAppend(start, n * (c - 1), n, n, j);
      HitsOneTurn(start + n * (c - 1), n, j);
    }
  }

  lemma HitsFirst(start: nat, n: nat, j: nat)
    requires n > 0
    ensures Hits(start, 1, n, j) == if start % n == j then 1 else 0
  {
    assert Hits(start, 0, n, j) == 0;
  }

  /** One step of a rotating index that may rest one past the end. */
  lemma HitsStep(start: nat, k: nat, n: nat, j: nat)
    requires 0 < n && start <= n && k > 0
    ensures var c := if start < n then start else 0;
            Hits(start, k, n, j) == (if c == j then 1 else 0) + Hits(c + 1, k - 1, n, j)
  {
    var c := if start < n then start else 0;
    if start < n {
      ModUnique(start, n, 0, start);
    } else {
      ModUnique(start, n, 1, 0);
      ModUnique(c, n, 0, 0);
      HitsOfResidue(start, k, n, j);
    }
    HitsAppend(c, 1, k - 1, n, j);
    HitsFirst(c, n, j);
  }

  /** What `k` steps of an index that may rest one past the end pick from `slots`. */
  function Turns<T>(slots: seq<T>, it: nat, k: nat): seq<T>
    requires slots != [] && it <= |slots|
    decreases k
  {
    if k == 0 then []
    else
      var c := if it < |slots| then it else 0;
      [slots[c]] + Turns(slots, c + 1, k - 1)
  }

  /** How often an item occurs in a sequence. */
  ghost function Count<T>(s: seq<T>, x: T): nat {
    if s == [] then 0 else (if s[0] == x then 1 else 0) + Count(s[1..], x)
  }

  /** Every item is picked as often as the index passes it. */
  lemma {:induction false} TurnsCount<T>(slots: seq<T>, it: nat, k: nat, j: nat)
    requires it <= |slots| && j < |slots| && forall c :: 0 <= c < |slots| && c != j ==> slots[c] != slots[j]
    ensures Count(Turns(slots, it, k), slots[j]) == Hits(it, k, |slots|, j)
    decreases k
  {
    if k > 0 {
      var c := if it < |slots| then it else 0;
      TurnsCount(slots, c + 1, k - 1, j);
      HitsStep(it, k, |slots|, j);
      assert Turns(slots, it, k)[1..] == Turns(slots, c + 1, k - 1);
    }
  }

  /** After any number of steps every slot has been hit `k / n` or `k / n + 1` times. */
  lemma HitsBalanced(start: nat, k: nat, n: nat, j: nat)
    requires j < n
    ensures k / n <= Hits(start, k, n, j) <= k / n + 1
  {
    var q, r := k / n, k % n;
    assert k == n * q + r;
    HitsSplit(start, n, q, r, j);
  }

  lemma HitsSplit(start: nat, n: nat, q: nat, r: nat, j: nat)
    requires j < n && r < n
    ensures q <= Hits(start, n * q + r, n, j) <= q + 1
  {
    HitsAppend(start, n * q, r, n, j);
    HitsWholeTurns(start, q, n, j);
    HitsOfResidue(start + n * q, r, n, j);
    HitsWithinTurn((start + n * q) % n, r, n, j);
  }
}
