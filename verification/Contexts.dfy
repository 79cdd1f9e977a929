/** Request contexts: the counter behind them, and when two of them coincide. */
module Contexts {

  const HIGH_BIT: nat := 0x8000_0000
  const CONTEXT_LIMIT: nat := 0x1_0000_0000

  /** How many contexts there are; a context recurs after exactly this many. */
  const WINDOW: nat := 0x7fff_ffff

  /** The counter after `k` contexts have been issued, and the last of them. */
  function CounterAt(k: nat): (n: nat)
    ensures n < HIGH_BIT && (n == 0 <==> k == 0)
  {
    if k == 0 then 0 else (k - 1) % WINDOW + 1
  }

  /** The k-th context: the high bit, and something below it. */
  function ContextAt(k: nat): (context: nat)
    ensures 0x8000_0000 <= context < 0x1_0000_0000 && (0 < k ==> 0x8000_0000 < context)
  {
    HIGH_BIT + CounterAt(k)
  }

  /** One round of the loop: increment modulo 2^32, then mask the high bit away. */
  function Bump(counter: nat): (n: nat)
    ensures n < HIGH_BIT
  {
    (counter + 1) % CONTEXT_LIMIT % HIGH_BIT
  }

  /** Zero is skipped, so the next counter is one bump on, or two at the end of the cycle. */
  lemma NextCounter(k: nat)
    ensures var n := Bump(CounterAt(k));
            CounterAt(k + 1) == if n == 0 then Bump(n) else n
  {
    BumpIs(CounterAt(k));
    BumpIs(0);
    if 0 < k { CounterRuns(k - 1); }
  }

  lemma BumpIs(n: nat)
    requires n < HIGH_BIT
    ensures Bump(n) == if n + 1 == HIGH_BIT then 0 else n + 1
  {
    assert (n + 1) % CONTEXT_LIMIT == n + 1;
  }

  lemma Remainder(q: int, r: nat)
    requires r < WINDOW && 0 <= WINDOW * q + r
    ensures (WINDOW * q + r) % WINDOW == r
  {
  }

  lemma CounterRuns(k: nat)
    ensures (k + 1) % WINDOW == if k % WINDOW + 1 == WINDOW then 0 else k % WINDOW + 1
  {
    var q, r := k / WINDOW, k % WINDOW;
    if r + 1 == WINDOW { Remainder(q + 1, 0); } else { Remainder(q, r + 1); }
  }

  lemma SameRemainder(a: nat, b: nat)
    requires a <= b
    ensures a % WINDOW == b % WINDOW <==> (b - a) % WINDOW == 0
  {
    var p, q, d := a / WINDOW, b / WINDOW, (b - a) / WINDOW;
    if a % WINDOW == b % WINDOW { Remainder(q - p, 0); }
    if (b - a) % WINDOW == 0 { Remainder(p + d, a % WINDOW); }
  }

  /** Two contexts coincide exactly when a whole number of windows lies between them. */
  lemma ContextsCoincide(i: nat, j: nat)
    requires 0 < i <= j
    ensures ContextAt(i) == ContextAt(j) <==> (j - i) % WINDOW == 0
  {
    SameRemainder(i - 1, j - 1);
  }

  predicate Near(i: nat, j: nat) { i < j + WINDOW && j < i + WINDOW }

  /** So any `WINDOW` consecutive contexts are pairwise distinct. */
  lemma NearContextsDiffer(i: nat, j: nat)
    requires 0 < i && 0 < j && Near(i, j) && ContextAt(i) == ContextAt(j)
    ensures i == j
  {
    if i < j {
      ContextsCoincide(i, j);
    } else if j < i {
      ContextsCoincide(j, i);
    }
  }
}
