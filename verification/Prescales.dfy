/** The 16-bit count of triggers, and the prescale that lets every so-manieth of them pass. */
module Prescales {
  import opened TriggerTypes

  /** The count, `n` triggers after it was `count`. */
  function CountAfter(count: nat, n: nat): (r: nat)
    ensures r < TWO_16
  {
    (count + n) % TWO_16
  }

  /** The prescale lets the trigger with this count pass. */
  predicate Passes(count: nat, prescale: nat)
    requires prescale > 0
  {
    count % prescale == 0
  }

  /** The count is that of all triggers in 16 bits. */
  lemma CountMeans(triggered: nat, n: nat)
    ensures CountAfter(triggered % 0x1_0000, n) == (triggered + n) % 0x1_0000
  {
  }

  /** The count is that of all triggers in 16 bits, and while they fit n / prescale of `n` triggers passed. */
  ghost predicate Tallies(triggered: nat, passed: nat, count: nat, prescale: nat) {
    count == triggered % 0x1_0000 && (triggered < 0x1_0000 && prescale > 0 ==> passed == triggered / prescale)
  }

  /** The count of a trigger, in 16 bits, is a multiple of the prescale. */
  ghost predicate IsPrescaleth(triggered: nat, prescale: nat) {
    exists k: nat :: triggered % 0x1_0000 == k * prescale
  }

  lemma QuotientIs(x: nat, p: nat, q: nat, r: nat)
    requires r < p && x == q * p + r
    ensures x / p == q && x % p == r
  {
    var q', r' := x / p, x % p;
    assert x == q' * p + r';
    assert (q - q') * p == r' - r && (q' - q) * p == r - r';
    MultipleIsLarge(q - q', p);
    MultipleIsLarge(q' - q, p);
  }

  lemma MultipleIsLarge(a: int, p: nat)
    ensures a >= 1 ==> a * p >= p
  {
    if a >= 1 {
      assert a * p == (a - 1) * p + p;
    }
  }

  /** The triggers that pass are those whose counts are multiples of the prescale. */
  lemma PassMeans(count: nat, prescale: nat)
    requires prescale > 0
    ensures Passes(count, prescale) <==> exists k: nat :: count == k * prescale
  {
    if k: nat :| count == k * prescale {
      QuotientIs(count, prescale, k, 0);
    }
    if Passes(count, prescale) {
      assert count == (count / prescale) * prescale;
    }
  }

  lemma TallyOneMore(triggered: nat, passed: nat, count: nat, prescale: nat)
    requires prescale > 0 && Tallies(triggered, passed, count, prescale)
    ensures var count' := CountAfter(count, 1); var passes := Passes(count', prescale);
      && (passes <==> IsPrescaleth(triggered + 1, prescale))
      && Tallies(triggered + 1, passed + if passes then 1 else 0, count', prescale)
  {
    CountMeans(triggered, 1);
    OneMorePasses(triggered, prescale);
    PassMeans(CountAfter(count, 1), prescale);
    hide CountAfter, Passes;
  }

  /** So of `n` triggers in a row n / prescale pass. */
  lemma OneMorePasses(n: nat, prescale: nat)
    requires prescale > 0
    ensures (n + 1) / prescale == n / prescale + if Passes(n + 1, prescale) then 1 else 0
  {
    var q, r := n / prescale, n % prescale;
    if r + 1 == prescale {
      assert n + 1 == (q + 1) * prescale;
      QuotientIs(n + 1, prescale, q + 1, 0);
    } else {
      QuotientIs(n + 1, prescale, q, r + 1);
    }
  }
}
