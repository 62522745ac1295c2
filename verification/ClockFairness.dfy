/**
 What the clock guarantees over whole runs, in which visits of the hand,
 touches by the senders and growth of the slab class interleave freely.
 */
module ClockFairness {
  import opened ClockSpec

  datatype Event =
    | Visited
    | Touched(p: nat)
    | Grown(words: nat)

  /** Growth up to the reserved size is refused; only items of carved slabs are touched. */
  function Step(c: Clock, e: Event): (c': Clock)
    requires Running(c)
    ensures Running(c') && |c'.words| == |c.words|
  {
    match e
    case Visited => Visit(c)
    case Touched(p) => if p / BITSPERWORD < |c.words| then Touch(c, p) else c
    case Grown(k) => if c.current + k >= |c.words| then c else c.(current := c.current + k)
  }

  function Play(c: Clock, es: seq<Event>): (c': Clock)
    requires Running(c)
    ensures Running(c') && |c'.words| == |c.words|
  {
    if es == [] then c else Step(Play(c, es[..|es| - 1]), es[|es| - 1])
  }

  /** How often the hand visits a word during a run. */
  function Passes(c: Clock, es: seq<Event>, word: nat): nat
    requires Running(c)
  {
    if es == [] then 0
    else
      var n := |es| - 1;
      Passes(c, es[..n], word) + (if es[n].Visited? && Play(c, es[..n]).walker == word then 1 else 0)
  }

  /** How often item p is evicted during a run. */
  function Evictions(c: Clock, es: seq<Event>, p: nat): nat
    requires Running(c)
  {
    if es == [] then 0
    else
      var n := |es| - 1;
      Evictions(c, es[..n], p) + (if es[n].Visited? then multiset(Emits(Play(c, es[..n])))[p] else 0)
  }

  lemma StepIdle(c: Clock, e: Event, p: nat)
    requires Running(c) && p / BITSPERWORD < |c.words| && e != Touched(p)
    ensures Idle(Step(c, e), p) == (Idle(c, p) != (e.Visited? && c.walker == p / BITSPERWORD))
  {
    match e
    case Visited => ComplementBit(c.words[c.walker], p % BITSPERWORD);
    case Touched(q) =>
      if q / BITSPERWORD == p / BITSPERWORD {
        ClearBitBit(c.words[q / BITSPERWORD], q % BITSPERWORD, p % BITSPERWORD);
      }
    case Grown(_) =>
  }

  /**
   An item nobody touches is evicted at every second pass of the hand: at the
   first one if it starts idle.
   */
  lemma {:induction false} EvictionLaw(c: Clock, es: seq<Event>, p: nat)
    requires Running(c) && p / BITSPERWORD < |c.words|
    requires forall e | e in es :: e != Touched(p)
    ensures var v := Passes(c, es, p / BITSPERWORD);
            && Evictions(c, es, p) == (v + (if Idle(c, p) then 1 else 0)) / 2
            && Idle(Play(c, es), p) == (Idle(c, p) != (v % 2 == 1))
  {
    hide Idle, Step, Emits;
    if es != [] {
      var n := |es| - 1;
      assert es[n] in es;
      forall e | e in es[..n] ensures e != Touched(p) {
        assert e in es;
      }
      EvictionLaw(c, es[..n], p);
      var c' := Play(c, es[..n]);
      StepIdle(c', es[n], p);
      if es[n].Visited? {
        EmitsCount(c', p);
      }
    }
  }

  lemma {:induction false} BusyUntilPassed(c: Clock, es: seq<Event>, p: nat)
    requires Running(c) && p / BITSPERWORD < |c.words| && !Idle(c, p)
    requires Passes(c, es, p / BITSPERWORD) == 0
    ensures !Idle(Play(c, es), p)
  {
    hide Idle, Step, Emits;
    if es != [] {
      var n := |es| - 1;
      BusyUntilPassed(c, es[..n], p);
      var c' := Play(c, es[..n]);
      if es[n] == Touched(p) {
        TouchedIsBusy(c', p);
      } else {
        StepIdle(c', es[n], p);
      }
    }
  }

  lemma TouchedIsBusy(c: Clock, p: nat)
    requires Running(c) && p / BITSPERWORD < |c.words|
    ensures !Idle(Touch(c, p), p)
    ensures Step(c, Touched(p)) == Touch(c, p)
  {
    ClearBitBit(c.words[p / BITSPERWORD], p % BITSPERWORD, p % BITSPERWORD);
  }

  /** Second chance: whatever happens before the hand comes by, a touched item survives its next visit. */
  lemma SecondChance(c: Clock, p: nat, es: seq<Event>)
    requires Running(c) && p / BITSPERWORD < |c.words|
    requires Passes(Touch(c, p), es, p / BITSPERWORD) == 0
    ensures multiset(Emits(Play(Touch(c, p), es)))[p] == 0
  {
    TouchedIsBusy(c, p);
    BusyUntilPassed(Touch(c, p), es, p);
    EmitsCount(Play(Touch(c, p), es), p);
  }

  /** No mercy: an item untouched while the hand passes it twice is evicted exactly once. */
  lemma UntouchedIsEvicted(c: Clock, p: nat, es: seq<Event>)
    requires Running(c) && p / BITSPERWORD < |c.words|
    requires forall e | e in es :: e != Touched(p)
    requires Passes(c, es, p / BITSPERWORD) == 2
    ensures Evictions(c, es, p) == 1
  {
    EvictionLaw(c, es, p);
  }

  // ----- consecutive visits -------------------------------------------------

  function Visits(n: nat): (es: seq<Event>)
    ensures |es| == n && forall e | e in es :: e == Visited
  {
    seq(n, _ => Visited)
  }

  /** Visits alone are the hand's own walk. */
  lemma {:induction false} VisitsAre(c: Clock, n: nat, p: nat)
    requires Running(c)
    ensures Play(c, Visits(n)) == After(c, n)
    ensures multiset(Evicted(c, n))[p] == Evictions(c, Visits(n), p)
  {
    hide Emits, Visit;
    if n > 0 {
      assert Visits(n)[..n - 1] == Visits(n - 1);
      VisitsAre(c, n - 1, p);
    }
  }

  lemma OneMorePass(c: Clock, n: nat, word: nat)
    requires Running(c)
    ensures Passes(c, Visits(n + 1), word) == Passes(c, Visits(n), word) + (if After(c, n).walker == word then 1 else 0)
  {
    hide Emits, Visit;
    assert Visits(n + 1)[..n] == Visits(n);
    VisitsAre(c, n, 0);
  }

  /** Up to the end of the map the hand moves word by word. */
  lemma {:induction false} Sweep(c: Clock, n: nat, word: nat)
    requires Running(c) && c.walker + n <= c.current
    ensures After(c, n).walker == if c.walker + n == c.current then 0 else c.walker + n
    ensures Passes(c, Visits(n), word) == if c.walker <= word < c.walker + n then 1 else 0
  {
    hide Visits, Complement, Emits;
    if n == 0 {
      assert Visits(0) == [];
    } else {
      Sweep(c, n - 1, word);
      OneMorePass(c, n - 1, word);
    }
  }

  lemma {:induction false} PassesAdd(c: Clock, m: nat, n: nat, word: nat)
    requires Running(c)
    ensures After(After(c, m), n) == After(c, m + n)
    ensures Passes(c, Visits(m + n), word) == Passes(c, Visits(m), word) + Passes(After(c, m), Visits(n), word)
  {
    hide Visits, Visit, Passes, Running;
    if n == 0 {
      assert Visits(0) == [];
      NoPass(After(c, m), word);
    } else {
      PassesAdd(c, m, n - 1, word);
      OneMorePass(c, m + n - 1, word);
      OneMorePass(After(c, m), n - 1, word);
      assert m + n - 1 + 1 == m + n;
    }
  }

  lemma NoPass(c: Clock, word: nat)
    requires Running(c)
    ensures Passes(c, [], word) == 0
  {
  }

  /** Two rounds visit each word in use twice and end where they began. */
  lemma TwoRounds(c: Clock, word: nat)
    requires Running(c)
    ensures Passes(c, Visits(2 * c.current), word) == if word < c.current then 2 else 0
    ensures After(c, 2 * c.current).walker == c.walker
  {
    hide Passes, Visits, After, Visit;
    var a, n, b := c.current - c.walker, c.current, c.walker;
    Sweep(c, a, word);
    var c1 := After(c, a);
    Sweep(c1, n, word);
    var c2 := After(c1, n);
    Sweep(c2, b, word);
    PassesAdd(c, a, n, word);
    PassesAdd(c, a + n, b, word);
  }

  /** Fairness: any 2 * current consecutive visits evict every item of the class exactly once. */
  lemma EveryItemOnce(c: Clock, p: nat)
    requires Running(c)
    ensures multiset(Evicted(c, 2 * c.current))[p] == if p < BITSPERWORD * c.current then 1 else 0
  {
    hide Passes, Evictions, Evicted, After, Visits, Play;
    VisitsAre(c, 2 * c.current, p);
    TwoRounds(c, p / BITSPERWORD);
    if p / BITSPERWORD < |c.words| {
      EvictionLaw(c, Visits(2 * c.current), p);
    } else {
      NeverEvicted(c, 2 * c.current, p);
    }
  }

  lemma {:induction false} NeverEvicted(c: Clock, n: nat, p: nat)
    requires Running(c) && |c.words| <= p / BITSPERWORD
    ensures multiset(Evicted(c, n))[p] == 0
  {
    hide Emits, Visit, Idle;
    if n > 0 {
      NeverEvicted(c, n - 1, p);
      EmitsCount(After(c, n - 1), p);
    }
  }

  /** Only offsets of words in use are handed out. */
  lemma {:induction false} EvictedInRange(c: Clock, n: nat, p: nat)
    requires Running(c) && p in Evicted(c, n)
    ensures p < BITSPERWORD * c.current
  {
    hide Emits, Visit, Idle;
    if p in Evicted(c, n - 1) {
      EvictedInRange(c, n - 1, p);
    } else {
      assert p in multiset(Emits(After(c, n - 1)));
      EmitsCount(After(c, n - 1), p);
    }
  }

  lemma {:induction false} EvictedAdd(c: Clock, m: nat, n: nat)
    requires Running(c)
    ensures After(After(c, m), n) == After(c, m + n)
    ensures Evicted(c, m + n) == Evicted(c, m) + Evicted(After(c, m), n)
  {
    hide Emits, Visit;
    if n > 0 {
      EvictedAdd(c, m, n - 1);
    }
  }

  function Range(n: nat): (s: seq<nat>)
  {
    if n == 0 then [] else Range(n - 1) + [n - 1]
  }

  lemma {:induction false} RangeCount(n: nat, p: nat)
    ensures |Range(n)| == n
    ensures multiset(Range(n))[p] == if p < n then 1 else 0
  {
    if n > 0 {
      RangeCount(n - 1, p);
    }
  }

  /** So two rounds evict as many items as there are. */
  lemma TwoRoundsLength(c: Clock)
    requires Running(c)
    ensures |Evicted(c, 2 * c.current)| == BITSPERWORD * c.current
  {
    hide Evicted, Running;
    var n := BITSPERWORD * c.current;
    var emitted, items := multiset(Evicted(c, 2 * c.current)), multiset(Range(n));
    forall p: nat ensures emitted[p] == items[p] {
      EveryItemOnce(c, p);
      RangeCount(n, p);
    }
    RangeCount(n, 0);
    assert emitted == items;
  }

  /** As long as at most all items are asked for, a batch never contains one twice. */
  lemma BatchDistinct(c: Clock, n: nat)
    requires Running(c)
    requires n == 0 || |Evicted(c, n - 1)| < BITSPERWORD * c.current
    ensures forall a, b | 0 <= a < b < |Evicted(c, n)| :: Evicted(c, n)[a] != Evicted(c, n)[b]
    ensures n <= 2 * c.current
  {
    hide Evicted, After;
    TwoRoundsLength(c);
    var all := 2 * c.current;
    if n > all {
      EvictedAdd(c, all, n - 1 - all);
      assert false;
    }
    EvictedAdd(c, n, all - n);
    var s := Evicted(c, n);
    forall a, b | 0 <= a < b < |s| && s[a] == s[b] ensures false {
      EveryItemOnce(c, s[a]);
      TwiceIn(Evicted(c, all), a, b);
    }
  }

  lemma TwiceIn(s: seq<nat>, a: nat, b: nat)
    requires a < b < |s| && s[a] == s[b]
    ensures multiset(s)[s[a]] >= 2
  {
    var x := s[..a + 1];
    var y := s[a + 1..];
    assert s == x + y;
    assert x[a] == s[a] && y[b - a - 1] == s[a];
    assert s[a] in multiset(x) && s[a] in multiset(y);
  }
}
