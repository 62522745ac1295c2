/** How GET and SET queries take turns in the frames of the local test, and which keys they get. */
module PacketTurns {
  import opened Arithmetic
  import opened Wire
  import opened PacketSpec

  /** The run in hand, and how long the runs are that follow it. */
  datatype Turns = Turns(numGet: nat, numSet: nat, definedGet: nat, definedSet: nat)

  /**
   Whether query number k from now on is a GET: first the rest of the run in hand, then
   full runs of the two kinds in turn.
   */
  predicate GetTurn(t: Turns, k: nat)
    requires t.definedGet + t.definedSet > 0
  {
    var round := t.definedGet + t.definedSet;
    if t.numGet > 0 then k < t.numGet || (k - t.numGet) % round >= t.definedSet
    else k >= t.numSet && (k - t.numSet) % round < t.definedGet
  }

  /** The counters behind the next query. */
  function NextTurn(t: Turns): Turns
    requires t.numGet + t.numSet > 0
  {
    if t.numGet > 1 then t.(numGet := t.numGet - 1)
    else if t.numGet == 1 then
      if t.definedSet > 0 then t.(numGet := 0, numSet := t.definedSet) else t.(numGet := t.definedGet)
    else if t.numSet > 1 then t.(numSet := t.numSet - 1)
    else if t.definedGet > 0 then t.(numSet := 0, numGet := t.definedGet)
    else t.(numSet := t.definedSet)
  }

  lemma TurnsGoOn(t: Turns, k: nat)
    requires t.definedGet + t.definedSet > 0 && t.numGet + t.numSet > 0
    ensures GetTurn(t, 0) <==> t.numGet > 0
    ensures GetTurn(NextTurn(t), k) <==> GetTurn(t, k + 1)
    ensures NextTurn(t).definedGet == t.definedGet && NextTurn(t).definedSet == t.definedSet
  {
    var g, s := t.definedGet, t.definedSet;
    Rotated(k, s, g);
    Rotated(k, g, s);
    if t.numGet == 0 && t.numSet > 0 {
      assert t.numSet == 1 ==> k + 1 - t.numSet == k;
    }
  }

  /** Behind a run of s, round by round. */
  lemma Rotated(k: nat, s: nat, g: nat)
    requires s + g > 0
    ensures k % (s + g) >= s <==> k >= s && (k - s) % (s + g) < g
  {
    var n := s + g;
    var q, r := k / n, k % n;
    assert k == n * q + r;
    if r >= s {
      NotBelow(n, q);
      RemainderOf(k - s, n, q, r - s);
    } else if k >= s {
      assert n * (q - 1) == n * q - n;
      RemainderOf(k - s, n, q - 1, r + g);
    }
  }

  lemma NotBelow(n: nat, q: nat)
    ensures n * q >= 0
  {
  }

  function Gets(qs: seq<Query>): (n: nat)
    ensures n <= |qs|
  {
    if qs == [] then 0 else Gets(qs[..|qs| - 1]) + if qs[|qs| - 1].Get? then 1 else 0
  }

  /** GETs take the generator's keys one after the other, SETs the numbers from setKey on. */
  function KeyOfTurn(qs: seq<Query>, k: nat, getKeys: nat -> Quad, setKey: nat): nat
    requires k < |qs|
  {
    var gets := Gets(qs[..k]);
    if qs[k].Get? then getKeys(gets) else setKey + k - gets
  }

  /** The queries follow the turns t0, and go on with t. */
  ghost predicate InTurn(t0: Turns, t: Turns, qs: seq<Query>, keys: seq<Quad>, getKeys: nat -> Quad, setKey: nat)
    requires t0.definedGet + t0.definedSet > 0
  {
    && t.definedGet == t0.definedGet && t.definedSet == t0.definedSet && |keys| == |qs|
    && (forall k: nat | k < |qs| :: qs[k].Get? <==> GetTurn(t0, k))
    && (forall k: nat | k < |qs| :: keys[k] == KeyOfTurn(qs, k, getKeys, setKey))
    && forall k: nat :: GetTurn(t, k) <==> GetTurn(t0, |qs| + k)
  }

  lemma NothingYet(t: Turns, getKeys: nat -> Quad, setKey: nat)
    requires t.definedGet + t.definedSet > 0
    ensures InTurn(t, t, [], [], getKeys, setKey)
  {
  }

  /** One more query. */
  lemma OneMoreTurn(t0: Turns, t: Turns, qs: seq<Query>, keys: seq<Quad>, getKeys: nat -> Quad, setKey: nat,
                    q: Query, key: Quad)
    requires t0.definedGet + t0.definedSet > 0 && InTurn(t0, t, qs, keys, getKeys, setKey) && t.numGet + t.numSet > 0
    requires q.Get? == (t.numGet > 0)
    requires key == if q.Get? then getKeys(Gets(qs)) else setKey + |qs| - Gets(qs)
    ensures InTurn(t0, NextTurn(t), qs + [q], keys + [key], getKeys, setKey)
    ensures Gets(qs + [q]) == Gets(qs) + if q.Get? then 1 else 0
  {
    hide GetTurn, NextTurn, Gets, KeyOfTurn;
    GetsNext(qs, q);
    TurnsNext(t0, t, |qs|);
    forall k: nat | k < |qs + [q]| ensures (keys + [key])[k] == KeyOfTurn(qs + [q], k, getKeys, setKey) {
      KeyNext(qs, q, k, getKeys, setKey);
    }
  }

  lemma GetsNext(qs: seq<Query>, q: Query)
    ensures Gets(qs + [q]) == Gets(qs) + if q.Get? then 1 else 0
  {
    assert (qs + [q])[..|qs|] == qs;
  }

  lemma KeyNext(qs: seq<Query>, q: Query, k: nat, getKeys: nat -> Quad, setKey: nat)
    requires k <= |qs|
    ensures KeyOfTurn(qs + [q], k, getKeys, setKey) ==
            if k < |qs| then KeyOfTurn(qs, k, getKeys, setKey)
            else if q.Get? then getKeys(Gets(qs)) else setKey + |qs| - Gets(qs)
  {
    assert (qs + [q])[..k] == qs[..k] && qs[..|qs|] == qs;
  }

  lemma TurnsNext(t0: Turns, t: Turns, n: nat)
    requires t0.definedGet + t0.definedSet > 0 && t.definedGet + t.definedSet > 0 && t.numGet + t.numSet > 0
    requires forall k: nat :: GetTurn(t, k) <==> GetTurn(t0, n + k)
    ensures GetTurn(t0, n) <==> t.numGet > 0
    ensures NextTurn(t).definedGet == t.definedGet && NextTurn(t).definedSet == t.definedSet
    ensures forall k: nat :: GetTurn(NextTurn(t), k) <==> GetTurn(t0, n + 1 + k)
  {
    hide GetTurn, NextTurn;
    TurnsGoOn(t, 0);
    assert GetTurn(t, 0) <==> GetTurn(t0, n + 0);
    forall k: nat ensures GetTurn(NextTurn(t), k) <==> GetTurn(t0, n + 1 + k) {
      TurnsGoOn(t, k);
      assert GetTurn(t, k + 1) <==> GetTurn(t0, n + (k + 1));
    }
  }
}
