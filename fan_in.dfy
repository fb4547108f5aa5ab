/**
 * The bounded put-or-drop queue between the collector threads and the metrics
 * processor, as the collector tests pin it down: a queue of fixed capacity refuses a
 * result when full, the producer counts the drop and carries on with the next result,
 * and a warning is logged on the 1st, 11th, 21st, ... drop. Nothing consumes from the
 * queue while the producer runs.
 */
module FanIn {

  /** `Queue(maxsize)` refuses a put once it holds `maxsize` items; a maxsize of 0 is unbounded. */
  predicate IsFull<T>(capacity: nat, items: seq<T>) {
    capacity > 0 && |items| >= capacity
  }

  /** A non-blocking put: the queue after it, and whether the item was accepted. */
  function Offer<T>(capacity: nat, items: seq<T>, x: T): (r: (seq<T>, bool))
    ensures r.1 <==> !IsFull(capacity, items)
    ensures |r.0| == |items| + (if r.1 then 1 else 0)
    ensures r.0[..|items|] == items
    ensures r.1 ==> r.0[|items|] == x
    ensures capacity > 0 && |items| <= capacity ==> |r.0| <= capacity
  {
    if IsFull(capacity, items) then (items, false) else (items + [x], true)
  }

  /** A run of puts in order: the queue after them, and how many were dropped. */
  function OfferAll<T>(capacity: nat, items: seq<T>, xs: seq<T>): (r: (seq<T>, nat))
    ensures |r.0| + r.1 == |items| + |xs|
    ensures |r.0| >= |items| && r.0[..|items|] == items
  {
    if xs == [] then (items, 0)
    else
      var before := OfferAll(capacity, items, xs[..|xs| - 1]);
      var after := Offer(capacity, before.0, xs[|xs| - 1]);
      assert after.0[..|items|] == before.0[..|items|];
      (after.0, before.1 + (if after.1 then 0 else 1))
  }

  /** How many items a queue holding `items` still takes from `n` offers. */
  function Room<T>(capacity: nat, items: seq<T>, n: nat): nat {
    if capacity == 0 || |items| + n <= capacity then n
    else if |items| <= capacity then capacity - |items|
    else 0
  }

  lemma OfferAllStep<T>(capacity: nat, items: seq<T>, xs: seq<T>, x: T)
    ensures OfferAll(capacity, items, xs + [x])
      == var before := OfferAll(capacity, items, xs);
         var after := Offer(capacity, before.0, x);
         (after.0, before.1 + (if after.1 then 0 else 1))
  {
    assert (xs + [x])[..|xs|] == xs;
  }

  /** Extending a prefix of `xs` by one item, after some earlier items. */
  lemma ExtendPrefix<T>(p: seq<T>, xs: seq<T>, i: nat)
    requires i < |xs|
    ensures p + xs[..i + 1] == (p + xs[..i]) + [xs[i]]
  {
    assert xs[..i + 1] == xs[..i] + [xs[i]];
  }

  /** The puts of the first `i + 1` items are those of the first `i`, then one more. */
  lemma OfferAllPrefix<T>(capacity: nat, items: seq<T>, xs: seq<T>, i: nat)
    requires i < |xs|
    ensures var before := OfferAll(capacity, items, xs[..i]);
      var after := Offer(capacity, before.0, xs[i]);
      OfferAll(capacity, items, xs[..i + 1]) == (after.0, before.1 + (if after.1 then 0 else 1))
  {
    assert xs[..i + 1] == xs[..i] + [xs[i]];
    OfferAllStep(capacity, items, xs[..i], xs[i]);
  }

  /**
   * The queue takes the first offers until it is full and drops every later one: the
   * accepted items are a prefix of the offers, in order, and the rest are the drops.
   */
  lemma {:induction false} OfferAllAcceptsPrefix<T>(capacity: nat, items: seq<T>, xs: seq<T>)
    ensures var k := Room(capacity, items, |xs|);
      && k <= |xs|
      && OfferAll(capacity, items, xs).0 == items + xs[..k]
      && OfferAll(capacity, items, xs).1 == |xs| - k
  {
    if xs != [] {
      var init := xs[..|xs| - 1];
      var x := xs[|xs| - 1];
      assert init + [x] == xs;
      OfferAllAcceptsPrefix(capacity, items, init);
      OfferAllStep(capacity, items, init, x);
      var k := Room(capacity, items, |init|);
      assert xs[..k] == init[..k];
      if !IsFull(capacity, items + init[..k]) {
        assert Room(capacity, items, |xs|) == k + 1;
        assert xs[..k + 1] == init[..k] + [x];
      }
    }
  }

  /** An empty queue of positive capacity never holds more than its capacity. */
  lemma {:induction false} OfferAllBounded<T>(capacity: nat, xs: seq<T>)
    requires capacity > 0
    ensures |OfferAll(capacity, [], xs).0| <= capacity
    ensures |OfferAll(capacity, [], xs).0| == if |xs| <= capacity then |xs| else capacity
  {
    OfferAllAcceptsPrefix(capacity, [], xs);
  }

  /** A full queue refuses every further put and counts each one as a drop. */
  lemma {:induction false} FullQueueDropsAll<T>(capacity: nat, items: seq<T>, xs: seq<T>)
    requires IsFull(capacity, items)
    ensures OfferAll(capacity, items, xs) == (items, |xs|)
  {
    OfferAllAcceptsPrefix(capacity, items, xs);
    assert xs[..0] == [];
  }

  /** Capacity 100 and 200 puts: exactly 100 are taken. */
  lemma HundredOfTwoHundred<T>(xs: seq<T>)
    requires |xs| == 200
    ensures |OfferAll(100, [], xs).0| == 100 && OfferAll(100, [], xs).1 == 100
  {
    OfferAllAcceptsPrefix(100, [], xs);
  }

  /** Capacity 2 and 5 puts: 2 are processed and 3 dropped, and the producer gets through all 5. */
  lemma TwoOfFive<T>(xs: seq<T>)
    requires |xs| == 5
    ensures OfferAll(2, [], xs) == (xs[..2], 3)
  {
    OfferAllAcceptsPrefix(2, [], xs);
  }

  /** Capacity 1000 and 50 puts: the queue holds exactly the 50 items, in order. */
  lemma FiftyInThousand<T>(xs: seq<T>)
    requires |xs| == 50
    ensures OfferAll(1000, [], xs) == (xs, 0)
  {
    OfferAllAcceptsPrefix(1000, [], xs);
    assert xs[..50] == xs;
  }

  // ---------------------------------------------------------------------------
  // Rate-limited warnings

  /** The drop counter values at which a warning is logged. */
  predicate WarnsAt(dropped: nat) {
    dropped % 10 == 1
  }

  /** How many warnings the first `n` drops log. */
  function Logged(n: nat): nat {
    if n == 0 then 0 else Logged(n - 1) + (if WarnsAt(n) then 1 else 0)
  }

  /** One warning per started block of ten drops. */
  lemma {:induction false} LoggedCount(n: nat)
    ensures Logged(n) == (n + 9) / 10
  {
    if n > 0 {
      LoggedCount(n - 1);
    }
  }

  /** 25 drops log 3 warnings (at drops 1, 11 and 21); 15 drops log 2. */
  lemma TwentyFiveDropsThreeWarnings()
    ensures Logged(25) == 3 && Logged(15) == 2
  {
    LoggedCount(25);
    LoggedCount(15);
  }

  /**
   * The queue with its producer-side counters: `dropped` counts the refused puts and
   * `logged` the warnings; `offered` is every item offered so far.
   */
  class BoundedQueue<T> {
    var items: seq<T>
    const capacity: nat
    var dropped: nat
    var logged: nat
    ghost var offered: seq<T>

    /** The queue and counters are those of offering everything so far to an empty queue. */
    ghost predicate Valid()
      reads this
    {
      && items == OfferAll(capacity, [], offered).0
      && dropped == OfferAll(capacity, [], offered).1
      && logged == Logged(dropped)
    }

    constructor(maxsize: nat)
      ensures Valid() && capacity == maxsize
      ensures items == [] && dropped == 0 && logged == 0 && offered == []
    {
      items, dropped, logged, offered := [], 0, 0, [];
      capacity := maxsize;
    }

    /**
     * One put: a full queue refuses the item, the drop is counted, and a warning is
     * logged when the count ends in 1; otherwise the item is appended.
     */
    method Put(x: T) returns (accepted: bool)
      requires Valid()
      modifies this
      ensures Valid() && offered == old(offered) + [x]
      ensures accepted <==> !IsFull(capacity, old(items))
      ensures items == Offer(capacity, old(items), x).0
      ensures dropped == old(dropped) + (if accepted then 0 else 1)
      ensures logged == old(logged) + (if !accepted && WarnsAt(dropped) then 1 else 0)
    {
      OfferAllStep(capacity, [], offered, x);
      if IsFull(capacity, items) {
        dropped := dropped + 1;
        if dropped % 10 == 1 {
          logged := logged + 1;
        }
        accepted := false;
      } else {
        items := items + [x];
        accepted := true;
      }
      offered := offered + [x];
    }

    /**
     * The producer loop: every item is offered in turn, whatever happened to the one
     * before; it returns how many were accepted and how many dropped.
     */
    method PutAll(xs: seq<T>) returns (accepted: nat, refused: nat)
      requires Valid()
      modifies this
      ensures Valid() && offered == old(offered) + xs
      ensures items == OfferAll(capacity, old(items), xs).0
      ensures refused == OfferAll(capacity, old(items), xs).1
      ensures dropped == old(dropped) + refused
      ensures accepted + refused == |xs| && |items| == |old(items)| + accepted
    {
      accepted, refused := 0, 0;
      for i := 0 to |xs|
        invariant Valid() && offered == old(offered) + xs[..i]
        invariant items == OfferAll(capacity, old(items), xs[..i]).0
        invariant refused == OfferAll(capacity, old(items), xs[..i]).1
        invariant dropped == old(dropped) + refused
        invariant accepted + refused == i
      {
        OfferAllPrefix(capacity, old(items), xs, i);
        ExtendPrefix(old(offered), xs, i);
        var ok := Put(xs[i]);
        if ok {
          accepted := accepted + 1;
        } else {
          refused := refused + 1;
        }
      }
      assert xs[..|xs|] == xs;
    }
  }
}
