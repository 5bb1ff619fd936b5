/**
 * Vector clocks: node ids mapped to counters, with an absent entry read as zero
 * (server/src/crdt/vector_clock.rs).
 *
 * A clock is a value of type `Clock`. The loops of the source that only read their
 * arguments are methods on clocks; each visits its keys in an arbitrary order, as a
 * hash map does.
 */
module VectorClocks {

  type NodeId = string
  type Clock = map<NodeId, nat>

  function Max(a: nat, b: nat): nat { if a < b then b else a }

  /** The counter of a node, zero when the clock does not name it. */
  function At(c: Clock, n: NodeId): nat { if n in c then c[n] else 0 }

  /** Pointwise order of two clocks under the default-zero reading. */
  ghost predicate Leq(a: Clock, b: Clock) { forall n: NodeId :: At(a, n) <= At(b, n) }

  /** Equality of two clocks under the default-zero reading. */
  ghost predicate Same(a: Clock, b: Clock) { forall n: NodeId :: At(a, n) == At(b, n) }

  ghost predicate Before(a: Clock, b: Clock) { Leq(a, b) && !Leq(b, a) }

  ghost predicate Concurrent(a: Clock, b: Clock) { !Leq(a, b) && !Leq(b, a) }

  /** The sign that comparing two clocks yields. */
  ghost function Order(a: Clock, b: Clock): int {
    if Before(a, b) then -1 else if Before(b, a) then 1 else 0
  }

  /** A clock that names one node. */
  function Single(n: NodeId, v: nat): Clock { map[n := v] }

  function Incremented(c: Clock, n: NodeId): Clock { c[n := At(c, n) + 1] }

  /** Entry-wise maximum; `JoinIsLeastUpperBound` says what it means. */
  function Join(a: Clock, b: Clock): Clock {
    map n | n in a.Keys + b.Keys :: Max(At(a, n), At(b, n))
  }

  // ---------------------------------------------------------------------------
  // The operations of the source
  // ---------------------------------------------------------------------------

  /** A clock changed in place. */
  class VectorClock {
    var counters: Clock

    constructor (nodeId: NodeId, initialValue: nat)
      ensures counters == Single(nodeId, initialValue)
    {
      counters := map[nodeId := initialValue];
    }

    /** Counts one more event of `nodeId` and leaves every other entry alone. */
    method Increment(nodeId: NodeId)
      modifies this
      ensures counters == Incremented(old(counters), nodeId)
      ensures Before(old(counters), counters)
      ensures forall n :: n != nodeId ==> At(counters, n) == At(old(counters), n)
    {
      if nodeId !in counters {
        counters := counters[nodeId := 0];
      }
      counters := counters[nodeId := counters[nodeId] + 1];
      assert At(old(counters), nodeId) < At(counters, nodeId);
    }
  }

  /** Starts from one clock and raises it entry by entry to cover the other. */
  method Merge(self: Clock, other: Clock) returns (merged: Clock)
    ensures merged == Join(self, other)
  {
    merged := self;
    var rest := other.Keys;
    while rest != {}
      invariant rest <= other.Keys
      invariant merged.Keys == self.Keys + (other.Keys - rest)
      invariant forall n :: n in merged ==>
        merged[n] == if n in rest then At(self, n) else Max(At(self, n), At(other, n))
      decreases rest
    {
      var n :| n in rest;
      var entry := if n in merged then merged[n] else 0;
      merged := merged[n := Max(entry, other[n])];
      rest := rest - {n};
    }
  }

  /** -1 when self is strictly below other, 1 when strictly above, 0 otherwise. */
  method Compare(self: Clock, other: Clock) returns (r: int)
    ensures r == Order(self, other)
    ensures -1 <= r <= 1
  {
    var lessThan, greaterThan := false, false;
    var rest := self.Keys + other.Keys;
    while rest != {}
      invariant rest <= self.Keys + other.Keys
      invariant lessThan <==> exists n :: n !in rest && At(self, n) < At(other, n)
      invariant greaterThan <==> exists n :: n !in rest && At(self, n) > At(other, n)
      decreases rest
    {
      var n :| n in rest;
      var c1, c2 := At(self, n), At(other, n);
      if c1 < c2 {
        lessThan := true;
      } else if c1 > c2 {
        greaterThan := true;
      }
      rest := rest - {n};
    }
    assert lessThan <==> !Leq(other, self);
    assert greaterThan <==> !Leq(self, other);
    if lessThan && !greaterThan {
      r := -1;
    } else if greaterThan && !lessThan {
      r := 1;
    } else {
      r := 0;
    }
  }

  method HappenedBefore(self: Clock, other: Clock) returns (r: bool)
    ensures r <==> Before(self, other)
  {
    var c := Compare(self, other);
    r := c == -1;
  }

  /** Stops at the first entry on which the clocks differ. */
  method Equals(self: Clock, other: Clock) returns (r: bool)
    ensures r <==> Same(self, other)
  {
    var rest := self.Keys + other.Keys;
    while rest != {}
      invariant rest <= self.Keys + other.Keys
      invariant forall n :: n !in rest ==> At(self, n) == At(other, n)
      decreases rest
    {
      var n :| n in rest;
      if At(self, n) != At(other, n) {
        return false;
      }
      rest := rest - {n};
    }
    r := true;
  }

  method IsConcurrent(self: Clock, other: Clock) returns (r: bool)
    ensures r <==> Concurrent(self, other)
  {
    var c := Compare(self, other);
    if c == 0 {
      var e := Equals(self, other);
      r := !e;
      SameIsBothWays(self, other);
    } else {
      r := false;
    }
  }

  // ---------------------------------------------------------------------------
  // The order that comparing clocks induces
  // ---------------------------------------------------------------------------

  lemma SameIsBothWays(a: Clock, b: Clock)
    ensures Same(a, b) <==> Leq(a, b) && Leq(b, a)
  {
    if Leq(a, b) && Leq(b, a) {
      forall n: NodeId ensures At(a, n) == At(b, n) {}
    }
    if Same(a, b) {
      forall n: NodeId ensures At(a, n) == At(b, n) && At(b, n) == At(a, n) {}
    }
  }

  lemma LeqTransitive(a: Clock, b: Clock, c: Clock)
    requires Leq(a, b) && Leq(b, c)
    ensures Leq(a, c)
  {
    forall n: NodeId ensures At(a, n) <= At(c, n) {
      assert At(a, n) <= At(b, n) <= At(c, n);
    }
  }

  lemma JoinAt(a: Clock, b: Clock, n: NodeId)
    ensures At(Join(a, b), n) == Max(At(a, n), At(b, n))
  {}

  /** Merging is exactly the least upper bound: it covers both and nothing smaller does. */
  lemma JoinIsLeastUpperBound(a: Clock, b: Clock, c: Clock)
    ensures Leq(a, Join(a, b)) && Leq(b, Join(a, b))
    ensures Leq(Join(a, b), c) <==> Leq(a, c) && Leq(b, c)
  {
    forall n: NodeId ensures At(Join(a, b), n) == Max(At(a, n), At(b, n)) { JoinAt(a, b, n); }
    if Leq(Join(a, b), c) {
      forall n: NodeId ensures At(a, n) <= At(c, n) && At(b, n) <= At(c, n) {
        assert At(Join(a, b), n) <= At(c, n);
      }
    }
    if Leq(a, c) && Leq(b, c) {
      forall n: NodeId ensures At(Join(a, b), n) <= At(c, n) {
        assert At(a, n) <= At(c, n) && At(b, n) <= At(c, n);
      }
    }
  }

  /** "Happened before" is a strict partial order that cannot tell equal clocks apart. */
  lemma BeforeIsStrictPartialOrder(a: Clock, b: Clock, c: Clock)
    ensures !Before(a, a)
    ensures Before(a, b) ==> !Before(b, a)
    ensures Before(a, b) && Before(b, c) ==> Before(a, c)
    ensures Before(a, b) && Same(b, c) ==> Before(a, c)
    ensures Same(a, b) && Before(b, c) ==> Before(a, c)
  {
    SameIsBothWays(a, b);
    SameIsBothWays(b, c);
    if Leq(a, b) && Leq(b, c) {
      LeqTransitive(a, b, c);
      if Leq(c, a) {
        LeqTransitive(b, c, a);
        LeqTransitive(c, a, b);
      }
    }
  }

  /** Any two clocks are before, after, equal or concurrent, and never two of these. */
  lemma ExactlyOneRelation(a: Clock, b: Clock)
    ensures Before(a, b) || Before(b, a) || Same(a, b) || Concurrent(a, b)
    ensures !(Before(a, b) && Before(b, a)) && !(Before(a, b) && Same(a, b)) && !(Before(a, b) && Concurrent(a, b))
    ensures !(Before(b, a) && Same(a, b)) && !(Before(b, a) && Concurrent(a, b)) && !(Same(a, b) && Concurrent(a, b))
    ensures Order(a, b) == -Order(b, a)
    ensures Order(a, b) == 0 <==> Same(a, b) || Concurrent(a, b)
  {
    SameIsBothWays(a, b);
  }
}
