/**
 * The last-write-wins element set (server/src/crdt/lww_element_set.rs).
 *
 * A set stores one element per key. The key of a value is whatever text it serialises to;
 * nothing here depends on that text, so the key function is a parameter.
 */
module LwwElementSets {
  import opened VectorClocks

  type Key = string

  datatype Element<T> = Element(value: T, timestamp: int, clock: Clock, isAdd: bool)

  type State<T> = map<Key, Element<T>>

  // ---------------------------------------------------------------------------
  // What each operation does to the state, branch by branch
  // ---------------------------------------------------------------------------

  /** Whether a local write made now replaces what is stored. */
  ghost predicate Takes<T>(s: State<T>, key: Key, node: NodeId, timestamp: int) {
    key in s ==>
      || timestamp > s[key].timestamp
      || (timestamp == s[key].timestamp && Order(Single(node, 1), s[key].clock) > 0)
  }

  ghost function Written<T>(s: State<T>, key: Key, value: T, node: NodeId, timestamp: int, isAdd: bool): State<T> {
    if Takes(s, key, node, timestamp) then s[key := Element(value, timestamp, Single(node, 1), isAdd)] else s
  }

  /** The element kept when both sides hold the key. */
  ghost function MergedElement<T>(existing: Element<T>, other: Element<T>): Element<T> {
    if other.timestamp > existing.timestamp then other
    else if other.timestamp < existing.timestamp then existing
    else
      var order := Order(other.clock, existing.clock);
      if order > 0 || (order == 0 && other.isAdd && !existing.isAdd)
      then other.(clock := Join(existing.clock, other.clock))
      else existing
  }

  ghost function Merged<T>(s: State<T>, other: State<T>): State<T> {
    map k | k in s.Keys + other.Keys ::
      if k !in other then s[k] else if k !in s then other[k] else MergedElement(s[k], other[k])
  }

  ghost function AddedKeys<T>(s: State<T>): set<Key> { set k | k in s && s[k].isAdd }

  /** `values` are those of the added keys, listed in the order of `keys`, each key once. */
  ghost predicate ListsAdded<T>(values: seq<T>, keys: seq<Key>, s: State<T>) {
    && |keys| == |values| && (forall k :: k in keys <==> k in AddedKeys(s))
    && (forall i, j :: 0 <= i < j < |keys| ==> keys[i] != keys[j])
    && (forall i :: 0 <= i < |keys| ==> keys[i] in s && values[i] == s[keys[i]].value)
  }

  // ---------------------------------------------------------------------------
  // The set in place
  // ---------------------------------------------------------------------------

  class LwwElementSet<T> {
    const keyOf: T -> Key
    var elements: State<T>

    constructor (keyOf: T -> Key)
      ensures this.keyOf == keyOf && elements == map[]
    {
      this.keyOf := keyOf;
      elements := map[];
    }

    method Add(value: T, nodeId: NodeId, timestamp: int)
      modifies this
      ensures elements == Written(old(elements), keyOf(value), value, nodeId, timestamp, true)
      ensures elements - {keyOf(value)} == old(elements) - {keyOf(value)}
      ensures keyOf(value) in old(elements) && timestamp < old(elements)[keyOf(value)].timestamp ==> elements == old(elements)
      ensures keyOf(value) !in old(elements) || timestamp > old(elements)[keyOf(value)].timestamp ==>
                elements == old(elements)[keyOf(value) := Element(value, timestamp, Single(nodeId, 1), true)]
    {
      Write(value, nodeId, timestamp, true);
    }

    method Remove(value: T, nodeId: NodeId, timestamp: int)
      modifies this
      ensures elements == Written(old(elements), keyOf(value), value, nodeId, timestamp, false)
      ensures elements - {keyOf(value)} == old(elements) - {keyOf(value)}
      ensures keyOf(value) in old(elements) && timestamp < old(elements)[keyOf(value)].timestamp ==> elements == old(elements)
      ensures keyOf(value) !in old(elements) || timestamp > old(elements)[keyOf(value)].timestamp ==>
                elements == old(elements)[keyOf(value) := Element(value, timestamp, Single(nodeId, 1), false)]
    {
      Write(value, nodeId, timestamp, false);
    }

    /** Adding and removing differ only in the flag they store. */
    method Write(value: T, nodeId: NodeId, timestamp: int, isAdd: bool)
      modifies this
      ensures elements == Written(old(elements), keyOf(value), value, nodeId, timestamp, isAdd)
    {
      var key := keyOf(value);
      var clock := Single(nodeId, 1);
      if key in elements {
        var existing := elements[key];
        if timestamp > existing.timestamp {
          elements := elements[key := Element(value, timestamp, clock, isAdd)];
        } else if timestamp == existing.timestamp {
          var comparison := Compare(clock, existing.clock);
          if comparison > 0 {
            elements := elements[key := Element(value, timestamp, clock, isAdd)];
          }
        }
      } else {
        elements := elements[key := Element(value, timestamp, clock, isAdd)];
      }
    }

    method Has(value: T) returns (r: bool)
      ensures r <==> keyOf(value) in AddedKeys(elements)
    {
      var key := keyOf(value);
      r := key in elements && elements[key].isAdd;
    }

    /** The values of the added elements, one for each added key, in any order. */
    method Values() returns (result: seq<T>)
      ensures exists order :: ListsAdded(result, order, elements)
    {
      result := [];
      ghost var order: seq<Key> := [];
      var rest := elements.Keys;
      while rest != {}
        invariant rest <= elements.Keys
        invariant |order| == |result| && forall k :: k in order <==> k in AddedKeys(elements) && k !in rest
        invariant forall i, j :: 0 <= i < j < |order| ==> order[i] != order[j]
        invariant forall i :: 0 <= i < |order| ==> order[i] in elements && result[i] == elements[order[i]].value
        decreases rest
      {
        var k :| k in rest;
        rest := rest - {k};
        if elements[k].isAdd {
          result := result + [elements[k].value];
          order := order + [k];
        }
      }
      assert ListsAdded(result, order, elements);
    }

    method Size() returns (count: nat)
      ensures count == |AddedKeys(elements)|
    {
      count := 0;
      var rest := elements.Keys;
      ghost var counted: set<Key> := {};
      while rest != {}
        invariant rest <= elements.Keys
        invariant counted == set k | k in AddedKeys(elements) && k !in rest
        invariant count == |counted|
        decreases rest
      {
        var k :| k in rest;
        rest := rest - {k};
        if elements[k].isAdd {
          count := count + 1;
          counted := counted + {k};
        }
      }
      assert counted == AddedKeys(elements);
    }

    /** Folds the other set in, key by key, in whatever order its keys come. */
    method Merge(other: LwwElementSet<T>)
      requires other != this
      modifies this
      ensures elements == Merged(old(elements), other.elements)
    {
      hide Order, Join;
      var rest := other.elements.Keys;
      while rest != {}
        invariant rest <= other.elements.Keys && other.elements == old(other.elements)
        invariant elements.Keys == old(elements).Keys + (other.elements.Keys - rest)
        invariant forall k :: k in elements ==>
          elements[k] == if k in rest then old(elements)[k] else Merged(old(elements), other.elements)[k]
        decreases rest
      {
        var key :| key in rest;
        var otherElement := other.elements[key];
        if key in elements {
          var existing := elements[key];
          if otherElement.timestamp > existing.timestamp {
            elements := elements[key := otherElement];
          } else if otherElement.timestamp == existing.timestamp {
            var mergedClock := VectorClocks.Merge(existing.clock, otherElement.clock);
            var comparison := Compare(otherElement.clock, existing.clock);
            if comparison > 0 {
              elements := elements[key := otherElement.(clock := mergedClock)];
            } else if comparison == 0 {
              if otherElement.isAdd && !existing.isAdd {
                elements := elements[key := otherElement.(clock := mergedClock)];
              }
            }
          }
        } else {
          elements := elements[key := otherElement];
        }
        rest := rest - {key};
      }
    }

    method Clear()
      modifies this
      ensures elements == map[]
    {
      elements := map[];
    }
  }

  // ---------------------------------------------------------------------------
  // Reachable states
  // ---------------------------------------------------------------------------

  /**
   * How a replica came to its state. A merge carries the whole past of the replica whose
   * state was merged in, so every state of every run of any number of replicas has one.
   */
  datatype Past<T> =
    | New
    | Write(previous: Past<T>, value: T, node: NodeId, timestamp: int, isAdd: bool)
    | Merge(previous: Past<T>, other: Past<T>)
    | Clear(previous: Past<T>)

  ghost function StateOf<T>(p: Past<T>, keyOf: T -> Key): State<T> {
    match p
    case New => map[]
    case Write(q, value, node, timestamp, isAdd) =>
      Written(StateOf(q, keyOf), keyOf(value), value, node, timestamp, isAdd)
    case Merge(q, o) => Merged(StateOf(q, keyOf), StateOf(o, keyOf))
    case Clear(_) => map[]
  }

  // ---------------------------------------------------------------------------
  // The shape of stored clocks
  // ---------------------------------------------------------------------------

  /** All counters are 1, some node is named, and a tombstone names exactly one. */
  ghost predicate Shaped<T>(e: Element<T>) {
    && e.clock != map[]
    && (forall n :: n in e.clock ==> e.clock[n] == 1)
    && (!e.isAdd ==> exists n :: e.clock == Single(n, 1))
  }

  ghost predicate AllShaped<T>(s: State<T>) { forall k :: k in s ==> Shaped(s[k]) }

  /** Between shaped clocks, comparing greater means naming strictly more nodes. */
  lemma OrderOfShaped<T>(a: Element<T>, b: Element<T>)
    requires Shaped(a) && Shaped(b)
    ensures Leq(a.clock, b.clock) <==> a.clock.Keys <= b.clock.Keys
    ensures Order(a.clock, b.clock) > 0 ==> a.isAdd && a.clock.Keys > b.clock.Keys
  {
    if Leq(a.clock, b.clock) {
      forall n | n in a.clock ensures n in b.clock { assert At(a.clock, n) <= At(b.clock, n); }
    }
    if Order(a.clock, b.clock) > 0 {
      forall n | n in b.clock ensures n in a.clock { assert At(b.clock, n) <= At(a.clock, n); }
      var m: NodeId :| At(a.clock, m) > At(b.clock, m);
      assert m in a.clock && m !in b.clock;
      var x :| x in b.clock;
      assert x in a.clock && x != m;
    }
  }

  /** At equal timestamps a tombstone's clock never compares greater than an add's. */
  lemma TombstoneNeverGreater<T>(tombstone: Element<T>, add: Element<T>)
    requires Shaped(tombstone) && Shaped(add) && !tombstone.isAdd
    ensures Order(tombstone.clock, add.clock) <= 0
  {
    if Order(tombstone.clock, add.clock) > 0 { OrderOfShaped(tombstone, add); }
  }

  /** A fresh one-node clock never compares greater than a stored one. */
  lemma SingleNeverGreater<T>(node: NodeId, e: Element<T>)
    requires Shaped(e)
    ensures Order(Single(node, 1), e.clock) <= 0
  {
    assert node in Single(node, 1);
    TombstoneNeverGreater(Element(e.value, 0, Single(node, 1), false), e);
  }

  lemma MergedElementShaped<T>(a: Element<T>, b: Element<T>)
    requires Shaped(a) && Shaped(b)
    ensures Shaped(MergedElement(a, b))
  {
    if a.timestamp == b.timestamp {
      var j := Join(a.clock, b.clock);
      assert j.Keys == a.clock.Keys + b.clock.Keys;
      var x :| x in b.clock;
      assert x in j;
      if Order(b.clock, a.clock) > 0 { OrderOfShaped(b, a); }
    }
  }

  /** Clock shape: in every reachable state, whatever the run. */
  lemma {:induction false} ReachableShaped<T>(p: Past<T>, keyOf: T -> Key)
    ensures AllShaped(StateOf(p, keyOf))
  {
    match p
    case New =>
    case Clear(_) =>
    case Write(q, value, node, timestamp, isAdd) =>
      ReachableShaped(q, keyOf);
      var s, e := StateOf(q, keyOf), Element(value, timestamp, Single(node, 1), isAdd);
      assert node in e.clock && Shaped(e);
    case Merge(q, o) =>
      ReachableShaped(q, keyOf);
      ReachableShaped(o, keyOf);
      var s, t := StateOf(q, keyOf), StateOf(o, keyOf);
      forall k | k in s && k in t ensures Shaped(MergedElement(s[k], t[k])) { MergedElementShaped(s[k], t[k]); }
  }

  // ---------------------------------------------------------------------------
  // The visible part: timestamp and flag
  // ---------------------------------------------------------------------------

  /** What a reader can tell of one element. */
  datatype Mark = Mark(timestamp: int, isAdd: bool) {
    /** Lexicographic order, with an add above a removal at equal timestamps. */
    predicate AtMost(other: Mark) {
      timestamp < other.timestamp || (timestamp == other.timestamp && (isAdd ==> other.isAdd))
    }
  }

  function MarkOf<T>(e: Element<T>): Mark { Mark(e.timestamp, e.isAdd) }

  /** The visible part of a whole state. */
  type View = map<Key, Mark>

  ghost function Visible<T>(s: State<T>): View { map k | k in s :: MarkOf(s[k]) }

  /** `m` is the greatest mark that the given states hold at `k`. */
  ghost predicate IsTop(states: set<View>, k: Key, m: Mark) {
    && (exists v: View :: v in states && k in v && v[k] == m)
    && (forall v: View :: v in states && k in v ==> v[k].AtMost(m))
  }

  /** The visible part of merging: the greatest mark of each key, keys of one side kept. */
  ghost predicate IsJoinOf(v: View, states: set<View>) { forall k: Key :: IsJoinAt(v, states, k) }

  ghost predicate IsJoinAt(v: View, states: set<View>, k: Key) {
    if k in v then IsTop(states, k, v[k]) else forall w: View :: w in states ==> k !in w
  }

  /** On shaped elements the merge keeps the lexicographically greater mark. */
  lemma MergedElementIsGreater<T>(a: Element<T>, b: Element<T>)
    requires Shaped(a) && Shaped(b)
    ensures MarkOf(MergedElement(a, b)) == if MarkOf(a).AtMost(MarkOf(b)) then MarkOf(b) else MarkOf(a)
    ensures a.timestamp < b.timestamp ==> MergedElement(a, b) == b
    ensures a.timestamp > b.timestamp ==> MergedElement(a, b) == a
    ensures a.timestamp == b.timestamp && a.isAdd && !b.isAdd ==> MergedElement(a, b) == a
    ensures a.timestamp == b.timestamp && !a.isAdd && b.isAdd ==> MergedElement(a, b) == b.(clock := Join(a.clock, b.clock))
  {
    if a.timestamp == b.timestamp && a.isAdd != b.isAdd {
      if a.isAdd { TombstoneNeverGreater(b, a); } else { TombstoneNeverGreater(a, b); }
    }
  }

  /** Merging two states refines the join of what is visible in them. */
  lemma MergeRefinesJoin<T>(s: State<T>, t: State<T>)
    requires AllShaped(s) && AllShaped(t)
    ensures IsJoinOf(Visible(Merged(s, t)), {Visible(s), Visible(t)})
    ensures forall k :: k in s && k !in t ==> Merged(s, t)[k] == s[k]
    ensures forall k :: k in t && k !in s ==> Merged(s, t)[k] == t[k]
  {
    forall k: Key ensures IsJoinAt(Visible(Merged(s, t)), {Visible(s), Visible(t)}, k) { MergeRefinesJoinAt(s, t, k); }
  }

  lemma MergeRefinesJoinAt<T>(s: State<T>, t: State<T>, k: Key)
    requires AllShaped(s) && AllShaped(t)
    ensures IsJoinAt(Visible(Merged(s, t)), {Visible(s), Visible(t)}, k)
  {
    hide MergedElement, Shaped;
    var v, vs, vt := Visible(Merged(s, t)), Visible(s), Visible(t);
    assert k in v <==> k in vs || k in vt;
    if k in s && k in t {
      MergedElementIsGreater(s[k], t[k]);
      assert v[k] == if vs[k].AtMost(vt[k]) then vt[k] else vs[k];
    } else if k in s {
      assert v[k] == vs[k];
    } else if k in t {
      assert v[k] == vt[k];
    }
  }

  /** A set of visible states has at most one join. */
  lemma JoinIsUnique(v: View, w: View, states: set<View>)
    requires IsJoinOf(v, states) && IsJoinOf(w, states)
    ensures v == w
  {
    forall k: Key ensures k in v <==> k in w { assert IsJoinAt(v, states, k) && IsJoinAt(w, states, k); }
    forall k | k in v ensures v[k] == w[k] {
      assert IsJoinAt(v, states, k) && IsJoinAt(w, states, k);
      assert v[k].AtMost(w[k]) && w[k].AtMost(v[k]);
    }
  }

  // ---------------------------------------------------------------------------
  // Convergence
  // ---------------------------------------------------------------------------

  /** A way to merge replica states together: any order, any grouping, any repetition. */
  datatype Plan<T> = Replica(past: Past<T>) | Into(left: Plan<T>, right: Plan<T>)

  ghost function Outcome<T>(plan: Plan<T>, keyOf: T -> Key): State<T> {
    match plan
    case Replica(p) => StateOf(p, keyOf)
    case Into(l, r) => Merged(Outcome(l, keyOf), Outcome(r, keyOf))
  }

  /** The visible states of the replicas that take part. */
  ghost function Sources<T>(plan: Plan<T>, keyOf: T -> Key): set<View> {
    match plan
    case Replica(p) => {Visible(StateOf(p, keyOf))}
    case Into(l, r) => Sources(l, keyOf) + Sources(r, keyOf)
  }

  lemma {:induction false} OutcomeShaped<T>(plan: Plan<T>, keyOf: T -> Key)
    ensures AllShaped(Outcome(plan, keyOf))
  {
    match plan
    case Replica(p) => ReachableShaped(p, keyOf);
    case Into(l, r) =>
      OutcomeShaped(l, keyOf);
      OutcomeShaped(r, keyOf);
      var s, t := Outcome(l, keyOf), Outcome(r, keyOf);
      forall k | k in s && k in t ensures Shaped(MergedElement(s[k], t[k])) { MergedElementShaped(s[k], t[k]); }
  }

  lemma {:induction false} OutcomeIsJoin<T>(plan: Plan<T>, keyOf: T -> Key)
    ensures IsJoinOf(Visible(Outcome(plan, keyOf)), Sources(plan, keyOf))
  {
    match plan
    case Replica(p) =>
      var v := Visible(StateOf(p, keyOf));
      forall k: Key ensures IsJoinAt(v, {v}, k) {}
    case Into(l, r) =>
      OutcomeIsJoin(l, keyOf);
      OutcomeIsJoin(r, keyOf);
      OutcomeShaped(l, keyOf);
      OutcomeShaped(r, keyOf);
      MergeRefinesJoin(Outcome(l, keyOf), Outcome(r, keyOf));
      JoinOfJoins(Visible(Outcome(plan, keyOf)), Visible(Outcome(l, keyOf)), Visible(Outcome(r, keyOf)),
                  Sources(l, keyOf), Sources(r, keyOf));
  }

  lemma JoinOfJoins(v: View, a: View, b: View, sa: set<View>, sb: set<View>)
    requires IsJoinOf(v, {a, b}) && IsJoinOf(a, sa) && IsJoinOf(b, sb)
    ensures IsJoinOf(v, sa + sb)
  {
    forall k: Key ensures IsJoinAt(v, sa + sb, k) {
      assert IsJoinAt(v, {a, b}, k) && IsJoinAt(a, sa, k) && IsJoinAt(b, sb, k);
      JoinOfJoinsAt(v, a, b, sa, sb, k);
    }
  }

  lemma JoinOfJoinsAt(v: View, a: View, b: View, sa: set<View>, sb: set<View>, k: Key)
    requires IsJoinAt(v, {a, b}, k) && IsJoinAt(a, sa, k) && IsJoinAt(b, sb, k)
    ensures IsJoinAt(v, sa + sb, k)
  {
    assert a in {a, b} && b in {a, b};
    if k in v {
      var top :| top in {a, b} && k in top && top[k] == v[k];
      var w: View :| w in (if top == a then sa else sb) && k in w && w[k] == v[k];
      assert w in sa + sb;
      forall w: View | w in sa + sb && k in w ensures w[k].AtMost(v[k]) {
        if w in sa { assert w[k].AtMost(a[k]); } else { assert w[k].AtMost(b[k]); }
      }
    }
  }

  /**
   * Convergence: merging the same replica states, in any order, grouping or repetition,
   * ends with the same timestamp and flag at every key, hence the same membership of
   * every value and the same size.
   */
  lemma Convergence<T>(a: Plan<T>, b: Plan<T>, keyOf: T -> Key)
    requires Sources(a, keyOf) == Sources(b, keyOf)
    ensures Visible(Outcome(a, keyOf)) == Visible(Outcome(b, keyOf))
    ensures AddedKeys(Outcome(a, keyOf)) == AddedKeys(Outcome(b, keyOf))
  {
    OutcomeIsJoin(a, keyOf);
    OutcomeIsJoin(b, keyOf);
    var s, t := Outcome(a, keyOf), Outcome(b, keyOf);
    JoinIsUnique(Visible(s), Visible(t), Sources(a, keyOf));
    forall k ensures k in AddedKeys(s) <==> k in AddedKeys(t) {
      assert k in Visible(s) <==> k in Visible(t);
      if k in s { assert Visible(s)[k] == Visible(t)[k]; }
    }
  }

  /** Each element is stored under the key of its value. */
  lemma {:induction false} ReachableKeyed<T>(p: Past<T>, keyOf: T -> Key)
    ensures forall k :: k in StateOf(p, keyOf) ==> keyOf(StateOf(p, keyOf)[k].value) == k
  {
    match p
    case New =>
    case Clear(_) =>
    case Write(q, _, _, _, _) => ReachableKeyed(q, keyOf);
    case Merge(q, o) => ReachableKeyed(q, keyOf); ReachableKeyed(o, keyOf);
  }

  lemma {:induction false} OutcomeKeyed<T>(plan: Plan<T>, keyOf: T -> Key)
    ensures forall k :: k in Outcome(plan, keyOf) ==> keyOf(Outcome(plan, keyOf)[k].value) == k
  {
    match plan
    case Replica(p) => ReachableKeyed(p, keyOf);
    case Into(l, r) => OutcomeKeyed(l, keyOf); OutcomeKeyed(r, keyOf);
  }

  /** When distinct values have distinct keys, the values listed converge as well. */
  lemma ValuesConverge<T(!new)>(a: Plan<T>, b: Plan<T>, keyOf: T -> Key, k: Key)
    requires Sources(a, keyOf) == Sources(b, keyOf)
    requires forall x, y :: keyOf(x) == keyOf(y) ==> x == y
    requires k in AddedKeys(Outcome(a, keyOf))
    ensures k in AddedKeys(Outcome(b, keyOf))
    ensures Outcome(a, keyOf)[k].value == Outcome(b, keyOf)[k].value
  {
    Convergence(a, b, keyOf);
    OutcomeKeyed(a, keyOf);
    OutcomeKeyed(b, keyOf);
  }

  /**
   * Merging two elements each way leaves equal clocks exactly when their timestamps differ
   * or one clock covers the other: at a tie between concurrent clocks each side keeps, or
   * joins into, a clock of its own.
   */
  lemma ClocksAgreeIff<T>(a: Element<T>, b: Element<T>)
    ensures Same(MergedElement(a, b).clock, MergedElement(b, a).clock)
       <==> a.timestamp != b.timestamp || !Concurrent(a.clock, b.clock)
  {
    hide Join, Leq, Same;
    var j, j' := Join(a.clock, b.clock), Join(b.clock, a.clock);
    JoinIsLeastUpperBound(a.clock, b.clock, a.clock);
    JoinIsLeastUpperBound(a.clock, b.clock, b.clock);
    JoinIsLeastUpperBound(b.clock, a.clock, a.clock);
    JoinIsLeastUpperBound(b.clock, a.clock, b.clock);
    LeqReflexive(a.clock);
    LeqReflexive(b.clock);
    SameIsBothWays(MergedElement(a, b).clock, MergedElement(b, a).clock);
  }

  lemma LeqReflexive(c: Clock)
    ensures Leq(c, c)
  {}

  /** Both hold the key with one timestamp and clocks of which neither covers the other. */
  ghost predicate TiedConcurrently<T>(s: State<T>, t: State<T>, k: Key) {
    k in s && k in t && s[k].timestamp == t[k].timestamp && Concurrent(s[k].clock, t[k].clock)
  }

  ghost predicate ClocksAgree<T>(s: State<T>, t: State<T>) {
    s.Keys == t.Keys && forall k :: k in s ==> Same(s[k].clock, t[k].clock)
  }

  /** When two replicas that merge each other's states end with equal clocks at every key. */
  lemma ClocksConvergeIff<T>(s: State<T>, t: State<T>)
    ensures ClocksAgree(Merged(s, t), Merged(t, s)) <==> forall k: Key :: !TiedConcurrently(s, t, k)
  {
    hide Same, MergedElement, Concurrent;
    forall k | k in s || k in t
      ensures Same(Merged(s, t)[k].clock, Merged(t, s)[k].clock) <==> !TiedConcurrently(s, t, k)
    {
      if k in s && k in t { ClocksAgreeIff(s[k], t[k]); } else { SameReflexive(Merged(s, t)[k].clock); }
    }
    if ClocksAgree(Merged(s, t), Merged(t, s)) {
      forall k: Key ensures !TiedConcurrently(s, t, k) {
        if k in s && k in t { assert k in Merged(s, t); }
      }
    }
  }

  lemma SameReflexive(c: Clock)
    ensures Same(c, c)
  {}

  /**
   * On reachable states the condition is about node names: every key held on both sides at
   * one timestamp has the names of one clock among those of the other.
   */
  lemma ReachableClocksConvergeIff<T>(p: Past<T>, q: Past<T>, keyOf: T -> Key)
    ensures var s, t := StateOf(p, keyOf), StateOf(q, keyOf);
            ClocksAgree(Merged(s, t), Merged(t, s)) <==>
            forall k :: k in s && k in t && s[k].timestamp == t[k].timestamp ==>
              s[k].clock.Keys <= t[k].clock.Keys || t[k].clock.Keys <= s[k].clock.Keys
  {
    hide Leq, Shaped, ClocksAgree, Merged;
    var s, t := StateOf(p, keyOf), StateOf(q, keyOf);
    ReachableShaped(p, keyOf);
    ReachableShaped(q, keyOf);
    ClocksConvergeIff(s, t);
    forall k | k in s && k in t
      ensures Concurrent(s[k].clock, t[k].clock) <==>
              !(s[k].clock.Keys <= t[k].clock.Keys || t[k].clock.Keys <= s[k].clock.Keys)
    {
      OrderOfShaped(s[k], t[k]);
      OrderOfShaped(t[k], s[k]);
    }
    if forall k: Key :: !TiedConcurrently(s, t, k) {
      forall k | k in s && k in t && s[k].timestamp == t[k].timestamp
        ensures s[k].clock.Keys <= t[k].clock.Keys || t[k].clock.Keys <= s[k].clock.Keys
      {
        assert !TiedConcurrently(s, t, k);
      }
    }
  }

  /** Two replicas that added one value at one time keep different clocks after merging. */
  lemma ClocksDoNotConverge<T>(value: T, keyOf: T -> Key, timestamp: int, m: NodeId, n: NodeId)
    requires m != n
    ensures var s, t := StateOf(Write(New, value, m, timestamp, true), keyOf), StateOf(Write(New, value, n, timestamp, true), keyOf);
            !ClocksAgree(Merged(s, t), Merged(t, s))
  {
    hide Merged, ClocksAgree;
    var p, q := Write(New, value, m, timestamp, true), Write(New, value, n, timestamp, true);
    var s, t := StateOf(p, keyOf), StateOf(q, keyOf);
    var k := keyOf(value);
    assert StateOf(New, keyOf) == map[];
    assert s[k].clock.Keys == {m} && t[k].clock.Keys == {n} && s[k].timestamp == t[k].timestamp;
    assert m !in t[k].clock.Keys && n !in s[k].clock.Keys;
    ReachableClocksConvergeIff(p, q, keyOf);
  }

  // ---------------------------------------------------------------------------
  // Monotonicity
  // ---------------------------------------------------------------------------

  /** No key disappears and no mark goes down. */
  ghost predicate Grows(v: View, w: View) {
    forall k :: k in v ==> k in w && v[k].AtMost(w[k])
  }

  /** On reachable states a local write takes effect exactly when it is strictly newer. */
  lemma WriteTakesIffNewer<T>(p: Past<T>, keyOf: T -> Key, value: T, node: NodeId, timestamp: int, isAdd: bool)
    ensures var s, k := StateOf(p, keyOf), keyOf(value);
            var t := Written(s, k, value, node, timestamp, isAdd);
            && (Takes(s, k, node, timestamp) <==> (k in s ==> timestamp > s[k].timestamp))
            && (k in s && timestamp <= s[k].timestamp ==> t == s)
            && Grows(Visible(s), Visible(t))
  {
    ReachableShaped(p, keyOf);
    var s, k := StateOf(p, keyOf), keyOf(value);
    if k in s { SingleNeverGreater(node, s[k]); }
  }

  /** `q` is reached from `p` by further local writes and merges, with no clear. */
  ghost predicate Extends<T>(q: Past<T>, p: Past<T>) {
    q == p || match q
              case New => false
              case Write(r, _, _, _, _) => Extends(r, p)
              case Merge(r, _) => Extends(r, p)
              case Clear(_) => false
  }

  /** Over every run without a clear no key's timestamp and flag ever decrease. */
  lemma {:induction false} Monotonicity<T>(p: Past<T>, q: Past<T>, keyOf: T -> Key)
    requires Extends(q, p)
    ensures Grows(Visible(StateOf(p, keyOf)), Visible(StateOf(q, keyOf)))
    decreases q
  {
    if q != p {
      match q
      case Write(r, value, node, timestamp, isAdd) =>
        Monotonicity(p, r, keyOf);
        WriteTakesIffNewer(r, keyOf, value, node, timestamp, isAdd);
      case Merge(r, o) =>
        Monotonicity(p, r, keyOf);
        ReachableShaped(r, keyOf);
        ReachableShaped(o, keyOf);
        MergeRefinesJoin(StateOf(r, keyOf), StateOf(o, keyOf));
        var s, t := Visible(StateOf(r, keyOf)), Visible(StateOf(q, keyOf));
        forall k | k in s ensures k in t && s[k].AtMost(t[k]) {
          assert s in {s, Visible(StateOf(o, keyOf))};
          assert IsJoinAt(t, {s, Visible(StateOf(o, keyOf))}, k);
        }
    }
  }

  // ---------------------------------------------------------------------------
  // Last write wins, and when the order of writes matters
  // ---------------------------------------------------------------------------

  datatype Operation<T> = Operation(value: T, node: NodeId, timestamp: int, isAdd: bool)

  /** Every write that a replica has made or merged in since it was last cleared. */
  ghost function Operations<T>(p: Past<T>): set<Operation<T>> {
    match p
    case New => {}
    case Write(q, value, node, timestamp, isAdd) => Operations(q) + {Operation(value, node, timestamp, isAdd)}
    case Merge(q, o) => Operations(q) + Operations(o)
    case Clear(_) => {}
  }

  /** `op` is a latest write of key `k` among `ops`. */
  ghost predicate IsLatest<T>(op: Operation<T>, ops: set<Operation<T>>, keyOf: T -> Key, k: Key) {
    && op in ops && keyOf(op.value) == k
    && forall o :: o in ops && keyOf(o.value) == k ==> o.timestamp <= op.timestamp
  }

  /** The latest writes of `k` include an add and a removal. */
  ghost predicate Tied<T(!new)>(ops: set<Operation<T>>, keyOf: T -> Key, k: Key) {
    exists a, r :: IsLatest(a, ops, keyOf, k) && IsLatest(r, ops, keyOf, k) && a.isAdd && !r.isAdd
  }

  /** The latest write of `k`, chosen as the replica with this past did. */
  ghost predicate ShowsLatest<T(!new)>(p: Past<T>, keyOf: T -> Key, k: Key) {
    var s := StateOf(p, keyOf);
    if k in s
    then exists op :: IsLatest(op, Operations(p), keyOf, k) && MarkOf(s[k]) == Mark(op.timestamp, op.isAdd)
    else forall op :: op in Operations(p) ==> keyOf(op.value) != k
  }

  /**
   * Last write wins: a key is present exactly when it was written, and what is visible of
   * it is the timestamp and flag of one of its latest writes.
   */
  lemma {:induction false} LastWriteWins<T(!new)>(p: Past<T>, keyOf: T -> Key, k: Key)
    ensures ShowsLatest(p, keyOf, k)
  {
    match p
    case New =>
    case Clear(_) =>
    case Write(q, value, node, timestamp, isAdd) =>
      LastWriteWins(q, keyOf, k);
      WriteTakesIffNewer(q, keyOf, value, node, timestamp, isAdd);
      var s, t, write := StateOf(q, keyOf), StateOf(p, keyOf), Operation(value, node, timestamp, isAdd);
      if k in s {
        var op :| IsLatest(op, Operations(q), keyOf, k) && MarkOf(s[k]) == Mark(op.timestamp, op.isAdd);
        assert IsLatest(if keyOf(value) == k && timestamp > op.timestamp then write else op, Operations(p), keyOf, k);
      } else if k in t {
        assert IsLatest(write, Operations(p), keyOf, k);
      }
    case Merge(q, o) =>
      LastWriteWins(q, keyOf, k);
      LastWriteWins(o, keyOf, k);
      ReachableShaped(q, keyOf);
      ReachableShaped(o, keyOf);
      MergeShowsLatest(q, o, keyOf, k);
  }

  lemma MergeShowsLatest<T(!new)>(q: Past<T>, o: Past<T>, keyOf: T -> Key, k: Key)
    requires ShowsLatest(q, keyOf, k) && ShowsLatest(o, keyOf, k)
    requires AllShaped(StateOf(q, keyOf)) && AllShaped(StateOf(o, keyOf))
    ensures ShowsLatest(Merge(q, o), keyOf, k)
  {
    var s, t := StateOf(q, keyOf), StateOf(o, keyOf);
    var ops := Operations(q) + Operations(o);
    if k in s && k in t {
      MergedElementIsGreater(s[k], t[k]);
      var a :| IsLatest(a, Operations(q), keyOf, k) && MarkOf(s[k]) == Mark(a.timestamp, a.isAdd);
      var b :| IsLatest(b, Operations(o), keyOf, k) && MarkOf(t[k]) == Mark(b.timestamp, b.isAdd);
      assert IsLatest(if MarkOf(s[k]).AtMost(MarkOf(t[k])) then b else a, ops, keyOf, k);
    } else if k in s {
      var a :| IsLatest(a, Operations(q), keyOf, k) && MarkOf(s[k]) == Mark(a.timestamp, a.isAdd);
      assert IsLatest(a, ops, keyOf, k);
    } else if k in t {
      var b :| IsLatest(b, Operations(o), keyOf, k) && MarkOf(t[k]) == Mark(b.timestamp, b.isAdd);
      assert IsLatest(b, ops, keyOf, k);
    }
  }

  /** The writes of `p`, made one after the other as local writes on top of `base`. */
  ghost function Replayed<T>(base: Past<T>, p: Past<T>): Past<T>
    decreases p
  {
    match p
    case New => base
    case Write(q, value, node, timestamp, isAdd) => Write(Replayed(base, q), value, node, timestamp, isAdd)
    case Merge(q, o) => Replayed(Replayed(base, q), o)
    case Clear(_) => base
  }

  /** Replaying adds the same writes, and older or equal ones leave a stored mark alone. */
  lemma {:induction false} ReplayKeepsLatest<T>(base: Past<T>, p: Past<T>, keyOf: T -> Key, k: Key)
    requires k in StateOf(base, keyOf)
    requires forall o :: o in Operations(p) && keyOf(o.value) == k ==> o.timestamp <= StateOf(base, keyOf)[k].timestamp
    ensures Operations(Replayed(base, p)) == Operations(base) + Operations(p)
    ensures k in StateOf(Replayed(base, p), keyOf)
    ensures MarkOf(StateOf(Replayed(base, p), keyOf)[k]) == MarkOf(StateOf(base, keyOf)[k])
    decreases p
  {
    match p
    case New =>
    case Clear(_) =>
    case Write(q, value, node, timestamp, isAdd) =>
      ReplayKeepsLatest(base, q, keyOf, k);
      WriteTakesIffNewer(Replayed(base, q), keyOf, value, node, timestamp, isAdd);
      assert Operation(value, node, timestamp, isAdd) in Operations(p);
    case Merge(q, o) =>
      ReplayKeepsLatest(base, q, keyOf, k);
      ReplayKeepsLatest(Replayed(base, q), o, keyOf, k);
  }

  /** A replica that made the latest write `op` first and then all the writes of `p`. */
  lemma ReplayShows<T>(op: Operation<T>, p: Past<T>, keyOf: T -> Key, k: Key) returns (q: Past<T>)
    requires IsLatest(op, Operations(p), keyOf, k)
    ensures Operations(q) == Operations(p)
    ensures k in AddedKeys(StateOf(q, keyOf)) <==> op.isAdd
  {
    var base := Write(New, op.value, op.node, op.timestamp, op.isAdd);
    q := Replayed(base, p);
    ReplayKeepsLatest(base, p, keyOf, k);
    assert Operations(q) == Operations(p);
  }

  /**
   * Whether replicas that hold the same writes must agree on a key. They do exactly when
   * its latest writes are not an add and a removal at the same timestamp: the first local
   * write wins such a tie, while a merge lets the add win it.
   */
  lemma WritesDetermineMembershipIffNotTied<T(!new)>(p: Past<T>, keyOf: T -> Key, k: Key)
    ensures (forall q: Past<T> :: Operations(q) == Operations(p) ==>
               (k in AddedKeys(StateOf(q, keyOf)) <==> k in AddedKeys(StateOf(p, keyOf))))
       <==> !Tied(Operations(p), keyOf, k)
  {
    if Tied(Operations(p), keyOf, k) {
      var a, r :| IsLatest(a, Operations(p), keyOf, k) && IsLatest(r, Operations(p), keyOf, k) && a.isAdd && !r.isAdd;
      var q1 := ReplayShows(a, p, keyOf, k);
      var q2 := ReplayShows(r, p, keyOf, k);
    } else {
      forall q: Past<T> | Operations(q) == Operations(p)
        ensures k in AddedKeys(StateOf(q, keyOf)) <==> k in AddedKeys(StateOf(p, keyOf))
      {
        LastWriteWins(p, keyOf, k);
        LastWriteWins(q, keyOf, k);
        var s, t := StateOf(p, keyOf), StateOf(q, keyOf);
        if k in s && k in t {
          var a :| IsLatest(a, Operations(p), keyOf, k) && MarkOf(s[k]) == Mark(a.timestamp, a.isAdd);
          var b :| IsLatest(b, Operations(p), keyOf, k) && MarkOf(t[k]) == Mark(b.timestamp, b.isAdd);
        }
      }
    }
  }

  /** An add and a removal at one timestamp: whichever replica wrote which first decides. */
  lemma TieIsDecidedByOrder<T>(value: T, keyOf: T -> Key, m: NodeId, n: NodeId, timestamp: int)
    ensures var p := Write(Write(New, value, m, timestamp, true), value, n, timestamp, false);
            var q := Write(Write(New, value, n, timestamp, false), value, m, timestamp, true);
            && Operations(p) == Operations(q)
            && keyOf(value) in AddedKeys(StateOf(p, keyOf)) && keyOf(value) !in AddedKeys(StateOf(q, keyOf))
  {
    hide Order;
    var a, r := Write(New, value, m, timestamp, true), Write(New, value, n, timestamp, false);
    assert keyOf(value) in StateOf(a, keyOf) && keyOf(value) in StateOf(r, keyOf);
    WriteTakesIffNewer(a, keyOf, value, n, timestamp, false);
    WriteTakesIffNewer(r, keyOf, value, m, timestamp, true);
  }
}
