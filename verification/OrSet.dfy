/**
 * The observed-remove set (server/src/crdt/or_set.rs).
 *
 * Each stored value carries the tags of the adds that put it there. Tag ids are meant to
 * be unique (they hold a random UUID), so an add takes its id as an argument and a run
 * never uses one twice.
 */
module OrSets {
  import opened VectorClocks

  type Key = string
  type TagId = string

  datatype Tag = Tag(id: TagId, nodeId: NodeId, clock: Clock)

  datatype Element<T> = Element(value: T, tags: seq<Tag>)

  type State<T> = map<Key, Element<T>>

  // ---------------------------------------------------------------------------
  // Merging two tag lists
  // ---------------------------------------------------------------------------

  type TagTable = map<TagId, Tag>

  function Inserted(table: TagTable, tags: seq<Tag>): TagTable {
    if tags == [] then table
    else
      var last := tags[|tags| - 1];
      Inserted(table, tags[..|tags| - 1])[last.id := last]
  }

  function Absorbed(table: TagTable, tags: seq<Tag>): TagTable {
    if tags == [] then table
    else
      var earlier, last := Absorbed(table, tags[..|tags| - 1]), tags[|tags| - 1];
      if last.id in earlier
      then earlier[last.id := earlier[last.id].(clock := Join(earlier[last.id].clock, last.clock))]
      else earlier[last.id := last]
  }

  /** The table that the two loops of the merge fill. */
  function Collected(tags1: seq<Tag>, tags2: seq<Tag>): TagTable {
    Absorbed(Inserted(map[], tags1), tags2)
  }

  predicate DistinctIds(tags: seq<Tag>) {
    forall i, j :: 0 <= i < j < |tags| ==> tags[i].id != tags[j].id
  }

  /** `tags` lists the entries of `table`, each once, in some order. */
  ghost predicate Lists(tags: seq<Tag>, table: TagTable) {
    && DistinctIds(tags)
    && (forall t :: t in tags ==> t.id in table && table[t.id] == t)
    && (forall id :: id in table ==> table[id] in tags)
  }

  lemma {:induction false} InsertedIdsMatch(table: TagTable, tags: seq<Tag>)
    requires forall id :: id in table ==> table[id].id == id
    ensures forall id :: id in Inserted(table, tags) ==> Inserted(table, tags)[id].id == id
  {
    if tags != [] { InsertedIdsMatch(table, tags[..|tags| - 1]); }
  }

  lemma {:induction false} AbsorbedIdsMatch(table: TagTable, tags: seq<Tag>)
    requires forall id :: id in table ==> table[id].id == id
    ensures forall id :: id in Absorbed(table, tags) ==> Absorbed(table, tags)[id].id == id
  {
    if tags != [] { AbsorbedIdsMatch(table, tags[..|tags| - 1]); }
  }

  method MergeTags(tags1: seq<Tag>, tags2: seq<Tag>) returns (merged: seq<Tag>)
    ensures Lists(merged, Collected(tags1, tags2))
  {
    var table: TagTable := map[];
    for i := 0 to |tags1|
      invariant table == Inserted(map[], tags1[..i])
    {
      assert tags1[..i + 1][..i] == tags1[..i];
      table := table[tags1[i].id := tags1[i]];
    }
    assert tags1[..|tags1|] == tags1;
    for i := 0 to |tags2|
      invariant table == Absorbed(Inserted(map[], tags1), tags2[..i])
    {
      assert tags2[..i + 1][..i] == tags2[..i];
      var tag := tags2[i];
      if tag.id in table {
        var clock := VectorClocks.Merge(table[tag.id].clock, tag.clock);
        table := table[tag.id := table[tag.id].(clock := clock)];
      } else {
        table := table[tag.id := tag];
      }
    }
    assert tags2[..|tags2|] == tags2;
    InsertedIdsMatch(map[], tags1);
    AbsorbedIdsMatch(Inserted(map[], tags1), tags2);
    merged := [];
    var rest := table.Keys;
    while rest != {}
      invariant rest <= table.Keys && DistinctIds(merged)
      invariant forall t :: t in merged ==> t.id in table && t.id !in rest && table[t.id] == t
      invariant forall id :: id in table && id !in rest ==> table[id] in merged
      decreases rest
    {
      var id :| id in rest;
      merged := merged + [table[id]];
      rest := rest - {id};
    }
  }

  /**
   * For any two lists of distinct ids: a tag on both sides is kept with the join of its two
   * clocks, a tag on one side is kept as it is, and nothing else is in the table.
   */
  lemma CollectedAt(tags1: seq<Tag>, tags2: seq<Tag>, id: TagId)
    requires DistinctIds(tags1) && DistinctIds(tags2)
    ensures id in Collected(tags1, tags2) <==> (exists t :: t in tags1 && t.id == id) || (exists t :: t in tags2 && t.id == id)
    ensures forall t, u :: t in tags1 && u in tags2 && t.id == u.id == id ==>
              Collected(tags1, tags2)[id] == t.(clock := Join(t.clock, u.clock))
    ensures forall t :: t in tags1 && t.id == id && (forall u :: u in tags2 ==> u.id != id) ==> Collected(tags1, tags2)[id] == t
    ensures forall u :: u in tags2 && u.id == id && (forall t :: t in tags1 ==> t.id != id) ==> Collected(tags1, tags2)[id] == u
  {
    InsertedAt(tags1, id);
    AbsorbedAt(Inserted(map[], tags1), tags2, id);
  }

  lemma {:induction false} InsertedAt(tags: seq<Tag>, id: TagId)
    requires DistinctIds(tags)
    ensures id in Inserted(map[], tags) <==> exists t :: t in tags && t.id == id
    ensures forall t :: t in tags && t.id == id ==> Inserted(map[], tags)[id] == t
  {
    if tags != [] {
      var init, last := tags[..|tags| - 1], tags[|tags| - 1];
      assert tags == init + [last];
      InsertedAt(init, id);
      if last.id == id { assert last in tags; }
    }
  }

  lemma {:induction false} AbsorbedAt(table: TagTable, tags: seq<Tag>, id: TagId)
    requires DistinctIds(tags)
    ensures id in Absorbed(table, tags) <==> id in table || exists t :: t in tags && t.id == id
    ensures id in table && (forall t :: t in tags ==> t.id != id) ==> Absorbed(table, tags)[id] == table[id]
    ensures forall t :: t in tags && t.id == id ==>
              Absorbed(table, tags)[id] == if id in table then table[id].(clock := Join(table[id].clock, t.clock)) else t
  {
    hide Join;
    if tags != [] {
      var init, last := tags[..|tags| - 1], tags[|tags| - 1];
      assert tags == init + [last];
      AbsorbedAt(table, init, id);
      if last.id == id { assert last in tags; }
    }
  }

  // ---------------------------------------------------------------------------
  // The set in place
  // ---------------------------------------------------------------------------

  /** The tag of an add. */
  function NewTag(id: TagId, nodeId: NodeId): Tag { Tag(id, nodeId, Single(nodeId, 1)) }

  function Added<T>(s: State<T>, key: Key, value: T, tag: Tag): State<T> {
    if key in s then s[key := Element(s[key].value, s[key].tags + [tag])]
    else s[key := Element(value, [tag])]
  }

  /** What merging `other` into `s` may leave at one key. */
  ghost predicate MergesAt<T>(s: State<T>, other: State<T>, r: State<T>, k: Key) {
    if k !in other then (k in r <==> k in s) && (k in r ==> r[k] == s[k])
    else if k !in s then k in r && r[k] == other[k]
    else
      var table := Collected(s[k].tags, other[k].tags);
      if table == map[] then k !in r
      else k in r && r[k].value == s[k].value && Lists(r[k].tags, table)
  }

  ghost predicate Merges<T>(s: State<T>, other: State<T>, r: State<T>) {
    forall k: Key :: MergesAt(s, other, r, k)
  }

  ghost function HeldKeys<T>(s: State<T>): set<Key> { set k | k in s && s[k].tags != [] }

  class OrSet<T> {
    const keyOf: T -> Key
    var elements: State<T>

    constructor (keyOf: T -> Key)
      ensures this.keyOf == keyOf && elements == map[]
    {
      this.keyOf := keyOf;
      elements := map[];
    }

    method Add(value: T, nodeId: NodeId, id: TagId)
      modifies this
      ensures elements == Added(old(elements), keyOf(value), value, NewTag(id, nodeId))
      ensures var k, tag := keyOf(value), Tag(id, nodeId, Single(nodeId, 1));
              && k in elements && elements - {k} == old(elements) - {k}
              && (k in old(elements) ==> elements[k] == Element(old(elements)[k].value, old(elements)[k].tags + [tag]))
              && (k !in old(elements) ==> elements[k] == Element(value, [tag]))
    {
      var key := keyOf(value);
      var tag := NewTag(id, nodeId);
      if key in elements {
        elements := elements[key := elements[key].(tags := elements[key].tags + [tag])];
      } else {
        elements := elements[key := Element(value, [tag])];
      }
    }

    /** Drops the key and keeps no trace of it. */
    method Remove(value: T)
      modifies this
      ensures elements == old(elements) - {keyOf(value)}
    {
      elements := elements - {keyOf(value)};
    }

    method Has(value: T) returns (r: bool)
      ensures r <==> keyOf(value) in HeldKeys(elements)
    {
      var key := keyOf(value);
      r := key in elements && elements[key].tags != [];
    }

    method Size() returns (count: nat)
      ensures count == |HeldKeys(elements)|
    {
      count := 0;
      var rest := elements.Keys;
      ghost var counted: set<Key> := {};
      while rest != {}
        invariant rest <= elements.Keys
        invariant counted == set k | k in HeldKeys(elements) && k !in rest
        invariant count == |counted|
        decreases rest
      {
        var k :| k in rest;
        rest := rest - {k};
        if elements[k].tags != [] {
          count := count + 1;
          counted := counted + {k};
        }
      }
      assert counted == HeldKeys(elements);
    }

    method Merge(other: OrSet<T>)
      requires other != this
      modifies this
      ensures Merges(old(elements), other.elements, elements)
      ensures forall k :: k in old(elements) && k in elements ==> elements[k].value == old(elements)[k].value
    {
      var rest := other.elements.Keys;
      while rest != {}
        invariant rest <= other.elements.Keys && other.elements == old(other.elements)
        invariant forall k: Key :: k !in rest ==> MergesAt(old(elements), other.elements, elements, k)
        invariant forall k :: k in rest ==>
          (k in elements <==> k in old(elements)) && (k in elements ==> elements[k] == old(elements)[k])
        decreases rest
      {
        var key :| key in rest;
        ghost var before := elements;
        var otherElement := other.elements[key];
        if key in elements {
          var mergedTags := MergeTags(elements[key].tags, otherElement.tags);
          ghost var table := Collected(elements[key].tags, otherElement.tags);
          if mergedTags == [] {
            assert table.Keys == {};
            elements := elements - {key};
          } else {
            assert mergedTags[0].id in table;
            elements := elements[key := elements[key].(tags := mergedTags)];
          }
        } else {
          elements := elements[key := otherElement];
        }
        rest := rest - {key};
        forall k: Key | k !in rest ensures MergesAt(old(elements), other.elements, elements, k) {
          if k != key {
            assert MergesAt(old(elements), other.elements, before, k);
          }
        }
      }
    }
  }

  // ---------------------------------------------------------------------------
  // Runs of any number of replicas
  // ---------------------------------------------------------------------------

  type ReplicaId = nat

  datatype Event<T> =
    | AddEvent(replica: ReplicaId, value: T, nodeId: NodeId, id: TagId)
    | RemoveEvent(replica: ReplicaId, value: T)
    | MergeEvent(replica: ReplicaId, from: ReplicaId, at: nat) // a state `from` held earlier

  type Replicas<T> = map<ReplicaId, State<T>>

  function StateIn<T>(rs: Replicas<T>, r: ReplicaId): State<T> { if r in rs then rs[r] else map[] }

  /** `run[i]` are the replica states before event `i`. */
  ghost predicate StepsTo<T>(run: seq<Replicas<T>>, events: seq<Event<T>>, i: nat, keyOf: T -> Key)
    requires i < |events| && |run| == |events| + 1
  {
    var e := events[i];
    var s, t := StateIn(run[i], e.replica), StateIn(run[i + 1], e.replica);
    && (forall r: ReplicaId :: r != e.replica ==> StateIn(run[i + 1], r) == StateIn(run[i], r))
    && match e
       case AddEvent(_, value, nodeId, id) => t == Added(s, keyOf(value), value, NewTag(id, nodeId))
       case RemoveEvent(_, value) => t == s - {keyOf(value)}
       case MergeEvent(_, from, at) => at <= i && Merges(s, StateIn(run[at], from), t)
  }

  /** Every add of the run uses an id of its own. */
  ghost predicate FreshIds<T>(events: seq<Event<T>>) {
    forall i, j :: 0 <= i < j < |events| && events[i].AddEvent? && events[j].AddEvent? ==> events[i].id != events[j].id
  }

  ghost predicate IsRun<T>(run: seq<Replicas<T>>, events: seq<Event<T>>, keyOf: T -> Key) {
    && |run| == |events| + 1 && FreshIds(events)
    && (forall r: ReplicaId :: StateIn(run[0], r) == map[])
    && forall i :: 0 <= i < |events| ==> StepsTo(run, events, i, keyOf)
  }

  /** One of the first `n` events added the value of key `k` with this very tag. */
  ghost predicate Issued<T>(events: seq<Event<T>>, n: nat, keyOf: T -> Key, k: Key, tag: Tag)
    requires n <= |events|
  {
    exists j :: 0 <= j < n && events[j].AddEvent? && keyOf(events[j].value) == k
             && tag == NewTag(events[j].id, events[j].nodeId)
  }

  /** Some tag, no id twice, and each tag from an add of that value. */
  ghost predicate Sound<T>(e: Element<T>, events: seq<Event<T>>, n: nat, keyOf: T -> Key, k: Key)
    requires n <= |events|
  {
    && keyOf(e.value) == k && e.tags != [] && DistinctIds(e.tags)
    && forall t :: t in e.tags ==> Issued(events, n, keyOf, k, t)
  }

  ghost predicate AllSound<T>(s: State<T>, events: seq<Event<T>>, n: nat, keyOf: T -> Key)
    requires n <= |events|
  {
    forall k :: k in s ==> Sound(s[k], events, n, keyOf, k)
  }

  /** Equal ids mean equal tags, on all replicas and under all keys. */
  lemma EqualIdsEqualTags<T>(events: seq<Event<T>>, n: nat, keyOf: T -> Key, k: Key, l: Key, t: Tag, u: Tag)
    requires n <= |events| && FreshIds(events)
    requires Issued(events, n, keyOf, k, t) && Issued(events, n, keyOf, l, u) && t.id == u.id
    ensures t == u && k == l
  {
    var i :| 0 <= i < n && events[i].AddEvent? && keyOf(events[i].value) == k && t == NewTag(events[i].id, events[i].nodeId);
    var j :| 0 <= j < n && events[j].AddEvent? && keyOf(events[j].value) == l && u == NewTag(events[j].id, events[j].nodeId);
    assert !(i < j) && !(j < i);
  }

  ghost function TagSet(tags: seq<Tag>): set<Tag> { set t | t in tags }

  ghost function TagsAt<T>(s: State<T>, k: Key): set<Tag> { if k in s then TagSet(s[k].tags) else {} }

  ghost predicate Agree(a: set<Tag>) { forall t, u :: t in a && u in a && t.id == u.id ==> t == u }

  /** When equal ids mean equal tags, the merge table holds exactly the union. */
  lemma {:induction false} InsertedIsUnion(table: TagTable, tags: seq<Tag>)
    requires forall id :: id in table ==> table[id].id == id
    requires Agree(table.Values + TagSet(tags))
    ensures Inserted(table, tags).Values == table.Values + TagSet(tags)
  {
    if tags != [] {
      var init, last := tags[..|tags| - 1], tags[|tags| - 1];
      assert tags == init + [last];
      InsertedIsUnion(table, init);
      InsertedIdsMatch(table, init);
      PutIsUnion(Inserted(table, init), last);
    }
  }

  lemma PutIsUnion(table: TagTable, tag: Tag)
    requires forall id :: id in table ==> table[id].id == id
    requires Agree(table.Values + {tag})
    ensures table[tag.id := tag].Values == table.Values + {tag}
  {
    var after := table[tag.id := tag];
    assert after[tag.id] == tag;
    forall t | t in table.Values ensures t in after.Values {
      assert after[t.id] == t by {
        var id :| id in table && table[id] == t;
        assert t.id == id;
        if t.id == tag.id { assert t in table.Values + {tag} && tag in table.Values + {tag}; }
      }
      assert t.id in after;
    }
  }

  lemma JoinSelf(c: Clock)
    ensures Join(c, c) == c
  {}

  lemma {:induction false} AbsorbedIsUnion(table: TagTable, tags: seq<Tag>)
    requires forall id :: id in table ==> table[id].id == id
    requires Agree(table.Values + TagSet(tags))
    ensures Absorbed(table, tags).Values == table.Values + TagSet(tags)
  {
    if tags != [] {
      var init, last := tags[..|tags| - 1], tags[|tags| - 1];
      assert tags == init + [last];
      AbsorbedIsUnion(table, init);
      AbsorbedIdsMatch(table, init);
      var earlier := Absorbed(table, init);
      if last.id in earlier {
        assert earlier[last.id] in earlier.Values;
        assert earlier[last.id] == last;
        JoinSelf(last.clock);
        assert Absorbed(table, tags) == earlier[last.id := last];
      }
      PutIsUnion(earlier, last);
    }
  }

  lemma CollectedIsUnion(a: seq<Tag>, b: seq<Tag>)
    requires Agree(TagSet(a) + TagSet(b))
    ensures Collected(a, b).Values == TagSet(a) + TagSet(b)
  {
    var none: TagTable := map[];
    assert none.Values + TagSet(a) == TagSet(a);
    InsertedIsUnion(none, a);
    InsertedIdsMatch(none, a);
    AbsorbedIsUnion(Inserted(none, a), b);
  }

  lemma ListedTags(tags: seq<Tag>, table: TagTable)
    requires Lists(tags, table)
    ensures TagSet(tags) == table.Values
  {
    forall t | t in table.Values ensures t in tags {
      var id :| id in table && table[id] == t;
    }
  }

  /** At one key, merging sound elements is exactly the union of their tags. */
  lemma MergeIsUnionAt<T>(s: State<T>, o: State<T>, r: State<T>, events: seq<Event<T>>, n: nat, keyOf: T -> Key, k: Key)
    requires n <= |events| && FreshIds(events)
    requires AllSound(s, events, n, keyOf) && AllSound(o, events, n, keyOf) && MergesAt(s, o, r, k)
    ensures TagsAt(r, k) == TagsAt(s, k) + TagsAt(o, k)
    ensures k in r <==> k in s || k in o
    ensures k in r ==> Sound(r[k], events, n, keyOf, k)
  {
    hide Collected, Lists;
    if k in s && k in o {
      var a, b := s[k].tags, o[k].tags;
      assert Sound(s[k], events, n, keyOf, k) && Sound(o[k], events, n, keyOf, k);
      forall t, u | t in TagSet(a) + TagSet(b) && u in TagSet(a) + TagSet(b) && t.id == u.id ensures t == u {
        EqualIdsEqualTags(events, n, keyOf, k, k, t, u);
      }
      CollectedIsUnion(a, b);
      assert a[0] in Collected(a, b).Values;
      assert Collected(a, b) != map[];
      ListedTags(r[k].tags, Collected(a, b));
      ListedOnce(r[k].tags, Collected(a, b));
      assert r[k].tags != [] by { assert a[0] in TagSet(r[k].tags); }
      forall t | t in r[k].tags ensures Issued(events, n, keyOf, k, t) {
        assert t in TagSet(r[k].tags);
      }
    }
  }

  lemma ListedOnce(tags: seq<Tag>, table: TagTable)
    requires Lists(tags, table)
    ensures DistinctIds(tags)
  {}

  /**
   * Merging sound states never meets the empty-tags branch, keeps the union of the tags of
   * every key, and yields a sound state.
   */
  lemma MergeIsUnion<T>(s: State<T>, o: State<T>, r: State<T>, events: seq<Event<T>>, n: nat, keyOf: T -> Key)
    requires n <= |events| && FreshIds(events)
    requires AllSound(s, events, n, keyOf) && AllSound(o, events, n, keyOf) && Merges(s, o, r)
    ensures forall k: Key :: TagsAt(r, k) == TagsAt(s, k) + TagsAt(o, k)
    ensures r.Keys == s.Keys + o.Keys
    ensures AllSound(r, events, n, keyOf)
  {
    forall k: Key
      ensures TagsAt(r, k) == TagsAt(s, k) + TagsAt(o, k)
      ensures k in r <==> k in s || k in o
      ensures k in r ==> Sound(r[k], events, n, keyOf, k)
    {
      assert MergesAt(s, o, r, k);
      MergeIsUnionAt(s, o, r, events, n, keyOf, k);
    }
  }

  lemma SoundLater<T>(s: State<T>, events: seq<Event<T>>, m: nat, n: nat, keyOf: T -> Key)
    requires m <= n <= |events| && AllSound(s, events, m, keyOf)
    ensures AllSound(s, events, n, keyOf)
  {
    forall k | k in s ensures Sound(s[k], events, n, keyOf, k) {
      forall t | t in s[k].tags ensures Issued(events, n, keyOf, k, t) {
        assert Issued(events, m, keyOf, k, t);
      }
    }
  }

  /** In every run, every state of every replica is sound. */
  lemma {:induction false} RunsAreSound<T>(run: seq<Replicas<T>>, events: seq<Event<T>>, n: nat, keyOf: T -> Key, r: ReplicaId)
    requires n <= |events| && IsRun(run, events, keyOf)
    ensures AllSound(StateIn(run[n], r), events, n, keyOf)
    decreases n
  {
    if n > 0 {
      RunsAreSound(run, events, n - 1, keyOf, r);
      var s, t := StateIn(run[n - 1], r), StateIn(run[n], r);
      SoundLater(s, events, n - 1, n, keyOf);
      assert StepsTo(run, events, n - 1, keyOf);
      if events[n - 1].replica == r {
        match events[n - 1]
        case AddEvent(_, value, nodeId, id) => AddKeepsSound(s, events, n, keyOf);
        case RemoveEvent(_, value) =>
        case MergeEvent(_, from, at) =>
          RunsAreSound(run, events, at, keyOf, from);
          SoundLater(StateIn(run[at], from), events, at, n, keyOf);
          MergeIsUnion(s, StateIn(run[at], from), t, events, n, keyOf);
      }
    }
  }

  lemma AddKeepsSound<T>(s: State<T>, events: seq<Event<T>>, n: nat, keyOf: T -> Key)
    requires 0 < n <= |events| && FreshIds(events) && events[n - 1].AddEvent?
    requires AllSound(s, events, n - 1, keyOf)
    ensures var e := events[n - 1];
            AllSound(Added(s, keyOf(e.value), e.value, NewTag(e.id, e.nodeId)), events, n, keyOf)
  {
    var e := events[n - 1];
    var key, tag := keyOf(e.value), NewTag(e.id, e.nodeId);
    SoundLater(s, events, n - 1, n, keyOf);
    assert Issued(events, n, keyOf, key, tag);
    if key in s {
      forall t | t in s[key].tags ensures t.id != tag.id {
        assert Issued(events, n - 1, keyOf, key, t);
      }
      var tags := s[key].tags + [tag];
      assert DistinctIds(tags);
      forall t | t in tags ensures Issued(events, n, keyOf, key, t) {}
    }
  }

  // ---------------------------------------------------------------------------
  // Convergence, and what a removal is worth
  // ---------------------------------------------------------------------------

  /** A way to merge states together, with the state each merge happened to leave. */
  datatype Plan<T> = Replica(state: State<T>) | Into(left: Plan<T>, right: Plan<T>, state: State<T>)

  ghost predicate IsPlan<T>(p: Plan<T>, events: seq<Event<T>>, keyOf: T -> Key) {
    match p
    case Replica(s) => AllSound(s, events, |events|, keyOf)
    case Into(l, r, s) => IsPlan(l, events, keyOf) && IsPlan(r, events, keyOf) && Merges(l.state, r.state, s)
  }

  ghost function Sources<T>(p: Plan<T>): set<State<T>> {
    match p
    case Replica(s) => {s}
    case Into(l, r, _) => Sources(l) + Sources(r)
  }

  /** A tag ends up under a key exactly when some merged state had it there. */
  lemma {:induction false} PlanIsUnion<T>(p: Plan<T>, events: seq<Event<T>>, keyOf: T -> Key, k: Key)
    requires FreshIds(events) && IsPlan(p, events, keyOf)
    ensures AllSound(p.state, events, |events|, keyOf)
    ensures forall t :: t in TagsAt(p.state, k) <==> exists s :: s in Sources(p) && t in TagsAt(s, k)
  {
    match p
    case Replica(s) =>
    case Into(l, r, s) =>
      PlanIsUnion(l, events, keyOf, k);
      PlanIsUnion(r, events, keyOf, k);
      MergeIsUnion(l.state, r.state, s, events, |events|, keyOf);
      forall t ensures t in TagsAt(s, k) <==> exists x :: x in Sources(p) && t in TagsAt(x, k) {
        assert TagsAt(s, k) == TagsAt(l.state, k) + TagsAt(r.state, k);
      }
  }

  /**
   * Convergence: merging the same states, in any order, grouping or repetition, leaves
   * every key with the same tags and every value with the same membership.
   */
  lemma Convergence<T>(p: Plan<T>, q: Plan<T>, events: seq<Event<T>>, keyOf: T -> Key)
    requires FreshIds(events) && IsPlan(p, events, keyOf) && IsPlan(q, events, keyOf)
    requires Sources(p) == Sources(q)
    ensures forall k: Key :: TagsAt(p.state, k) == TagsAt(q.state, k)
    ensures HeldKeys(p.state) == HeldKeys(q.state)
  {
    forall k: Key
      ensures TagsAt(p.state, k) == TagsAt(q.state, k)
      ensures k in HeldKeys(p.state) <==> k in HeldKeys(q.state)
    {
      PlanIsUnion(p, events, keyOf, k);
      PlanIsUnion(q, events, keyOf, k);
      assert forall t :: t in TagsAt(p.state, k) <==> t in TagsAt(q.state, k);
      if k in p.state { assert p.state[k].tags[0] in TagsAt(p.state, k); }
      if k in q.state { assert q.state[k].tags[0] in TagsAt(q.state, k); }
    }
  }

  /** Event `m` puts `tag` under `k` at replica `r`: by an add, or out of the state merged in. */
  ghost predicate Brings<T>(run: seq<Replicas<T>>, events: seq<Event<T>>, keyOf: T -> Key, m: int, r: ReplicaId, k: Key, tag: Tag) {
    && 0 <= m < |events| && |run| == |events| + 1 && events[m].replica == r
    && match events[m]
       case AddEvent(_, value, nodeId, id) => keyOf(value) == k && tag == NewTag(id, nodeId)
       case RemoveEvent(_, _) => false
       case MergeEvent(_, from, at) => at <= m && tag in TagsAt(StateIn(run[at], from), k)
  }

  /** Some event of `r` in [i, n) puts `tag` under `k`. */
  ghost predicate BroughtSince<T>(run: seq<Replicas<T>>, events: seq<Event<T>>, keyOf: T -> Key, i: nat, n: nat, r: ReplicaId, k: Key, tag: Tag) {
    exists m :: i <= m < n && Brings(run, events, keyOf, m, r, k, tag)
  }

  /** What one event that does not remove `k` at `r` makes of its tags there. */
  lemma TagsAfterEvent<T>(run: seq<Replicas<T>>, events: seq<Event<T>>, keyOf: T -> Key, m: nat, r: ReplicaId, k: Key, tag: Tag)
    requires m < |events| && IsRun(run, events, keyOf)
    requires !(events[m].RemoveEvent? && events[m].replica == r && keyOf(events[m].value) == k)
    ensures tag in TagsAt(StateIn(run[m + 1], r), k)
       <==> tag in TagsAt(StateIn(run[m], r), k) || Brings(run, events, keyOf, m, r, k, tag)
  {
    assert StepsTo(run, events, m, keyOf);
    var e, s, t := events[m], StateIn(run[m], r), StateIn(run[m + 1], r);
    if e.MergeEvent? && e.replica == r {
      var o := StateIn(run[e.at], e.from);
      RunsAreSound(run, events, m, keyOf, r);
      RunsAreSound(run, events, e.at, keyOf, e.from);
      SoundLater(o, events, e.at, m, keyOf);
      MergeIsUnion(s, o, t, events, m, keyOf);
      assert TagsAt(t, k) == TagsAt(s, k) + TagsAt(o, k);
    }
  }

  lemma {:induction false} TagsSince<T>(run: seq<Replicas<T>>, events: seq<Event<T>>, keyOf: T -> Key, i: nat, n: nat, r: ReplicaId, k: Key, tag: Tag)
    requires i <= n <= |events| && IsRun(run, events, keyOf) && k !in StateIn(run[i], r)
    requires forall m :: i <= m < n && events[m].RemoveEvent? && events[m].replica == r ==> keyOf(events[m].value) != k
    ensures tag in TagsAt(StateIn(run[n], r), k) <==> BroughtSince(run, events, keyOf, i, n, r, k, tag)
    decreases n
  {
    hide Brings, IsRun;
    if i < n {
      TagsSince(run, events, keyOf, i, n - 1, r, k, tag);
      TagsAfterEvent(run, events, keyOf, n - 1, r, k, tag);
    }
  }

  /** Event `m` adds the value of `k` at `r`, or merges in a state that holds it. */
  ghost predicate Restores<T>(run: seq<Replicas<T>>, events: seq<Event<T>>, keyOf: T -> Key, m: int, r: ReplicaId, k: Key) {
    && 0 <= m < |events| && |run| == |events| + 1 && events[m].replica == r
    && match events[m]
       case AddEvent(_, value, _, _) => keyOf(value) == k
       case RemoveEvent(_, _) => false
       case MergeEvent(_, from, at) => at <= m && k in StateIn(run[at], from)
  }

  lemma BringsIffRestores<T>(run: seq<Replicas<T>>, events: seq<Event<T>>, keyOf: T -> Key, m: nat, r: ReplicaId, k: Key)
    requires m < |events| && IsRun(run, events, keyOf)
    ensures Restores(run, events, keyOf, m, r, k) <==> exists tag :: Brings(run, events, keyOf, m, r, k, tag)
  {
    var e := events[m];
    assert StepsTo(run, events, m, keyOf);
    if e.AddEvent? && Restores(run, events, keyOf, m, r, k) {
      assert Brings(run, events, keyOf, m, r, k, NewTag(e.id, e.nodeId));
    } else if e.MergeEvent? && Restores(run, events, keyOf, m, r, k) {
      var o := StateIn(run[e.at], e.from);
      RunsAreSound(run, events, e.at, keyOf, e.from);
      assert Sound(o[k], events, e.at, keyOf, k);
      assert o[k].tags[0] in TagsAt(o, k);
      assert Brings(run, events, keyOf, m, r, k, o[k].tags[0]);
    }
  }

  /**
   * No tombstone is kept. In every run, once a replica lacks a key, and until it removes
   * that key again, the key is back exactly when the replica has added it or has merged in
   * a state that still held it, however old; and its tags are exactly those adds' and
   * those states'.
   */
  lemma {:induction false} RemovalIsForgotten<T>(run: seq<Replicas<T>>, events: seq<Event<T>>, keyOf: T -> Key, i: nat, n: nat, r: ReplicaId, k: Key)
    requires i <= n <= |events| && IsRun(run, events, keyOf) && k !in StateIn(run[i], r)
    requires forall m :: i <= m < n && events[m].RemoveEvent? && events[m].replica == r ==> keyOf(events[m].value) != k
    ensures k in StateIn(run[n], r) <==> exists m :: i <= m < n && Restores(run, events, keyOf, m, r, k)
    ensures forall tag :: tag in TagsAt(StateIn(run[n], r), k) <==> BroughtSince(run, events, keyOf, i, n, r, k, tag)
  {
    assert |run| == |events| + 1;
    hide IsRun, Brings, Restores;
    var s := StateIn(run[n], r);
    forall tag ensures tag in TagsAt(s, k) <==> BroughtSince(run, events, keyOf, i, n, r, k, tag) {
      TagsSince(run, events, keyOf, i, n, r, k, tag);
    }
    forall m | i <= m < n
      ensures Restores(run, events, keyOf, m, r, k) <==> exists tag :: Brings(run, events, keyOf, m, r, k, tag)
    {
      BringsIffRestores(run, events, keyOf, m, r, k);
    }
    RunsAreSound(run, events, n, keyOf, r);
    if k in s {
      assert Sound(s[k], events, n, keyOf, k);
      var tag := s[k].tags[0];
      assert tag in TagsAt(s, k);
      var m :| i <= m < n && Brings(run, events, keyOf, m, r, k, tag);
      assert Restores(run, events, keyOf, m, r, k);
    }
    if m :| i <= m < n && Restores(run, events, keyOf, m, r, k) {
      var tag :| Brings(run, events, keyOf, m, r, k, tag);
      assert BroughtSince(run, events, keyOf, i, n, r, k, tag);
    }
  }

  /**
   * What membership means, in every run: from a point where a replica lacks a value, and
   * until it removes it again, the value is a member exactly when the replica has added it or
   * merged in a state that held it.
   */
  lemma {:induction false} MemberIffBrought<T>(run: seq<Replicas<T>>, events: seq<Event<T>>, keyOf: T -> Key, i: nat, n: nat, r: ReplicaId, k: Key)
    requires i <= n <= |events| && IsRun(run, events, keyOf) && k !in StateIn(run[i], r)
    requires forall m :: i <= m < n && events[m].RemoveEvent? && events[m].replica == r ==> keyOf(events[m].value) != k
    ensures k in HeldKeys(StateIn(run[n], r)) <==> exists m :: i <= m < n && Restores(run, events, keyOf, m, r, k)
  {
    assert |run| == |events| + 1;
    hide IsRun, Restores;
    RemovalIsForgotten(run, events, keyOf, i, n, r, k);
    RunsAreSound(run, events, n, keyOf, r);
    var s := StateIn(run[n], r);
    if k in s { assert Sound(s[k], events, n, keyOf, k); }
  }

  /** In every run the members are exactly the stored keys, and size counts them. */
  lemma {:induction false} MembersAreStored<T>(run: seq<Replicas<T>>, events: seq<Event<T>>, keyOf: T -> Key, n: nat, r: ReplicaId)
    requires n <= |events| && IsRun(run, events, keyOf)
    ensures HeldKeys(StateIn(run[n], r)) == StateIn(run[n], r).Keys
  {
    assert |run| == |events| + 1;
    hide IsRun;
    RunsAreSound(run, events, n, keyOf, r);
    var s := StateIn(run[n], r);
    forall k | k in s ensures s[k].tags != [] { assert Sound(s[k], events, n, keyOf, k); }
  }

  /**
   * Two replicas: the first adds a value, the second merges it in, the first removes it
   * and merges the second's state. The value is back, with the very tag of the add.
   */
  lemma RemovedValueReturns<T>(value: T, keyOf: T -> Key, node: NodeId, id: TagId)
    ensures var k, held := keyOf(value), map[keyOf(value) := Element(value, [NewTag(id, node)])];
            var events := [AddEvent(0, value, node, id), MergeEvent(1, 0, 1), RemoveEvent(0, value), MergeEvent(0, 1, 3)];
            var run: seq<Replicas<T>> := [map[], map[0 := held], map[0 := held, 1 := held], map[0 := map[], 1 := held], map[0 := held, 1 := held]];
            IsRun(run, events, keyOf) && k !in StateIn(run[3], 0) && StateIn(run[4], 0) == held
  {
    var k, held := keyOf(value), map[keyOf(value) := Element(value, [NewTag(id, node)])];
    var events := [AddEvent(0, value, node, id), MergeEvent(1, 0, 1), RemoveEvent(0, value), MergeEvent(0, 1, 3)];
    var run: seq<Replicas<T>> := [map[], map[0 := held], map[0 := held, 1 := held], map[0 := map[], 1 := held], map[0 := held, 1 := held]];
    var none: State<T> := map[];
    MergeIntoNothing(held);
    assert StepsTo(run, events, 0, keyOf);
    assert StepsTo(run, events, 1, keyOf);
    assert held - {k} == none;
    assert StepsTo(run, events, 2, keyOf);
    assert StepsTo(run, events, 3, keyOf);
  }

  lemma MergeIntoNothing<T>(s: State<T>)
    ensures Merges(map[], s, s)
  {
    forall k: Key ensures MergesAt(map[], s, s, k) {}
  }
}
