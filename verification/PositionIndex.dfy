/** The `first`/`count` hash index over logical positions that both deques of the buffer use. */
module PositionIndex {
  import opened Core

  datatype Position = Position(first: nat, count: nat)

  type Index = map<U64, Position>

  /** The identifiers held by consecutive slots; a vacant slot holds none. */
  type Slots = seq<Option<U64>>

  ghost predicate FirstAt(slots: Slots, k: int, id: U64) {
    0 <= k < |slots| && slots[k] == Some(id) && forall j :: 0 <= j < k ==> slots[j] != Some(id)
  }

  /** The entry of one identifier: present exactly when occupied, with least logical key and multiplicity. */
  ghost predicate Describes(index: Index, base: nat, slots: Slots, id: U64) {
    && (id in index <==> Some(id) in slots)
    && (id in index ==> index[id].count == multiset(slots)[Some(id)] > 0)
    && (id in index ==> FirstAt(slots, index[id].first - base, id))
  }

  ghost predicate Indexes(index: Index, base: nat, slots: Slots) {
    forall id: U64 :: Describes(index, base, slots, id)
  }

  /** The hash-map entry update of `push`, `build_index` and `compact`. */
  function Enter(index: Index, id: U64, key: nat): Index {
    if id in index then index[id := index[id].(count := index[id].count + 1)] else index[id := Position(key, 1)]
  }

  /** The least slot holding `id`: the deque's `iter().position(..)`. */
  function FirstSlot(slots: Slots, id: U64): (k: nat)
    requires Some(id) in slots
    ensures FirstAt(slots, k, id)
  {
    if slots[0] == Some(id) then 0 else
      var k := FirstSlot(slots[1..], id) + 1;
      assert forall j :: 1 <= j < k ==> slots[j] == slots[1..][j - 1];
      k
  }

  lemma EnterIndexes(index: Index, base: nat, slots: Slots, id: U64, key: nat)
    requires Indexes(index, base, slots) && key == base + |slots|
    ensures Indexes(Enter(index, id, key), base, slots + [Some(id)])
  {
    var longer := slots + [Some(id)];
    var index' := Enter(index, id, key);
    forall other: U64
      ensures Describes(index', base, longer, other)
    {
      assert Describes(index, base, slots, other);
      assert Some(other) in longer <==> Some(other) in slots || other == id;
      assert multiset(longer) == multiset(slots) + multiset{Some(id)};
      assert longer[|slots|] == Some(id);
    }
  }

  /** What eviction does to the index once the slot of logical key `key` has been emptied. */
  function Leave(index: Index, base: nat, vacated: Slots, id: U64, key: nat): Index
    requires id in index && index[id].count > 0
    requires index[id].count > 1 ==> Some(id) in vacated
  {
    var p := index[id];
    if p.count == 1 then index - {id}
    else if p.first == key then index[id := Position(base + FirstSlot(vacated, id), p.count - 1)]
    else index[id := Position(p.first, p.count - 1)]
  }

  lemma VacatedCount(slots: Slots, k: nat, id: U64, other: U64)
    requires k < |slots| && slots[k] == Some(id)
    ensures multiset(slots[k := None])[Some(other)] == multiset(slots)[Some(other)] - (if other == id then 1 else 0)
    ensures Some(other) in slots[k := None] <==> multiset(slots[k := None])[Some(other)] > 0
    ensures Some(other) in slots <==> multiset(slots)[Some(other)] > 0
  {
    assert multiset(slots[k := None]) == multiset(slots) - multiset{Some(id)} + multiset{None};
  }

  lemma LeaveIsDefined(index: Index, base: nat, slots: Slots, k: nat, id: U64)
    requires Describes(index, base, slots, id)
    requires k < |slots| && slots[k] == Some(id)
    ensures id in index && index[id].count > 0
    ensures index[id].count > 1 ==> Some(id) in slots[k := None]
  {
    assert Some(id) in slots;
    VacatedCount(slots, k, id, id);
  }

  lemma VacatedFirst(slots: Slots, k: nat, f: int, id: U64, other: U64)
    requires k < |slots| && slots[k] == Some(id)
    requires FirstAt(slots, f, other) && (other != id || f != k)
    ensures FirstAt(slots[k := None], f, other)
  {
  }

  lemma LeaveIndexes(index: Index, base: nat, slots: Slots, k: nat, id: U64)
    requires Indexes(index, base, slots)
    requires k < |slots| && slots[k] == Some(id)
    requires id in index && index[id].count > 0
    requires index[id].count > 1 ==> Some(id) in slots[k := None]
    ensures Indexes(Leave(index, base, slots[k := None], id, base + k), base, slots[k := None])
  {
    var vacated := slots[k := None];
    var index' := Leave(index, base, vacated, id, base + k);
    forall other: U64
      ensures Describes(index', base, vacated, other)
    {
      assert Describes(index, base, slots, other);
      VacatedCount(slots, k, id, other);
      if other in index && (other != id || index[id].first != base + k) {
        VacatedFirst(slots, k, index[other].first - base, id, other);
      }
      if other == id {
        assert index[id].count > 1 ==> index'[id].count == index[id].count - 1;
      } else {
        assert other in index ==> other in index' && index'[other] == index[other];
      }
    }
  }

  lemma DropVacantFront(index: Index, base: nat, slots: Slots)
    requires Indexes(index, base, slots)
    requires slots != [] && slots[0] == None
    ensures Indexes(index, base + 1, slots[1..])
  {
    var rest, next := slots[1..], base + 1;
    assert slots == [None] + rest;
    assert multiset(slots) == multiset{None} + multiset(rest);
    forall id: U64
      ensures Describes(index, next, rest, id)
    {
      assert Describes(index, base, slots, id);
      assert Some(id) in rest <==> Some(id) in slots;
    }
  }
}
