/**
 The two forms of an array, a dense list that turns itself into a hash map with a key order, as
 functions on their fields, and what they are worth as an ordered map.
 */
module Hybrid {
  import opened Integers
  import O = OrderedMap
  import opened OrderedMap

  // The next index of an array that never held an integer key.
  const NO_INT_KEY: Int64 := MIN_INT64

  datatype Rep<V> =
    | List(list: seq<V>, next: Int64)
    | Hash(keys: seq<Key>, values: map<Key, V>, next: Int64)

  /** 64-bit increment, which wraps. */
  function Succ(i: Int64): Int64 {
    if i == MAX_INT64 then MIN_INT64 else i + 1
  }

  ghost predicate Unique(keys: seq<Key>) {
    forall i, j :: 0 <= i < j < |keys| ==> keys[i] != keys[j]
  }

  ghost predicate Covers<V>(keys: seq<Key>, values: map<Key, V>) {
    forall k :: k in keys <==> k in values
  }

  ghost predicate Valid<V>(r: Rep<V>) {
    match r
    case List(list, next) => |list| <= MAX_INT64 && (next == NO_INT_KEY ==> list == []) && (next != NO_INT_KEY ==> |list| <= next)
    case Hash(keys, values, _) => Unique(keys) && Covers(keys, values)
  }

  /** Room for one more element, which every slice in memory has. */
  predicate Room<V>(r: Rep<V>) {
    r.List? ==> |r.list| < MAX_INT64
  }

  function Entries<V>(r: Rep<V>): (es: seq<(Key, V)>)
    requires Valid(r)
    ensures |es| == if r.List? then |r.list| else |r.keys|
  {
    match r
    case List(list, _) => seq(|list|, i requires 0 <= i < |list| => (IntKey(i), list[i]))
    case Hash(keys, values, _) => seq(|keys|, i requires 0 <= i < |keys| => (keys[i], values[keys[i]]))
  }

  function Abs<V>(r: Rep<V>): Ordered<V>
    requires Valid(r)
  {
    Ordered(Entries(r), Index(r.next))
  }

  function Index(next: Int64): Option<int> {
    if next == NO_INT_KEY then None else Some(next)
  }

  // ---- the operations ----

  function Promote<V>(r: Rep<V>): Rep<V>
    requires Valid(r) && r.List?
  {
    Hash(seq(|r.list|, i requires 0 <= i < |r.list| => IntKey(i)), Implicit(r.list), r.next)
  }

  /** The elements of a list under the keys it leaves unsaid. */
  function Implicit<V>(list: seq<V>): (m: map<Key, V>)
    requires |list| <= MAX_INT64
    ensures forall k :: k in m <==> k.IntKey? && 0 <= k.i < |list|
    ensures forall i :: 0 <= i < |list| ==> m[IntKey(i)] == list[i]
  {
    if list == [] then map[] else Implicit(list[..|list| - 1])[IntKey(|list| - 1) := list[|list| - 1]]
  }

  function SetHash<V>(r: Rep<V>, key: Key, val: V): Rep<V>
    requires r.Hash?
  {
    Hash(
      if key in r.values then r.keys else r.keys + [key],
      r.values[key := val],
      if key.IntKey? && key.i >= r.next then Succ(key.i) else r.next)
  }

  function Set<V>(r: Rep<V>, key: Key, val: V): Rep<V>
    requires Valid(r)
  {
    if r.Hash? then SetHash(r, key, val)
    else if !(key.IntKey? && 0 <= key.i <= |r.list|) then SetHash(Promote(r), key, val)
    else if key.i == |r.list| then List(r.list + [val], Succ(key.i))
    else List(r.list[key.i := val], r.next)
  }

  function Append<V>(r: Rep<V>, val: V): Rep<V>
    requires Valid(r) && Room(r)
  {
    if r.List? then List(r.list + [val], |r.list| + 1)
    else SetHash(r, IntKey(if r.next == NO_INT_KEY then 0 else r.next), val)
  }

  function Get<V>(r: Rep<V>, key: Key): Option<V> {
    match r
    case List(list, _) => if key.IntKey? && 0 <= key.i < |list| then Some(list[key.i]) else None
    case Hash(_, values, _) => if key in values then Some(values[key]) else None
  }

  function IndexOf(keys: seq<Key>, key: Key): (i: nat)
    requires key in keys
    ensures i < |keys| && keys[i] == key && key !in keys[..i]
  {
    if keys[0] == key then 0 else 1 + IndexOf(keys[1..], key)
  }

  function DeleteHash<V>(r: Rep<V>, key: Key): Rep<V>
    requires Valid(r) && r.Hash?
  {
    if key !in r.values then r else
    var i := IndexOf(r.keys, key);
    Hash(r.keys[..i] + r.keys[i + 1..], r.values - {key}, r.next)
  }

  function Delete<V>(r: Rep<V>, key: Key): Rep<V>
    requires Valid(r)
  {
    if r.Hash? then DeleteHash(r, key)
    else if !(key.IntKey? && 0 <= key.i < |r.list|) then r
    else if key.i == |r.list| - 1 then List(r.list[..key.i], r.next)
    else (PromoteSame(r); DeleteHash(Promote(r), key))
  }

  function Keys<V>(r: Rep<V>): (ks: seq<Key>)
    requires Valid(r)
    ensures |ks| == |Entries(r)|
  {
    if r.List? then Promote(r).keys else r.keys
  }

  function Pop<V>(r: Rep<V>): (Rep<V>, Option<(Key, V)>)
    requires Valid(r)
  {
    if Keys(r) == [] then (r, None) else
    var key := Keys(r)[|Keys(r)| - 1];
    var rest := Delete(r, key);
    (rest.(next := Popped(rest.next, key)), Some((key, Entries(r)[|Keys(r)| - 1].1)))
  }

  /** The next index once the entry of a key was popped. */
  function Popped(next: Int64, key: Key): Int64 {
    if key.IntKey? && next != NO_INT_KEY && key.i == next - 1 then key.i else next
  }

  function Reset<V>(r: Rep<V>): Rep<V> {
    if r.List? then List([], NO_INT_KEY) else Hash([], map[], NO_INT_KEY)
  }

  function Clear<V>(): Rep<V> {
    List([], 0)
  }

  // ---- each operation against the ordered map ----

  lemma PromoteSame<V>(r: Rep<V>)
    requires Valid(r) && r.List?
    ensures Valid(Promote(r)) && Abs(Promote(r)) == Abs(r)
  {
    var h := Promote(r);
    assert forall k :: k in h.values ==> k == h.keys[k.i];
    assert Entries(h) == Entries(r);
  }

  lemma SameGood<V>(r: Rep<V>)
    requires Valid(r)
    ensures Distinct(Entries(r))
  {
  }

  lemma FindHash<V>(r: Rep<V>, key: Key)
    requires Valid(r) && r.Hash?
    ensures key in r.values <==> Find(Entries(r), key) >= 0
    ensures key in r.values ==> Find(Entries(r), key) == IndexOf(r.keys, key)
  {
    SameGood(r);
    if key in r.values { FindUnique(Entries(r), IndexOf(r.keys, key)); }
  }

  lemma FindList<V>(r: Rep<V>, key: Key)
    requires Valid(r) && r.List?
    ensures Find(Entries(r), key) == if key.IntKey? && 0 <= key.i < |r.list| then key.i else -1
  {
    SameGood(r);
    if key.IntKey? && 0 <= key.i < |r.list| { FindUnique(Entries(r), key.i); }
  }

  lemma SetHashValid<V>(r: Rep<V>, key: Key, val: V)
    requires Valid(r) && r.Hash?
    ensures Valid(SetHash(r, key, val))
  {
    var s := SetHash(r, key, val);
    if key !in r.values { assert s.keys[|r.keys|] == key; }
  }

  lemma SetHashEntries<V>(r: Rep<V>, key: Key, val: V)
    requires Valid(r) && r.Hash?
    ensures Valid(SetHash(r, key, val))
    ensures Entries(SetHash(r, key, val)) == O.Set(Abs(r), key, val).entries
  {
    hide Find, IndexOf;
    SetHashValid(r, key, val);
    FindHash(r, key);
    var es, fs := Entries(SetHash(r, key, val)), O.Set(Abs(r), key, val).entries;
    assert |es| == |fs|;
    forall i | 0 <= i < |es| ensures es[i] == fs[i] {
      if i < |r.keys| {
        assert r.keys[i] in r.values;
        if key in r.values && i != IndexOf(r.keys, key) { assert r.keys[i] != key; }
      }
    }
  }

  /** The writes that leave the next index where the language puts it. */
  predicate SetSafe<V>(r: Rep<V>, key: Key) {
    key != IntKey(MAX_INT64) && !(r.List? && key.IntKey? && key.i == |r.list| && r.next > |r.list| + 1)
  }

  lemma SetRefines<V>(r: Rep<V>, key: Key, val: V)
    requires Valid(r) && Room(r)
    ensures Valid(Set(r, key, val))
    ensures Entries(Set(r, key, val)) == O.Set(Abs(r), key, val).entries
    ensures Abs(Set(r, key, val)) == O.Set(Abs(r), key, val) <==> SetSafe(r, key)
  {
    var s := Set(r, key, val);
    if r.List? && key.IntKey? && 0 <= key.i <= |r.list| {
      FindList(r, key);
      assert Entries(s) == O.Set(Abs(r), key, val).entries;
    } else if r.List? {
      PromoteSame(r);
      SetHashEntries(Promote(r), key, val);
    } else {
      SetHashEntries(r, key, val);
    }
  }

  /** The next index was left behind: the last element of a list was removed and nothing reset the index. */
  predicate Stale<V>(r: Rep<V>) {
    r.List? && r.next != NO_INT_KEY && r.next != |r.list|
  }

  lemma AppendRefines<V>(r: Rep<V>, val: V)
    requires Valid(r) && Room(r)
    ensures Valid(Append(r, val)) && !Stale(Append(r, val))
    ensures Abs(Append(r, val)) == O.Append(Abs(r), val) <==> !Stale(r) && r.next != MAX_INT64
  {
    if r.List? {
      FindList(r, IntKey(|r.list|));
      var n := O.NextIndex(Abs(r));
      if Stale(r) {
        StaleAppend(r, val);
      } else {
        assert Entries(Append(r, val)) == O.Append(Abs(r), val).entries;
      }
    } else {
      SetHashEntries(r, IntKey(if r.next == NO_INT_KEY then 0 else r.next), val);
    }
  }

  /** A stale list hands out the key of the removed element again, where the language skips it. */
  lemma StaleAppend<V>(r: Rep<V>, val: V)
    requires Valid(r) && Room(r) && Stale(r)
    ensures Valid(Append(r, val))
    ensures Entries(Append(r, val)) == Entries(r) + [(IntKey(|r.list|), val)]
    ensures O.Append(Abs(r), val).entries == Entries(r) + [(IntKey(r.next), val)]
  {
    FindList(r, IntKey(r.next));
    assert Entries(Append(r, val)) == Entries(r) + [(IntKey(|r.list|), val)];
  }

  lemma KeysWithout<V>(keys: seq<Key>, values: map<Key, V>, i: nat, r: seq<Key>)
    requires Unique(keys) && Covers(keys, values) && i < |keys| && r == keys[..i] + keys[i + 1..]
    ensures Unique(r) && Covers(r, values - {keys[i]})
  {
    WithoutAt(keys, i, r);
    forall k | k in keys && k != keys[i] ensures k in r {
      var j :| 0 <= j < |keys| && keys[j] == k;
      assert r[if j < i then j else j - 1] == k;
    }
  }

  lemma DeleteHashEntries<V>(r: Rep<V>, key: Key)
    requires Valid(r) && r.Hash?
    ensures Valid(DeleteHash(r, key)) && Abs(DeleteHash(r, key)) == O.Delete(Abs(r), key)
  {
    hide Find, IndexOf, Unique, Covers, Entries;
    FindHash(r, key);
    if key in r.values {
      var i, d := IndexOf(r.keys, key), DeleteHash(r, key);
      KeysWithout(r.keys, r.values, i, d.keys);
      EntriesWithout(r, d, i);
    }
  }

  lemma EntriesWithout<V>(r: Rep<V>, d: Rep<V>, i: nat)
    requires Valid(r) && r.Hash? && Valid(d) && d.Hash? && i < |r.keys|
    requires d.keys == r.keys[..i] + r.keys[i + 1..] && d.values == r.values - {r.keys[i]}
    ensures Entries(d) == Entries(r)[..i] + Entries(r)[i + 1..]
  {
    var es := Entries(r)[..i] + Entries(r)[i + 1..];
    WithoutAt(r.keys, i, d.keys);
    WithoutAt(Entries(r), i, es);
    forall k | 0 <= k < |d.keys| ensures Entries(d)[k] == es[k] {
      assert d.keys[k] in d.values;
    }
  }

  /** Removing a key is what the language asks for in every state. */
  lemma DeleteRefines<V>(r: Rep<V>, key: Key)
    requires Valid(r)
    ensures Valid(Delete(r, key)) && Abs(Delete(r, key)) == O.Delete(Abs(r), key)
  {
    hide Find, IndexOf, Unique, Covers, Entries, Implicit, DeleteHash;
    if r.Hash? {
      DeleteHashEntries(r, key);
    } else {
      FindList(r, key);
      if HitsEnd(r, key) {
        DeleteEnd(r, key);
      } else if key.IntKey? && 0 <= key.i < |r.list| {
        PromoteSame(r);
        DeleteHashEntries(Promote(r), key);
      }
    }
  }

  /** A list is left stale by the removal of its last element, and by no other removal. */
  lemma DeleteStales<V>(r: Rep<V>, key: Key)
    requires Valid(r)
    ensures Stale(Delete(r, key)) <==> HitsEnd(r, key) || (Stale(r) && Get(r, key).None?)
  {
    hide IndexOf, Unique, Covers, Implicit;
  }

  lemma DeleteEnd<V>(r: Rep<V>, key: Key)
    requires Valid(r) && HitsEnd(r, key)
    ensures Valid(List(r.list[..key.i], r.next)) && Entries(List(r.list[..key.i], r.next)) == Entries(r)[..key.i]
  {
  }

  /** The key of the last element of a list. */
  predicate HitsEnd<V>(r: Rep<V>, key: Key) {
    r.List? && key.IntKey? && key.i == |r.list| - 1 && 0 <= key.i
  }

  lemma GetRefines<V>(r: Rep<V>, key: Key)
    requires Valid(r)
    ensures Get(r, key) == O.Get(Abs(r), key)
  {
    if r.List? { FindList(r, key); } else { FindHash(r, key); }
  }

  lemma KeysRefines<V>(r: Rep<V>)
    requires Valid(r)
    ensures Keys(r) == O.Keys(Abs(r))
  {
  }

  /** The last entry has the smallest integer key, and that is the one index handed out last. */
  predicate PopsSmallest<V>(r: Rep<V>)
    requires Valid(r)
  {
    Keys(r) != [] && Keys(r)[|Keys(r)| - 1] == IntKey(MIN_INT64) && r.next == MIN_INT64 + 1
  }

  /** Popping is what the language asks for, up to the smallest key, whose index reads as none afterwards. */
  lemma PopRefines<V>(r: Rep<V>)
    requires Valid(r)
    ensures Valid(Pop(r).0) && Pop(r).1 == O.Pop(Abs(r)).1 && Entries(Pop(r).0) == O.Pop(Abs(r)).0.entries
    ensures Abs(Pop(r).0) == O.Pop(Abs(r)).0 <==> !PopsSmallest(r)
    ensures Stale(Pop(r).0) ==> Stale(r)
  {
    hide Find, IndexOf, Unique, Covers, Implicit, Entries, DeleteHash, Delete, O.Delete, Popped;
    KeysEntries(r);
    if Keys(r) != [] {
      var n := |Keys(r)| - 1;
      var key := Keys(r)[n];
      DeleteRefines(r, key);
      LastEntry(r, n);
      PoppedList(r, key);
      PoppedIndex(r.next, key);
      SameEntries(Delete(r, key), Pop(r).0);
    }
  }

  lemma KeysEntries<V>(r: Rep<V>)
    requires Valid(r)
    ensures forall i :: 0 <= i < |Keys(r)| ==> Keys(r)[i] == Entries(r)[i].0
  {
  }

  lemma SameEntries<V>(r: Rep<V>, s: Rep<V>)
    requires Valid(r) && Valid(s) && s == r.(next := s.next)
    ensures Entries(s) == Entries(r)
  {
  }

  lemma PoppedList<V>(r: Rep<V>, key: Key)
    requires Valid(r) && Keys(r) != [] && key == Keys(r)[|Keys(r)| - 1]
    ensures Delete(r, key).next == r.next && Delete(r, key).List? == r.List?
    ensures r.List? ==>
      && Delete(r, key).list == r.list[..|r.list| - 1]
      && Popped(r.next, key) == if r.next == |r.list| then |r.list| - 1 else r.next
  {
  }

  lemma PoppedIndex(next: Int64, key: Key)
    ensures
      var spec := if key.IntKey? && Index(next) == Some(key.i + 1) then Some(key.i) else Index(next);
      Index(Popped(next, key)) == spec <==> !(key == IntKey(MIN_INT64) && next == MIN_INT64 + 1)
  {
  }

  lemma LastEntry<V>(r: Rep<V>, n: nat)
    requires Valid(r) && n == |Entries(r)| - 1
    ensures Find(Entries(r), Entries(r)[n].0) == n
    ensures O.Delete(Abs(r), Entries(r)[n].0).entries == Entries(r)[..n]
  {
    SameGood(r);
    FindUnique(Entries(r), n);
  }

  lemma ResetRefines<V>(r: Rep<V>)
    ensures Valid(Reset(r)) && Abs(Reset(r)) == Ordered([], None)
  {
  }
}
