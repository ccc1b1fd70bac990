/** PHP's array as the language defines it: entries in insertion order and an optional next index. */
module OrderedMap {
  import opened Integers

  datatype Key = IntKey(i: Int64) | StrKey(s: string)

  datatype Option<+T> = None | Some(value: T)

  // The next index is none until the array has held an integer key.
  datatype Ordered<V> = Ordered(entries: seq<(Key, V)>, next: Option<int>)

  predicate Distinct<V>(es: seq<(Key, V)>) {
    forall i, j :: 0 <= i < j < |es| ==> es[i].0 != es[j].0
  }

  /** Where a key stands, -1 for one that is not there. */
  function Find<V>(es: seq<(Key, V)>, key: Key): (i: int)
    ensures -1 <= i < |es|
    ensures i >= 0 ==> es[i].0 == key
    ensures i < 0 ==> forall j :: 0 <= j < |es| ==> es[j].0 != key
  {
    if es == [] then -1
    else if es[|es| - 1].0 == key then |es| - 1
    else Find(es[..|es| - 1], key)
  }

  /** The first integer key sets the next index behind it, later ones only raise it. */
  function Raise(next: Option<int>, key: Key): Option<int> {
    if key.IntKey? && (next.None? || key.i >= next.value) then Some(key.i + 1) else next
  }

  function Set<V>(o: Ordered<V>, key: Key, val: V): Ordered<V> {
    var i := Find(o.entries, key);
    Ordered(if i < 0 then o.entries + [(key, val)] else o.entries[i := (key, val)], Raise(o.next, key))
  }

  /** The next index, 0 for an array that never held an integer key. */
  function NextIndex<V>(o: Ordered<V>): int {
    if o.next.None? then 0 else o.next.value
  }

  function Append<V>(o: Ordered<V>, val: V): Ordered<V> {
    var n := NextIndex(o);
    if MIN_INT64 <= n <= MAX_INT64 then Set(o, IntKey(n), val) else o
  }

  function Get<V>(o: Ordered<V>, key: Key): Option<V> {
    var i := Find(o.entries, key);
    if i < 0 then None else Some(o.entries[i].1)
  }

  function Delete<V>(o: Ordered<V>, key: Key): Ordered<V> {
    var i := Find(o.entries, key);
    if i < 0 then o else o.(entries := o.entries[..i] + o.entries[i + 1..])
  }

  /** Removes the last entry, and hands its index out again where that was the last one handed out. */
  function Pop<V>(o: Ordered<V>): (Ordered<V>, Option<(Key, V)>) {
    if o.entries == [] then (o, None) else
    var n := |o.entries| - 1;
    var key := o.entries[n].0;
    var next := if key.IntKey? && o.next == Some(key.i + 1) then Some(key.i) else o.next;
    (Ordered(o.entries[..n], next), Some(o.entries[n]))
  }

  function Keys<V>(o: Ordered<V>): seq<Key> {
    seq(|o.entries|, i requires 0 <= i < |o.entries| => o.entries[i].0)
  }

  /** The entries a walk sees before the callback stops it, the one it stops at included. */
  function Walk<V>(es: seq<(Key, V)>, go: (Key, V) -> bool): (seen: seq<(Key, V)>)
    ensures |seen| <= |es|
  {
    if es == [] then []
    else if !go(es[0].0, es[0].1) then [es[0]]
    else [es[0]] + Walk(es[1..], go)
  }

  /** In an array without duplicates a key stands in one place. */
  lemma FindUnique<V>(es: seq<(Key, V)>, i: nat)
    requires Distinct(es) && i < |es|
    ensures Find(es, es[i].0) == i
  {
  }

  // Integer keys stay below the next index.
  ghost predicate Below<V>(o: Ordered<V>) {
    forall i :: 0 <= i < |o.entries| && o.entries[i].0.IntKey? ==> o.next.Some? && o.entries[i].0.i < o.next.value
  }

  ghost predicate Good<V>(o: Ordered<V>) {
    Distinct(o.entries) && Below(o)
  }

  lemma SetKeeps<V>(o: Ordered<V>, key: Key, val: V)
    requires Good(o)
    ensures Good(Set(o, key, val))
  {
    var i, es := Find(o.entries, key), Set(o, key, val).entries;
    assert forall k :: 0 <= k < |es| ==> es[k].0 == if k < |o.entries| then o.entries[k].0 else key;
  }

  /** A sequence without its element at i. */
  lemma WithoutAt<T>(s: seq<T>, i: nat, r: seq<T>)
    requires i < |s| && r == s[..i] + s[i + 1..]
    ensures |r| == |s| - 1
    ensures forall k :: 0 <= k < |r| ==> r[k] == s[if k < i then k else k + 1]
  {
  }

  lemma DeleteKeeps<V>(o: Ordered<V>, key: Key)
    requires Good(o)
    ensures Good(Delete(o, key))
  {
    var i := Find(o.entries, key);
    if i >= 0 { WithoutAt(o.entries, i, Delete(o, key).entries); }
  }

  lemma PopKeeps<V>(o: Ordered<V>)
    requires Good(o)
    ensures Good(Pop(o).0)
  {
    var n := |o.entries| - 1;
    if n >= 0 {
      assert forall k :: 0 <= k < n ==> o.entries[..n][k] == o.entries[k] && o.entries[k].0 != o.entries[n].0;
    }
  }

  /** Where a key stands after a write. */
  lemma SetFind<V>(o: Ordered<V>, key: Key, val: V, other: Key)
    requires Good(o)
    ensures
      var i := Find(o.entries, key);
      Find(Set(o, key, val).entries, other) ==
        if other != key then Find(o.entries, other) else if i < 0 then |o.entries| else i
  {
    hide Find, Raise, Below;
    var es, r := o.entries, Set(o, key, val).entries;
    var i, j := Find(es, key), Find(es, other);
    SetKeeps(o, key, val);
    FindIs(es, key);
    FindIs(es, other);
    FindIs(r, other);
    if other == key {
      FindUnique(r, if i < 0 then |es| else i);
    } else if j >= 0 {
      FindUnique(r, j);
    }
  }

  lemma FindIs<V>(es: seq<(Key, V)>, key: Key)
    ensures -1 <= Find(es, key) < |es|
    ensures Find(es, key) >= 0 ==> es[Find(es, key)].0 == key
    ensures Find(es, key) < 0 ==> forall j :: 0 <= j < |es| ==> es[j].0 != key
  {
  }

  /** What a key holds after a write, and that every other key holds what it held. */
  lemma SetGet<V>(o: Ordered<V>, key: Key, val: V, other: Key)
    requires Good(o)
    ensures Get(Set(o, key, val), other) == if other == key then Some(val) else Get(o, other)
  {
    SetFind(o, key, val, other);
  }

  /** A removed key holds nothing, every other key what it held. */
  lemma DeleteGet<V>(o: Ordered<V>, key: Key, other: Key)
    requires Good(o)
    ensures Get(Delete(o, key), other) == if other == key then None else Get(o, other)
  {
    hide Find, Below;
    var es, r := o.entries, Delete(o, key).entries;
    var i := Find(es, key);
    FindIs(es, key);
    FindIs(es, other);
    FindIs(r, other);
    if i >= 0 {
      WithoutAt(es, i, r);
      if other == key {
        assert forall k :: 0 <= k < |r| ==> r[k].0 != other;
      } else if Find(es, other) < 0 {
        assert forall k :: 0 <= k < |r| ==> r[k].0 != other;
      } else {
        FoundAfter(o, key, other);
      }
    }
  }

  lemma FoundAfter<V>(o: Ordered<V>, key: Key, other: Key)
    requires Good(o) && other != key && Find(o.entries, key) >= 0 && Find(o.entries, other) >= 0
    ensures
      var i, j := Find(o.entries, key), Find(o.entries, other);
      Find(Delete(o, key).entries, other) == if j < i then j else j - 1
  {
    var i, j := Find(o.entries, key), Find(o.entries, other);
    DeleteKeeps(o, key);
    WithoutAt(o.entries, i, Delete(o, key).entries);
    FindUnique(Delete(o, key).entries, if j < i then j else j - 1);
  }
}
