/** The array itself: fields updated in place, each method against the function on its form. */
module Arrays {
  import opened Integers
  import O = OrderedMap
  import opened OrderedMap
  import H = Hybrid

  class Array<V> {
    var list: seq<V> // element i is the value of key i, while values is none
    var keys: seq<Key>
    var values: Option<map<Key, V>>
    var nextID: Int64

    constructor ()
      ensures Valid() && Rep() == H.List([], H.NO_INT_KEY)
    {
      list, keys, values, nextID := [], [], None, H.NO_INT_KEY;
    }

    ghost function Rep(): H.Rep<V>
      reads this
    {
      if values.None? then H.List(list, nextID) else H.Hash(keys, values.value, nextID)
    }

    ghost predicate Valid()
      reads this
    {
      H.Valid(Rep())
    }

    predicate IsList()
      reads this
    {
      values.None?
    }

    method Reset()
      modifies this
      ensures Valid() && Rep() == H.Reset(old(Rep()))
    {
      list, keys, nextID := [], [], H.NO_INT_KEY;
      if values.Some? { values := Some(map[]); }
    }

    method Promote()
      requires Valid() && IsList()
      modifies this
      ensures Valid() && !IsList() && Rep() == H.Promote(old(Rep()))
    {
      hide H.Implicit, H.Unique, H.Covers, H.Entries;
      H.PromoteSame(Rep());
      var n := |list|;
      var m: map<Key, V> := map[];
      var ks: seq<Key> := [];
      var i := 0;
      ghost var before := Rep();
      ImplicitNone(list);
      while i < n
        invariant 0 <= i <= n && n == |list| && n <= MAX_INT64 && Rep() == before
        invariant m == H.Implicit(list[..i])
      {
        ImplicitNext(list, i);
        m := m[IntKey(i) := list[i]];
        i := i + 1;
      }
      i := 0;
      while i < n
        invariant 0 <= i <= n && n <= MAX_INT64
        invariant |ks| == i && forall j :: 0 <= j < i ==> ks[j] == IntKey(j)
      {
        ks := ks + [IntKey(i)];
        i := i + 1;
      }
      assert list[..n] == list && ks == H.Promote(Rep()).keys;
      keys, values, list := ks, Some(m), [];
    }

    method Set(key: Key, val: V)
      requires Valid() && H.Room(Rep())
      modifies this
      ensures Valid() && Rep() == H.Set(old(Rep()), key, val)
    {
      H.SetRefines(Rep(), key, val);
      if IsList() {
        if key.IntKey? && 0 <= key.i <= |list| {
          if key.i == |list| {
            list := list + [val];
            nextID := H.Succ(key.i);
          } else {
            list := list[key.i := val];
          }
          return;
        }
        Promote();
      }
      if key !in values.value { keys := keys + [key]; }
      values := Some(values.value[key := val]);
      if key.IntKey? && key.i >= nextID { nextID := H.Succ(key.i); }
    }

    method Append(val: V)
      requires Valid() && H.Room(Rep())
      modifies this
      ensures Valid() && Rep() == H.Append(old(Rep()), val)
    {
      if IsList() {
        list := list + [val];
        nextID := |list|;
      } else if nextID == H.NO_INT_KEY {
        Set(IntKey(0), val);
      } else {
        Set(IntKey(nextID), val);
      }
    }

    method Get(key: Key) returns (r: Option<V>)
      requires Valid()
      ensures r == O.Get(H.Abs(Rep()), key)
    {
      H.GetRefines(Rep(), key);
      if IsList() {
        r := if key.IntKey? && 0 <= key.i < |list| then Some(list[key.i]) else None;
      } else {
        r := if key in values.value then Some(values.value[key]) else None;
      }
    }

    /** Removes a key and keeps the order of the others. */
    method Delete(key: Key)
      requires Valid()
      modifies this
      ensures Valid() && Rep() == H.Delete(old(Rep()), key)
      ensures H.Abs(Rep()) == O.Delete(H.Abs(old(Rep())), key)
    {
      hide H.Implicit, H.Unique, H.Covers, H.Entries, H.Abs, O.Delete;
      H.DeleteRefines(Rep(), key);
      if IsList() {
        if !(key.IntKey? && 0 <= key.i < |list|) { return; }
        if key.i == |list| - 1 {
          list := list[..key.i];
          return;
        }
        Promote();
      }
      if key !in values.value { return; }
      ghost var before := Rep();
      InKeys(before, key);
      values := Some(values.value - {key});
      var i := 0;
      while i < |keys|
        invariant 0 <= i <= |keys| && keys == before.keys && key !in keys[..i]
        invariant values == Some(before.values - {key}) && nextID == before.next
      {
        if keys[i] == key {
          FirstIndex(keys, key, i);
          keys := keys[..i] + keys[i + 1..];
          return;
        }
        i := i + 1;
      }
    }

    method Pop() returns (r: Option<(Key, V)>)
      requires Valid()
      modifies this
      ensures Valid() && Rep() == H.Pop(old(Rep())).0 && r == H.Pop(old(Rep())).1
    {
      hide H.Implicit, H.Unique, H.Covers, H.Entries, O.Delete, O.Pop, H.Delete, Find;
      H.PopRefines(Rep());
      H.KeysRefines(Rep());
      LastValue(Rep());
      var n := Len();
      if n == 0 { return None; }
      var ks := Keys();
      var key := ks[|ks| - 1];
      var value := Get(key);
      Delete(key);
      if key.IntKey? && nextID != H.NO_INT_KEY && key.i == nextID - 1 { nextID := key.i; }
      r := Some((key, value.value));
    }

    method Len() returns (n: nat)
      requires Valid()
      ensures n == |H.Abs(Rep()).entries|
    {
      n := if IsList() then |list| else |keys|;
    }

    method Keys() returns (ks: seq<Key>)
      requires Valid()
      ensures ks == O.Keys(H.Abs(Rep()))
    {
      H.KeysRefines(Rep());
      if !IsList() { return keys; }
      ks := [];
      var i := 0;
      while i < |list|
        invariant 0 <= i <= |list| && |ks| == i
        invariant forall j :: 0 <= j < i ==> ks[j] == IntKey(j)
      {
        ks := ks + [IntKey(i)];
        i := i + 1;
      }
    }

    /** Hands the entries to a callback in order, until it answers false. */
    method Range(go: (Key, V) -> bool) returns (seen: seq<(Key, V)>)
      requires Valid()
      ensures seen == Walk(H.Abs(Rep()).entries, go)
    {
      hide Walk;
      ghost var es := H.Abs(Rep()).entries;
      var n := Len();
      seen := [];
      var i := 0;
      assert es[0..] == es && [] + Walk(es, go) == Walk(es, go);
      while i < n
        invariant 0 <= i <= n == |es| && es == H.Abs(Rep()).entries
        invariant Walk(es, go) == seen + Walk(es[i..], go)
      {
        var key := if IsList() then IntKey(i) else keys[i];
        var val := if IsList() then list[i] else values.value[key];
        WalkNext(es, i, go, seen);
        seen := seen + [(key, val)];
        if !go(key, val) { return; }
        i := i + 1;
      }
      WalkEnd(go);
    }

    /** Puts the values back as a dense list. */
    method ReplaceList(vals: seq<V>)
      requires |vals| < MAX_INT64
      modifies this
      ensures Valid() && !H.Stale(Rep()) && H.Abs(Rep()).next == (if vals == [] then None else Some(|vals|))
      ensures forall i :: 0 <= i < |vals| ==> O.Get(H.Abs(Rep()), IntKey(i)) == Some(vals[i])
      ensures |H.Abs(Rep()).entries| == |vals|
      ensures forall i :: 0 <= i < |vals| ==> H.Abs(Rep()).entries[i] == (IntKey(i), vals[i])
    {
      keys, values := [], None;
      list := vals;
      nextID := if |vals| == 0 then H.NO_INT_KEY else |vals|;
      forall i | 0 <= i < |vals| ensures O.Get(H.Abs(Rep()), IntKey(i)) == Some(vals[i]) {
        H.GetRefines(Rep(), IntKey(i));
      }
    }

    method Clear()
      modifies this
      ensures Valid() && Rep() == H.Clear()
    {
      list, keys, values, nextID := [], [], None, 0;
    }
  }

  lemma {:induction false} FirstIndex(keys: seq<Key>, key: Key, i: nat)
    requires i < |keys| && keys[i] == key && key !in keys[..i]
    ensures key in keys && H.IndexOf(keys, key) == i
  {
    if i > 0 {
      assert keys[0] == keys[..i][0];
      assert keys[1..][..i - 1] == keys[..i][1..];
      FirstIndex(keys[1..], key, i - 1);
    }
  }

  lemma WalkNext<V>(es: seq<(Key, V)>, i: nat, go: (Key, V) -> bool, seen: seq<(Key, V)>)
    requires i < |es|
    ensures seen + Walk(es[i..], go) ==
      if go(es[i].0, es[i].1) then seen + [es[i]] + Walk(es[i + 1..], go) else seen + [es[i]]
  {
    assert es[i..][1..] == es[i + 1..];
    assert seen + ([es[i]] + Walk(es[i + 1..], go)) == seen + [es[i]] + Walk(es[i + 1..], go);
  }

  lemma WalkEnd<V>(go: (Key, V) -> bool)
    ensures Walk([], go) == []
  {
  }

  lemma InKeys<V>(r: H.Rep<V>, key: Key)
    requires H.Valid(r) && r.Hash? && key in r.values
    ensures key in r.keys && r.keys[..|r.keys|] == r.keys
  {
  }

  lemma ImplicitNone<V>(list: seq<V>)
    requires |list| <= MAX_INT64
    ensures H.Implicit(list[..0]) == map[] && list[..|list|] == list
  {
  }

  lemma ImplicitNext<V>(list: seq<V>, i: nat)
    requires i < |list| <= MAX_INT64
    ensures H.Implicit(list[..i + 1]) == H.Implicit(list[..i])[IntKey(i) := list[i]]
  {
    assert list[..i + 1][..i] == list[..i];
  }

  /** The value a lookup of the last key answers is that of the last entry. */
  lemma LastValue<V>(r: H.Rep<V>)
    requires H.Valid(r)
    ensures
      var es := H.Abs(r).entries;
      es != [] ==> O.Get(H.Abs(r), es[|es| - 1].0) == Some(es[|es| - 1].1)
  {
    var es := H.Abs(r).entries;
    if es != [] {
      H.SameGood(r);
      FindUnique(es, |es| - 1);
    }
  }
}
