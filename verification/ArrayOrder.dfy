/** What the language says of an array's order and of the key an append takes, read off whole runs. */
module ArrayOrder {
  import opened Integers
  import O = OrderedMap
  import opened OrderedMap
  import opened ArrayRuns

  /** The keys without one of them. */
  function Without(keys: seq<Key>, key: Key): seq<Key> {
    if keys == [] then []
    else if keys[0] == key then Without(keys[1..], key)
    else [keys[0]] + Without(keys[1..], key)
  }

  /** A key that is written again keeps its place, a new one goes to the end. */
  lemma SetOrder<V>(o: Ordered<V>, key: Key, val: V)
    ensures O.Keys(O.Set(o, key, val)) == if key in O.Keys(o) then O.Keys(o) else O.Keys(o) + [key]
  {
    var i := Find(o.entries, key);
    if i >= 0 { assert O.Keys(o)[i] == key; }
  }

  /** The keys around a removed one keep their order. */
  lemma DeleteOrder<V>(o: Ordered<V>, key: Key)
    requires Good(o)
    ensures O.Keys(O.Delete(o, key)) == Without(O.Keys(o), key)
  {
    var i, ks := Find(o.entries, key), O.Keys(o);
    if i < 0 {
      WithoutNone(ks, key);
    } else {
      assert forall j :: 0 <= j < |ks| && j != i ==> ks[j] != key;
      WithoutOne(ks, key, i);
      assert O.Keys(O.Delete(o, key)) == ks[..i] + ks[i + 1..];
    }
  }

  lemma {:induction false} WithoutNone(keys: seq<Key>, key: Key)
    requires key !in keys
    ensures Without(keys, key) == keys
  {
    if keys != [] { WithoutNone(keys[1..], key); }
  }

  lemma {:induction false} WithoutOne(keys: seq<Key>, key: Key, i: nat)
    requires i < |keys| && keys[i] == key && forall j :: 0 <= j < |keys| && j != i ==> keys[j] != key
    ensures Without(keys, key) == keys[..i] + keys[i + 1..]
  {
    if i == 0 {
      WithoutNone(keys[1..], key);
    } else {
      WithoutOne(keys[1..], key, i - 1);
      assert keys[..i] == [keys[0]] + keys[1..][..i - 1];
    }
  }

  /**
   An append adds one entry at the end, under the next index, as long as that is a 64-bit integer,
   the largest one included. Behind that it adds nothing.
   */
  lemma AppendOrder<V>(o: Ordered<V>, val: V)
    requires Good(o)
    ensures
      var n := if o.next.None? then 0 else o.next.value;
      if MIN_INT64 <= n <= MAX_INT64
      then O.Append(o, val) == Ordered(o.entries + [(IntKey(n), val)], Some(n + 1))
      else O.Append(o, val) == o
  {
  }

  // ---- the next index over a run ----

  predicate Holds<V>(o: Ordered<V>, k: int) {
    MIN_INT64 <= k <= MAX_INT64 && IntKey(k) in O.Keys(o)
  }

  /** An integer key stood in the array at some point of the run. */
  predicate Stood<V>(o: Ordered<V>, ops: seq<Op<V>>, k: int)
    decreases |ops|
  {
    Holds(o, k) || (ops != [] && Stood(Meant(o, ops[0]).0, ops[1..], k))
  }

  /** The steps that neither pop nor empty the array. */
  predicate Keeps<V>(op: Op<V>) {
    !op.DoPop? && !op.DoReset? && !op.DoClear?
  }

  // How far the next index has come from o on.
  ghost predicate Risen<V>(o: Ordered<V>, ops: seq<Op<V>>, end: Ordered<V>) {
    && (o.next.Some? ==> end.next.Some? && o.next.value <= end.next.value)
    && (forall k :: Stood(o, ops, k) ==> end.next.Some? && k < end.next.value)
    && (end.next.Some? && end.next != o.next ==> Stood(o, ops, end.next.value - 1))
  }

  lemma WriteHolds<V>(o: Ordered<V>, key: Key, val: V)
    requires Good(o)
    ensures Good(O.Set(o, key, val)) && key in O.Keys(O.Set(o, key, val))
  {
    SetKeeps(o, key, val);
    SetOrder(o, key, val);
  }

  lemma KeepsGood<V>(o: Ordered<V>, op: Op<V>)
    requires Good(o) && Keeps(op)
    ensures
      var p := Meant(o, op).0;
      && Good(p)
      && (o.next.Some? ==> p.next.Some? && o.next.value <= p.next.value)
      && (p.next.Some? && p.next != o.next ==> Holds(p, p.next.value - 1))
  {
    match op
    case DoSet(key, val) => WriteHolds(o, key, val);
    case DoAppend(val) => if MIN_INT64 <= NextIndex(o) <= MAX_INT64 { WriteHolds(o, IntKey(NextIndex(o)), val); }
    case DoDelete(key) => DeleteKeeps(o, key);
    case _ =>
  }

  lemma {:induction false} RunRises<V>(o: Ordered<V>, ops: seq<Op<V>>)
    requires Good(o) && forall k :: 0 <= k < |ops| ==> Keeps(ops[k])
    ensures Risen(o, ops, RunMeant(o, ops).0)
    decreases |ops|
  {
    if ops == [] {
    } else {
      var p := Meant(o, ops[0]).0;
      KeepsGood(o, ops[0]);
      RunRises(p, ops[1..]);
    }
  }

  /**
   Over every run that neither pops nor empties a new array, however it writes, appends and removes,
   the next index is one behind the largest integer key that ever stood in the array, negative keys
   included. It is none exactly where no integer key ever did.
   */
  lemma NextIsBehindLargest<V>(ops: seq<Op<V>>)
    requires forall k :: 0 <= k < |ops| ==> Keeps(ops[k])
    ensures
      var start: Ordered<V> := Ordered([], None);
      var next := RunMeant(start, ops).0.next;
      && (next.None? <==> forall k :: !Stood(start, ops, k))
      && (next.Some? ==> Stood(start, ops, next.value - 1) && forall k :: Stood(start, ops, k) ==> k < next.value)
  {
    hide RunMeant, Stood, Risen, Meant, Keeps;
    var start: Ordered<V> := Ordered([], None);
    RunRises(start, ops);
    FromNone(start, ops, RunMeant(start, ops).0);
  }

  lemma FromNone<V>(o: Ordered<V>, ops: seq<Op<V>>, end: Ordered<V>)
    requires o.next.None? && Risen(o, ops, end)
    ensures end.next.None? <==> forall k :: !Stood(o, ops, k)
    ensures end.next.Some? ==> Stood(o, ops, end.next.value - 1) && forall k :: Stood(o, ops, k) ==> k < end.next.value
  {
    hide Stood;
  }
}
