/** Whole runs of array operations, in either form, against the ordered map of the language. */
module ArrayRuns {
  import opened Integers
  import O = OrderedMap
  import opened OrderedMap
  import H = Hybrid
  import opened Hybrid

  datatype Op<!V> =
    | DoSet(key: Key, val: V)
    | DoAppend(val: V)
    | DoGet(key: Key)
    | DoDelete(key: Key)
    | DoPop
    | DoKeys
    | DoRange(go: (Key, V) -> bool)
    | DoReset
    | DoClear

  // What an operation shows its caller.
  datatype Out<+V> =
    | Nothing
    | Found(value: Option<V>)
    | Popped(entry: Option<(Key, V)>)
    | Listed(keys: seq<Key>)
    | Seen(entries: seq<(Key, V)>)

  function Step<V>(r: Rep<V>, op: Op<V>): (Rep<V>, Out<V>)
    requires Valid(r) && Room(r)
  {
    match op
    case DoSet(key, val) => (H.Set(r, key, val), Nothing)
    case DoAppend(val) => (H.Append(r, val), Nothing)
    case DoGet(key) => (r, Found(H.Get(r, key)))
    case DoDelete(key) => (H.Delete(r, key), Nothing)
    case DoPop => (H.Pop(r).0, Popped(H.Pop(r).1))
    case DoKeys => (r, Listed(H.Keys(r)))
    case DoRange(go) => (r, Seen(Walk(Entries(r), go)))
    case DoReset => (H.Reset(r), Nothing)
    case DoClear => (H.Clear(), Nothing)
  }

  function Meant<V>(o: Ordered<V>, op: Op<V>): (Ordered<V>, Out<V>) {
    match op
    case DoSet(key, val) => (O.Set(o, key, val), Nothing)
    case DoAppend(val) => (O.Append(o, val), Nothing)
    case DoGet(key) => (o, Found(O.Get(o, key)))
    case DoDelete(key) => (O.Delete(o, key), Nothing)
    case DoPop => (O.Pop(o).0, Popped(O.Pop(o).1))
    case DoKeys => (o, Listed(O.Keys(o)))
    case DoRange(go) => (o, Seen(Walk(o.entries, go)))
    case DoReset => (Ordered([], None), Nothing)
    case DoClear => (Ordered([], Some(0)), Nothing)
  }

  /** The step leaves the next index where the language puts it. */
  ghost predicate Safe<V>(r: Rep<V>, op: Op<V>)
    requires Valid(r)
  {
    match op
    case DoSet(key, _) => SetSafe(r, key)
    case DoAppend(_) => !Stale(r) && r.next != MAX_INT64
    case DoPop => !PopsSmallest(r)
    case _ => true
  }

  /** A step shows what the language says in every state, and leaves what the language says exactly where it is safe. */
  lemma StepRefines<V>(r: Rep<V>, op: Op<V>)
    requires Valid(r) && Room(r)
    ensures Valid(Step(r, op).0) && Step(r, op).1 == Meant(Abs(r), op).1
    ensures Abs(Step(r, op).0) == Meant(Abs(r), op).0 <==> Safe(r, op)
  {
    hide H.Set, H.Append, H.Delete, H.Pop, H.Get, H.Keys,
      O.Set, O.Append, O.Delete, O.Pop, O.Get, O.Keys, Valid, SetSafe, Stale, PopsSmallest, Walk;
    match op
    case DoSet(key, val) => SetRefines(r, key, val);
    case DoAppend(val) => AppendRefines(r, val);
    case DoGet(key) => GetRefines(r, key);
    case DoDelete(key) => DeleteRefines(r, key);
    case DoPop => PopRefines(r);
    case DoKeys => KeysRefines(r);
    case DoRange(_) =>
    case DoReset => ResetRefines(r);
    case DoClear => ClearRefines<V>();
  }

  lemma ClearRefines<V>()
    ensures Valid(H.Clear<V>()) && Abs(H.Clear<V>()) == Ordered([], Some(0))
  {
  }

  // ---- runs ----

  /** Memory for n more elements. */
  predicate Fits<V>(r: Rep<V>, n: nat) {
    (if r.List? then |r.list| else 0) + n <= MAX_INT64
  }

  lemma StepFits<V>(r: Rep<V>, op: Op<V>, n: nat)
    requires Valid(r) && Fits(r, n) && n > 0
    ensures Fits(Step(r, op).0, n - 1)
  {
    hide H.Set, H.Append, H.Delete, H.Pop, H.Get, H.Keys, Valid, Walk;
    match op
    case DoSet(key, val) => SetFits(r, key, val);
    case DoAppend(val) => AppendFits(r, val);
    case DoDelete(key) => DeleteFits(r, key);
    case DoPop => PopFits(r);
    case _ =>
  }

  lemma SetFits<V>(r: Rep<V>, key: Key, val: V)
    requires Valid(r)
    ensures H.Set(r, key, val).List? ==> r.List? && |H.Set(r, key, val).list| <= |r.list| + 1
  {
  }

  lemma AppendFits<V>(r: Rep<V>, val: V)
    requires Valid(r) && Room(r)
    ensures H.Append(r, val).List? ==> r.List? && |H.Append(r, val).list| <= |r.list| + 1
  {
  }

  lemma DeleteFits<V>(r: Rep<V>, key: Key)
    requires Valid(r)
    ensures H.Delete(r, key).List? ==> r.List? && |H.Delete(r, key).list| <= |r.list|
  {
    hide IndexOf;
  }

  lemma PopFits<V>(r: Rep<V>)
    requires Valid(r)
    ensures H.Pop(r).0.List? ==> r.List? && |H.Pop(r).0.list| <= |r.list|
  {
    hide Valid, H.Delete, H.Keys;
    if H.Keys(r) != [] { DeleteFits(r, H.Keys(r)[|H.Keys(r)| - 1]); }
  }

  function Run<V>(r: Rep<V>, ops: seq<Op<V>>): (s: (Rep<V>, seq<Out<V>>))
    requires Valid(r) && Fits(r, |ops|)
    ensures Valid(s.0)
    decreases |ops|
  {
    if ops == [] then (r, []) else
    var first := (StepRefines(r, ops[0]); StepFits(r, ops[0], |ops|); Step(r, ops[0]));
    var rest := Run(first.0, ops[1..]);
    (rest.0, [first.1] + rest.1)
  }

  function RunMeant<V>(o: Ordered<V>, ops: seq<Op<V>>): (Ordered<V>, seq<Out<V>>)
    decreases |ops|
  {
    if ops == [] then (o, []) else
    var first := Meant(o, ops[0]);
    var rest := RunMeant(first.0, ops[1..]);
    (rest.0, [first.1] + rest.1)
  }

  ghost predicate SafeRun<V>(r: Rep<V>, ops: seq<Op<V>>)
    requires Valid(r) && Fits(r, |ops|)
    decreases |ops|
  {
    ops == [] ||
      (Safe(r, ops[0]) && (StepRefines(r, ops[0]); StepFits(r, ops[0], |ops|); SafeRun(Step(r, ops[0]).0, ops[1..])))
  }

  /** Every run of safe steps shows and leaves what the ordered map does. */
  lemma {:induction false} RunRefines<V>(r: Rep<V>, ops: seq<Op<V>>)
    requires Valid(r) && Fits(r, |ops|) && SafeRun(r, ops)
    ensures Run(r, ops).1 == RunMeant(Abs(r), ops).1 && Abs(Run(r, ops).0) == RunMeant(Abs(r), ops).0
    decreases |ops|
  {
    if ops != [] {
      hide Step, Meant, Abs, Valid, Safe, Fits;
      StepRefines(r, ops[0]);
      StepFits(r, ops[0], |ops|);
      RunRefines(Step(r, ops[0]).0, ops[1..]);
    }
  }

  // The same array, where b has been promoted and a need not have been.
  ghost predicate Twins<V>(a: Rep<V>, b: Rep<V>) {
    Valid(a) && Valid(b) && Abs(a) == Abs(b) && (b.List? ==> a == b)
  }

  lemma TwinsStep<V>(a: Rep<V>, b: Rep<V>, op: Op<V>)
    requires Twins(a, b) && Room(a) && Safe(a, op)
    ensures Room(b) && Safe(b, op) && Twins(Step(a, op).0, Step(b, op).0)
  {
    StepRefines(a, op);
    if b.Hash? {
      SafeTwin(a, b, op);
      StepRefines(b, op);
    }
  }

  lemma SafeTwin<V>(a: Rep<V>, b: Rep<V>, op: Op<V>)
    requires Twins(a, b) && b.Hash? && Safe(a, op)
    ensures Safe(b, op)
  {
    hide Entries;
    assert Index(a.next) == Index(b.next);
    KeysRefines(a);
    KeysRefines(b);
  }

  lemma {:induction false} TwinsRun<V>(a: Rep<V>, b: Rep<V>, ops: seq<Op<V>>)
    requires Twins(a, b) && Fits(a, |ops|) && SafeRun(a, ops)
    ensures Fits(b, |ops|) && SafeRun(b, ops)
    decreases |ops|
  {
    if ops != [] {
      hide Step, Abs, Valid, Safe;
      StepRefines(a, ops[0]);
      StepFits(a, ops[0], |ops|);
      TwinsStep(a, b, ops[0]);
      TwinsRun(Step(a, ops[0]).0, Step(b, ops[0]).0, ops[1..]);
    }
  }

  /** No run of safe steps can tell a list from the hash map it promotes itself to. */
  lemma FormsAgree<V>(r: Rep<V>, ops: seq<Op<V>>)
    requires Valid(r) && r.List? && Fits(r, |ops|) && SafeRun(r, ops)
    ensures Valid(Promote(r)) && Fits(Promote(r), |ops|) && Run(Promote(r), ops).1 == Run(r, ops).1
    ensures Abs(Run(Promote(r), ops).0) == Abs(Run(r, ops).0)
  {
    hide Run, SafeRun, Abs, Valid, RunMeant;
    PromoteSame(r);
    TwinsRun(r, Promote(r), ops);
    RunRefines(r, ops);
    RunRefines(Promote(r), ops);
  }

  // ---- what keeps a run safe ----

  /** The steps a caller can tell beforehand: no removal at the end of a list, no key next to the ends of the integers. */
  ghost predicate Tame<V>(r: Rep<V>, op: Op<V>)
    requires Valid(r)
  {
    match op
    case DoSet(key, _) => key != IntKey(MAX_INT64)
    case DoAppend(_) => r.next != MAX_INT64
    case DoDelete(key) => !HitsEnd(r, key)
    case DoPop => !PopsSmallest(r)
    case _ => true
  }

  lemma TameSafe<V>(r: Rep<V>, op: Op<V>)
    requires Valid(r) && Room(r) && !Stale(r) && Tame(r, op)
    ensures Safe(r, op) && !Stale(Step(r, op).0)
  {
    match op
    case DoDelete(key) => DeleteStales(r, key);
    case DoPop => PopRefines(r);
    case DoAppend(val) => AppendRefines(r, val);
    case _ =>
  }

  ghost predicate TameRun<V>(r: Rep<V>, ops: seq<Op<V>>)
    requires Valid(r) && Fits(r, |ops|)
    decreases |ops|
  {
    ops == [] ||
      (Tame(r, ops[0]) && (StepRefines(r, ops[0]); StepFits(r, ops[0], |ops|); TameRun(Step(r, ops[0]).0, ops[1..])))
  }

  /** A run of tame steps from a new array is safe, whatever it does to the form of the array. */
  lemma {:induction false} TameRunSafe<V>(r: Rep<V>, ops: seq<Op<V>>)
    requires Valid(r) && Fits(r, |ops|) && !Stale(r) && TameRun(r, ops)
    ensures SafeRun(r, ops)
    decreases |ops|
  {
    if ops != [] {
      hide Step, Valid, Safe, Tame, Stale;
      StepRefines(r, ops[0]);
      StepFits(r, ops[0], |ops|);
      TameSafe(r, ops[0]);
      TameRunSafe(Step(r, ops[0]).0, ops[1..]);
    }
  }

  // ---- appending, in stale lists too ----

  /** No step, a removal at the end of a list included, lets an integer key reach the next index. */
  lemma StepKeepsBelow<V>(r: Rep<V>, op: Op<V>)
    requires Valid(r) && Room(r) && Below(Abs(r))
    requires op.DoSet? ==> op.key != IntKey(MAX_INT64)
    requires op.DoAppend? ==> r.next != MAX_INT64
    ensures Valid(Step(r, op).0) && Below(Abs(Step(r, op).0))
  {
    StepRefines(r, op);
    SameGood(r);
    var s := Step(r, op).0;
    if s.Hash? && Safe(r, op) {
      match op
      case DoSet(key, val) => SetKeeps(Abs(r), key, val);
      case DoAppend(val) => SetKeeps(Abs(r), IntKey(O.NextIndex(Abs(r))), val);
      case DoDelete(key) => DeleteKeeps(Abs(r), key);
      case DoPop => PopKeeps(Abs(r));
      case _ =>
    } else if op.DoPop? && s.Hash? {
      SmallestPopped(r);
    }
  }

  /** Below the smallest index but one there is the smallest key alone. */
  lemma SmallestPopped<V>(r: Rep<V>)
    requires Valid(r) && Below(Abs(r)) && PopsSmallest(r)
    ensures Valid(H.Pop(r).0) && Below(Abs(H.Pop(r).0))
  {
    PopRefines(r);
    SameGood(r);
    KeysEntries(r);
    PopKeeps(Abs(r));
  }

  /** An append adds one entry behind all others under a key none of them has, and popping it restores them. */
  lemma AppendIsNew<V>(r: Rep<V>, val: V)
    requires Valid(r) && Room(r) && Below(Abs(r)) && r.next != MAX_INT64
    ensures Valid(H.Append(r, val))
    ensures
      var es, n := Entries(r), |Entries(r)|;
      var s := H.Append(r, val);
      && |Entries(s)| == n + 1 && Entries(s) == es + [(Entries(s)[n].0, val)]
      && (forall i :: 0 <= i < n ==> es[i].0 != Entries(s)[n].0)
      && H.Pop(s).1 == Some(Entries(s)[n]) && Valid(H.Pop(s).0) && Entries(H.Pop(s).0) == es
  {
    var s := H.Append(r, val);
    AppendEntries(r, val);
    hide H.Append, H.Pop, O.Pop, Find;
    PopRefines(s);
    LastPopped(Entries(r), Entries(s)[|Entries(r)|], Abs(s));
  }

  lemma LastPopped<V>(es: seq<(Key, V)>, e: (Key, V), o: Ordered<V>)
    requires o.entries == es + [e]
    ensures O.Pop(o).1 == Some(e) && O.Pop(o).0.entries == es
  {
    assert o.entries[..|es|] == es;
  }

  lemma AppendEntries<V>(r: Rep<V>, val: V)
    requires Valid(r) && Room(r) && Below(Abs(r)) && r.next != MAX_INT64
    ensures Valid(H.Append(r, val))
    ensures
      var es, n := Entries(r), |Entries(r)|;
      var s := H.Append(r, val);
      && |Entries(s)| == n + 1 && Entries(s) == es + [(Entries(s)[n].0, val)]
      && (forall i :: 0 <= i < n ==> es[i].0 != Entries(s)[n].0)
  {
    if r.List? {
      assert Entries(H.Append(r, val)) == Entries(r) + [(IntKey(|r.list|), val)];
    } else {
      var key := IntKey(O.NextIndex(Abs(r)));
      SetHashEntries(r, key, val);
      assert Find(Entries(r), key) < 0;
    }
  }

  // ---- where the code and the language part ----

  /** The largest key is neither written nor the next one an append would take. */
  predicate Bounded<V>(r: Rep<V>, op: Op<V>) {
    (op.DoSet? ==> op.key != IntKey(MAX_INT64)) && (op.DoAppend? ==> r.next != MAX_INT64)
  }

  ghost predicate BoundedRun<V>(r: Rep<V>, ops: seq<Op<V>>)
    requires Valid(r) && Fits(r, |ops|)
    decreases |ops|
  {
    ops == [] ||
      (Bounded(r, ops[0]) && (StepRefines(r, ops[0]); StepFits(r, ops[0], |ops|); BoundedRun(Step(r, ops[0]).0, ops[1..])))
  }

  lemma {:induction false} RunKeepsBelow<V>(r: Rep<V>, ops: seq<Op<V>>)
    requires Valid(r) && Fits(r, |ops|) && Below(Abs(r)) && BoundedRun(r, ops)
    ensures Below(Abs(Run(r, ops).0))
    decreases |ops|
  {
    if ops != [] {
      hide Step, Abs, Valid, Below, Safe;
      StepRefines(r, ops[0]);
      StepFits(r, ops[0], |ops|);
      StepKeepsBelow(r, ops[0]);
      RunKeepsBelow(Step(r, ops[0]).0, ops[1..]);
    }
  }

  /**
   In every state any mix of operations leads to from a new array, removals at the end of a list
   included, an append overwrites nothing and a pop undoes it.
   */
  lemma AppendIsAlwaysNew<V>(ops: seq<Op<V>>, val: V)
    requires |ops| < MAX_INT64 && BoundedRun(List([], NO_INT_KEY), ops)
    ensures
      var r := Run(List([], NO_INT_KEY), ops).0;
      Room(r) && r.next != MAX_INT64 ==>
        var es, n, s := Entries(r), |Entries(r)|, H.Append(r, val);
        && Valid(s) && |Entries(s)| == n + 1 && Entries(s) == es + [(Entries(s)[n].0, val)]
        && (forall i :: 0 <= i < n ==> es[i].0 != Entries(s)[n].0)
        && H.Pop(s).1 == Some(Entries(s)[n]) && Valid(H.Pop(s).0) && Entries(H.Pop(s).0) == es
  {
    RunKeepsBelow(List([], NO_INT_KEY), ops);
    var r := Run(List([], NO_INT_KEY), ops).0;
    hide Below, Abs, BoundedRun;
    if Room(r) && r.next != MAX_INT64 { AppendIsNew(r, val); }
  }

  /** Removing the last element of a list and appending hands its key out again; the language goes on behind it. */
  lemma EndIsReused<V>(list: seq<V>, val: V)
    requires 0 < |list| < MAX_INT64
    ensures
      var r := List(list, |list|);
      var s := H.Delete(r, IntKey(|list| - 1));
      && Valid(r) && Valid(s) && !Stale(r) && Stale(s)
      && H.Keys(H.Append(s, val))[|list| - 1] == IntKey(|list| - 1)
      && O.Keys(O.Append(O.Delete(Abs(r), IntKey(|list| - 1)), val))[|list| - 1] == IntKey(|list|)
  {
    var r := List(list, |list|);
    DeleteRefines(r, IntKey(|list| - 1));
    StaleAppend(H.Delete(r, IntKey(|list| - 1)), val);
  }

  /** Neither writes an integer key nor empties the array. */
  predicate Wordy<V>(op: Op<V>) {
    match op
    case DoSet(key, _) => key.StrKey?
    case DoAppend(_) | DoReset | DoClear => false
    case _ => true
  }

  // Two arrays of the same string keys, one with the next index of a clear and one with that of a reset.
  ghost predicate ClearedAndReset<V>(a: Rep<V>, b: Rep<V>) {
    && Valid(a) && Valid(b) && Entries(a) == Entries(b) && a.next == 0 && b.next == NO_INT_KEY
    && forall i :: 0 <= i < |Entries(a)| ==> Entries(a)[i].0.StrKey?
  }

  lemma WordySafe<V>(r: Rep<V>, op: Op<V>)
    requires Valid(r) && Wordy(op) && forall i :: 0 <= i < |Entries(r)| ==> Entries(r)[i].0.StrKey?
    ensures Safe(r, op)
  {
    hide Entries, H.Keys;
    KeysEntries(r);
  }

  lemma WordyMeans<V>(o: Ordered<V>, p: Ordered<V>, op: Op<V>)
    requires Wordy(op) && o.entries == p.entries && forall i :: 0 <= i < |o.entries| ==> o.entries[i].0.StrKey?
    ensures Meant(o, op).1 == Meant(p, op).1 && Meant(o, op).0.entries == Meant(p, op).0.entries
    ensures Meant(o, op).0.next == o.next && Meant(p, op).0.next == p.next
    ensures forall i :: 0 <= i < |Meant(o, op).0.entries| ==> Meant(o, op).0.entries[i].0.StrKey?
  {
  }

  lemma WordyStep<V>(a: Rep<V>, b: Rep<V>, op: Op<V>)
    requires ClearedAndReset(a, b) && Room(a) && Room(b) && Wordy(op)
    ensures Step(a, op).1 == Step(b, op).1 && ClearedAndReset(Step(a, op).0, Step(b, op).0)
  {
    hide Step, Meant, Safe, Entries, Room;
    WordySafe(a, op);
    WordySafe(b, op);
    StepRefines(a, op);
    StepRefines(b, op);
    WordyMeans(Abs(a), Abs(b), op);
  }

  lemma {:induction false} WordyRun<V>(a: Rep<V>, b: Rep<V>, ops: seq<Op<V>>)
    requires ClearedAndReset(a, b) && Fits(a, |ops|) && Fits(b, |ops|) && forall i :: 0 <= i < |ops| ==> Wordy(ops[i])
    ensures Run(a, ops).1 == Run(b, ops).1 && ClearedAndReset(Run(a, ops).0, Run(b, ops).0)
    decreases |ops|
  {
    if ops != [] {
      hide Step, Entries, Wordy;
      WordyStep(a, b, ops[0]);
      StepFits(a, ops[0], |ops|);
      StepFits(b, ops[0], |ops|);
      WordyRun(Step(a, ops[0]).0, Step(b, ops[0]).0, ops[1..]);
    }
  }

  /**
   A cleared array and a reset one show the same through any run that writes string keys alone, and
   as their first integer key an append gives both key 0. Where the first integer key is written they
   go on with different next indexes exactly if it is below -1.
   */
  lemma ClearIsNotReset<V>(r: Rep<V>, ops: seq<Op<V>>, key: Key, val: V)
    requires |ops| < MAX_INT64 && (forall i :: 0 <= i < |ops| ==> Wordy(ops[i])) && key.IntKey?
    ensures
      var a, b := Run(H.Clear<V>(), ops), Run(H.Reset(r), ops);
      && a.1 == b.1 && Entries(a.0) == Entries(b.0) && Room(a.0) && Room(b.0)
      && Valid(H.Append(a.0, val)) && Valid(H.Append(b.0, val)) && Abs(H.Append(a.0, val)) == Abs(H.Append(b.0, val))
      && (Index(H.Set(a.0, key, val).next) == Index(H.Set(b.0, key, val).next) <==> key.i >= -1)
  {
    hide Run;
    WordyRun(H.Clear<V>(), H.Reset(r), ops);
    var a, b := Run(H.Clear<V>(), ops).0, Run(H.Reset(r), ops).0;
    FirstAppend(a, b, val);
    FirstKey(a, b, key, val);
  }

  lemma FirstAppend<V>(a: Rep<V>, b: Rep<V>, val: V)
    requires ClearedAndReset(a, b)
    ensures Room(a) && Room(b)
    ensures Valid(H.Append(a, val)) && Valid(H.Append(b, val)) && Abs(H.Append(a, val)) == Abs(H.Append(b, val))
  {
    hide H.Append;
    AppendRefines(a, val);
    AppendRefines(b, val);
  }

  lemma FirstKey<V>(a: Rep<V>, b: Rep<V>, key: Key, val: V)
    requires ClearedAndReset(a, b) && key.IntKey?
    ensures Index(H.Set(a, key, val).next) == Index(H.Set(b, key, val).next) <==> key.i >= -1
  {
  }

  /** The largest key makes the array forget its next index, so that an append overwrites what key 0 holds. */
  lemma LargestForgets<V>(r: Rep<V>, val: V, last: V)
    requires Valid(r) && Room(r) && H.Get(r, IntKey(0)).Some?
    ensures
      var s := H.Set(r, IntKey(MAX_INT64), last);
      && Valid(s) && Room(s) && Index(s.next) == None
      && H.Get(H.Append(s, val), IntKey(0)) == Some(val) && H.Keys(H.Append(s, val)) == H.Keys(s)
  {
    SetRefines(r, IntKey(MAX_INT64), last);
    if r.List? { PromoteSame(r); }
  }
}
