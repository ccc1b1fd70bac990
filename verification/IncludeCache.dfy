/** The cache of parsed programs, its bound and the count of its writes. */
module IncludeCache {

  const DEFAULT_MAX := 10000
  const VERSIONS := 0x1_0000_0000_0000_0000

  /** The 64-bit count of so many writes. */
  function VersionOf(writes: nat): nat {
    writes % VERSIONS
  }

  // The functions a program declares at its top level, a method with the name of its class.
  datatype Func = Func(class_: string, name: string)

  type Program = seq<Func>

  type Programs = map<string, Program>

  // One write: a program for a path, with the path thrown out for it, or an emptied cache.
  datatype Write = Put(path: string, program: Program, evicted: set<string>) | Empty

  function Written(ps: Programs, w: Write): Programs {
    match w
    case Put(path, program, evicted) => (ps - evicted)[path := program]
    case Empty => map[]
  }

  function AllWritten(ps: Programs, ws: seq<Write>): Programs {
    if ws == [] then ps else Written(AllWritten(ps, ws[..|ws| - 1]), ws[|ws| - 1])
  }

  /** The write keeps the bound, and throws out one path at most and only for a new one in a full cache. */
  ghost predicate Bounded(ps: Programs, w: Write, limit: nat) {
    w.Put? ==>
      && w.evicted <= ps.Keys
      && (if w.path !in ps && |ps| >= limit then |w.evicted| == 1 else w.evicted == {})
  }

  /** The program is there behind the write, and all others as before it but for one where there was no room. */
  ghost predicate Takes(before: Programs, after: Programs, path: string, program: Program, limit: nat) {
    && path in after && after[path] == program
    && (forall p :: p in after && p != path ==> p in before && after[p] == before[p])
    && (path in before || |before| < limit ==> before.Keys <= after.Keys)
    && (path !in before && |before| >= limit ==> exists gone :: before.Keys - after.Keys == {gone})
  }

  class Cache {
    const maxEntries: nat
    var programs: Programs
    var version: nat
    ghost var writes: seq<Write>

    constructor (maxEntries: int)
      ensures Valid() && programs == map[] && version == 0 && writes == []
      ensures this.maxEntries == if maxEntries <= 0 then DEFAULT_MAX else maxEntries
    {
      this.maxEntries := if maxEntries <= 0 then DEFAULT_MAX else maxEntries;
      programs, version, writes := map[], 0, [];
    }

    /** The programs are what the writes made of an empty cache, no more than the bound, and the version counts them. */
    ghost predicate Valid()
      reads this
    {
      0 < maxEntries && |programs| <= maxEntries && version == VersionOf(|writes|) && programs == AllWritten(map[], writes)
    }

    method Set(path: string, program: Program)
      requires Valid()
      modifies this
      ensures Valid()
      ensures |writes| == |old(writes)| + 1 && writes[..|old(writes)|] == old(writes)
      ensures writes[|old(writes)|].Put? && Bounded(old(programs), writes[|old(writes)|], maxEntries)
      ensures writes[|old(writes)|].path == path && writes[|old(writes)|].program == program
      ensures Takes(old(programs), programs, path, program, maxEntries)
    {
      hide VersionOf, AllWritten, Written, Bounded, Takes;
      ghost var w := Put(path, program, {});
      if path !in programs && |programs| >= maxEntries {
        HasKey(programs);
        var k :| k in programs;
        PutOver(programs, path, program, k, maxEntries);
        w := Put(path, program, {k});
        programs := programs - {k};
      } else {
        PutIn(programs, path, program, maxEntries);
      }
      programs := programs[path := program];
      NextVersion(|writes|);
      version := if version + 1 == VERSIONS then 0 else version + 1;
      NextWrite(map[], writes, w);
      writes := writes + [w];
      assert writes[..|old(writes)|] == old(writes);
    }

    method Clear()
      requires Valid()
      modifies this
      ensures Valid() && programs == map[] && writes == old(writes) + [Empty]
    {
      hide VersionOf, AllWritten;
      programs := map[];
      NextVersion(|writes|);
      version := if version + 1 == VERSIONS then 0 else version + 1;
      NextWrite(map[], writes, Empty);
      writes := writes + [Empty];
    }

    method Get(path: string) returns (found: bool, program: Program)
      requires Valid()
      ensures found == (path in programs) && (found ==> program == programs[path])
    {
      found := path in programs;
      program := if found then programs[path] else [];
    }

    method Snapshot() returns (ps: Programs, at: nat)
      requires Valid()
      ensures ps == AllWritten(map[], writes) && at == VersionOf(|writes|)
    {
      ps, at := programs, version;
    }

    method ChangedSince(at: nat) returns (changed: bool)
      requires Valid()
      ensures changed == (VersionOf(|writes|) != at)
    {
      changed := version != at;
    }
  }

  /** Throwing out one path for a new one in a full cache keeps the bound and every other program. */
  lemma PutOver(ps: Programs, path: string, program: Program, gone: string, limit: nat)
    requires |ps| == limit && path !in ps && gone in ps
    ensures
      var qs := (ps - {gone})[path := program];
      var w := Put(path, program, {gone});
      Bounded(ps, w, limit) && |qs| <= limit && Takes(ps, qs, path, program, limit) && Written(ps, w) == qs
  {
    OneKeyMore(ps - {gone}, path, program);
    Smaller(ps, gone);
    assert ps.Keys - (ps - {gone})[path := program].Keys == {gone};
  }

  lemma PutIn(ps: Programs, path: string, program: Program, limit: nat)
    requires |ps| <= limit && (path in ps || |ps| < limit)
    ensures
      var qs := ps[path := program];
      var w := Put(path, program, {});
      Bounded(ps, w, limit) && |qs| <= limit && Takes(ps, qs, path, program, limit) && Written(ps, w) == qs
  {
    OneKeyMore(ps, path, program);
    assert ps - {} == ps;
  }

  lemma NextVersion(n: nat)
    ensures VersionOf(n + 1) == if VersionOf(n) + 1 == VERSIONS then 0 else VersionOf(n) + 1
  {
    var q, r := n / VERSIONS, n % VERSIONS;
    if r + 1 == VERSIONS { assert n + 1 == (q + 1) * VERSIONS; } else { assert n + 1 == q * VERSIONS + (r + 1); }
  }

  lemma HasKey(ps: Programs)
    requires |ps| > 0
    ensures exists k :: k in ps
  {
    assert |ps.Keys| > 0;
    var k :| k in ps.Keys;
  }

  lemma Smaller(ps: Programs, k: string)
    requires k in ps
    ensures |ps - {k}| == |ps| - 1
  {
    assert (ps - {k}).Keys == ps.Keys - {k};
  }

  lemma OneKeyMore(ps: Programs, path: string, program: Program)
    ensures |ps[path := program]| == if path in ps then |ps| else |ps| + 1
  {
    assert ps[path := program].Keys == ps.Keys + {path};
  }

  lemma NextWrite(ps: Programs, ws: seq<Write>, w: Write)
    ensures AllWritten(ps, ws + [w]) == Written(AllWritten(ps, ws), w)
  {
    assert (ws + [w])[..|ws|] == ws;
  }

  /** A reader whose version still stands has seen every write, unless a whole round of the counter went by. */
  lemma SameVersion(then_: nat, now: nat)
    requires then_ <= now < then_ + VERSIONS
    ensures VersionOf(then_) == VersionOf(now) <==> then_ == now
  {
    var a, b := then_ / VERSIONS, now / VERSIONS;
    if VersionOf(then_) == VersionOf(now) {
      assert now - then_ == (b - a) * VERSIONS;
      Round(b - a);
    }
  }

  lemma Round(k: int)
    ensures k >= 1 ==> k * VERSIONS >= VERSIONS
  {
  }

  /** After a whole round of writes the version is the one it was. */
  lemma VersionComesBack(n: nat)
    ensures VersionOf(n + VERSIONS) == VersionOf(n)
  {
    assert n + VERSIONS == (n / VERSIONS + 1) * VERSIONS + n % VERSIONS;
  }
}
