/** The hash table of `core/util-hash.h`: elements sit in slots, buckets point to slots, a chain
    visits all buckets in probing order. */
module HashTables {
  import opened Bits
  import opened Outcomes

  /** The three tables of `struct lai_hashtable`; a negative bucket is free. */
  datatype Table<T> = Table(elems: seq<Option<T>>, hashes: seq<nat>, buckets: seq<int>)

  ghost predicate PowerOfTwo(m: nat) {
    exists k: nat :: m == Pow2(k)
  }

  /** The bucket that the `i`-th probe for `h` looks at. */
  function Place(h: nat, i: nat, m: nat): nat
    requires m > 0
  {
    And(h + i, m - 1)
  }

  function Live<T>(elems: seq<Option<T>>): set<nat> {
    set k | 0 <= k < |elems| && elems[k].Some?
  }

  /** What the table holds: the hash and the element of every used slot. */
  function Entries<T>(t: Table<T>): map<nat, (nat, T)>
    requires |t.hashes| == |t.elems|
  {
    map k | k in Live(t.elems) :: (t.hashes[k], t.elems[k].value)
  }

  /** Used buckets point to used slots, no two to the same, all of them below `n`. */
  ghost predicate BucketsUsed<T>(buckets: seq<int>, elems: seq<Option<T>>, n: int) {
    && (forall b :: 0 <= b < |buckets| && buckets[b] >= 0 ==>
          buckets[b] < n && buckets[b] < |elems| && elems[buckets[b]].Some?)
    && (forall b, c :: 0 <= b < c < |buckets| && buckets[b] >= 0 ==> buckets[b] != buckets[c])
  }

  /** Every used slot below `n` has a bucket. */
  ghost predicate SlotsFound<T>(buckets: seq<int>, elems: seq<Option<T>>, n: int) {
    forall k :: 0 <= k < n && k < |elems| && elems[k].Some? ==> k in buckets
  }

  ghost predicate Sound<T>(t: Table<T>) {
    && |t.hashes| == |t.elems|
    && |t.buckets| >= |t.elems|
    && (|t.buckets| > 0 ==> PowerOfTwo(|t.buckets|) && |Live(t.elems)| < |t.elems|)
    && BucketsUsed(t.buckets, t.elems, |t.elems|)
    && SlotsFound(t.buckets, t.elems, |t.elems|)
  }

  // ------------------------------------------------------------------------------------
  // Probing.
  // ------------------------------------------------------------------------------------

  lemma PlaceIsModulo(h: nat, i: nat, m: nat)
    requires m > 0 && PowerOfTwo(m)
    ensures Place(h, i, m) == (h + i) % m
  {
    var k: nat :| m == Pow2(k);
    OnesIsPowerLessOne(k);
    var x := h + i;
    var masked, cut := And(x, Ones(k)), Trunc(k, x);
    forall j: nat ensures Bit(masked, j) == Bit(cut, j) {
      AndBit(x, Ones(k), j);
      OnesBit(k, j);
      TruncBit(k, x, j);
    }
    Extensionality(masked, cut);
    TruncIsModulo(k, x);
  }

  /** The probe that reaches bucket `b`. */
  function Cursor(h: nat, b: nat, m: nat): (i: nat)
    requires b < m
    ensures i < m
  {
    (b - h) % m
  }

  lemma ModuloInverse(x: int, y: int, m: nat)
    requires m > 0
    ensures (x + (y - x) % m) % m == y % m
  {
    var q := (y - x) / m;
    assert x + (y - x) % m == y - q * m;
    ModuloShift(y, q, m);
  }

  lemma {:induction false} ModuloShift(y: int, q: int, m: nat)
    requires m > 0
    ensures (y - q * m) % m == y % m
  {
    var d := y / m;
    assert y - q * m == (d - q) * m + y % m;
    var e := (y - q * m) / m;
    assert (e - (d - q)) * m == y % m - (y - q * m) % m;
    if e - (d - q) != 0 { NonzeroMultiple(e - (d - q), m); }
  }

  /** The first `m` probes visit every bucket exactly once. */
  lemma ProbesCover(h: nat, b: nat, m: nat)
    requires b < m && PowerOfTwo(m)
    ensures Place(h, Cursor(h, b, m), m) == b
  {
    PlaceIsModulo(h, Cursor(h, b, m), m);
    ModuloInverse(h, b, m);
    ModuloUnique(b, m, 0, b);
  }

  lemma NearbyResidues(x: nat, y: nat, m: nat)
    requires x < y < x + m
    ensures x % m != y % m
  {
    var p, q := x / m, y / m;
    if x % m == y % m {
      assert (q - p) * m == y - x by { assert x == p * m + x % m && y == q * m + y % m; }
      if q != p { NonzeroMultiple(q - p, m); }
    }
  }

  lemma ProbesDiffer(h: nat, i: nat, j: nat, m: nat)
    requires i < j < m && PowerOfTwo(m)
    ensures Place(h, i, m) != Place(h, j, m)
  {
    hide Place, PowerOfTwo;
    PlaceIsModulo(h, i, m);
    PlaceIsModulo(h, j, m);
    NearbyResidues(h + i, h + j, m);
  }

  lemma PlaceInRange(h: nat, i: nat, m: nat)
    requires m > 0 && PowerOfTwo(m)
    ensures Place(h, i, m) < m
  {
    PlaceIsModulo(h, i, m);
  }

  /** Distinct elements of a set are not more than the set has. */
  lemma {:induction false} Pigeonhole(s: seq<int>, bound: set<int>)
    requires forall i :: 0 <= i < |s| ==> s[i] in bound
    requires forall i, j :: 0 <= i < j < |s| ==> s[i] != s[j]
    ensures |s| <= |bound|
    decreases |s|
  {
    if s != [] {
      var last := s[|s| - 1];
      Pigeonhole(s[..|s| - 1], bound - {last});
    }
  }

  lemma {:induction false} SizeOfLive<T>(elems: seq<Option<T>>)
    ensures |Live(elems)| <= |elems|
    ensures |Live(elems)| < |elems| ==> exists k :: 0 <= k < |elems| && elems[k].None?
    decreases |elems|
  {
    if elems != [] {
      var n := |elems| - 1;
      SizeOfLive(elems[..n]);
      if elems[n].Some? { assert Live(elems) == Live(elems[..n]) + {n}; }
      else { assert Live(elems) == Live(elems[..n]); }
    }
  }

  /** With fewer used slots than buckets some bucket is free. */
  lemma FreeBucketExists<T>(buckets: seq<int>, elems: seq<Option<T>>, n: nat) returns (b: nat)
    requires BucketsUsed(buckets, elems, n) && |Live(elems)| < |buckets|
    ensures b < |buckets| && buckets[b] < 0
  {
    if forall c :: 0 <= c < |buckets| ==> buckets[c] >= 0 {
      Pigeonhole(buckets, Live(elems));
    }
    b :| 0 <= b < |buckets| && buckets[b] < 0;
  }

  // ------------------------------------------------------------------------------------
  // Chains.
  // ------------------------------------------------------------------------------------

  /** The slot a chain for `h` finds at cursor `i`. */
  ghost function Visit<T>(t: Table<T>, h: nat, i: nat): Option<nat>
    requires Sound(t) && i < |t.buckets|
  {
    PlaceInRange(h, i, |t.buckets|);
    var k := t.buckets[Place(h, i, |t.buckets|)];
    if k >= 0 && t.hashes[k] == h then Some(k) else None
  }

  /** All slots a chain for `h` finds from cursor `i` on. */
  ghost function Chain<T>(t: Table<T>, h: nat, i: nat): seq<nat>
    requires Sound(t)
    decreases |t.buckets| - i
  {
    if i >= |t.buckets| then []
    else (match Visit(t, h, i) case Some(k) => [k] case None => []) + Chain(t, h, i + 1)
  }

  lemma {:induction false} ChainMember<T>(t: Table<T>, h: nat, i: nat, k: nat)
    requires Sound(t)
    ensures k in Chain(t, h, i) <==> exists j: nat :: i <= j < |t.buckets| && Visit(t, h, j) == Some(k)
    decreases |t.buckets| - i
  {
    hide Visit, Sound;
    if i < |t.buckets| {
      ChainMember(t, h, i + 1, k);
      if j: nat :| i <= j < |t.buckets| && Visit(t, h, j) == Some(k) { assert i == j || i + 1 <= j; }
    }
  }

  predicate Distinct(s: seq<nat>) {
    forall i, j :: 0 <= i < j < |s| ==> s[i] != s[j]
  }

  lemma VisitsDiffer<T>(t: Table<T>, h: nat, i: nat, j: nat)
    requires Sound(t) && i < j < |t.buckets| && Visit(t, h, i).Some?
    ensures Visit(t, h, i) != Visit(t, h, j)
  {
    var m := |t.buckets|;
    ProbesDiffer(h, i, j, m);
    PlaceInRange(h, i, m);
    PlaceInRange(h, j, m);
    var b, c := Place(h, i, m), Place(h, j, m);
    if b < c { assert t.buckets[b] != t.buckets[c]; }
    else { assert t.buckets[c] >= 0 ==> t.buckets[c] != t.buckets[b]; }
  }

  lemma {:induction false} ChainIsDistinct<T>(t: Table<T>, h: nat, i: nat)
    requires Sound(t)
    ensures Distinct(Chain(t, h, i))
    decreases |t.buckets| - i
  {
    hide Visit, Sound;
    if i < |t.buckets| {
      ChainIsDistinct(t, h, i + 1);
      var rest := Chain(t, h, i + 1);
      var found := Visit(t, h, i);
      if found.Some? {
        ChainMember(t, h, i + 1, found.value);
        forall j: nat | i + 1 <= j < |t.buckets| ensures Visit(t, h, j) != found { VisitsDiffer(t, h, i, j); }
        assert found.value !in rest;
        assert Chain(t, h, i) == [found.value] + rest;
      } else {
        assert Chain(t, h, i) == rest;
      }
    }
  }

  /** Enumerating the chain of `h` yields exactly the entries with hash `h`, each once. */
  lemma ChainIsExact<T>(t: Table<T>, h: nat)
    requires Sound(t)
    ensures Distinct(Chain(t, h, 0))
    ensures forall k: nat :: k in Chain(t, h, 0) <==> k in Entries(t) && Entries(t)[k].0 == h
  {
    ChainIsDistinct(t, h, 0);
    forall k: nat ensures k in Chain(t, h, 0) <==> k in Entries(t) && Entries(t)[k].0 == h {
      ChainMember(t, h, 0, k);
      if k in Entries(t) && Entries(t)[k].0 == h {
        var b :| 0 <= b < |t.buckets| && t.buckets[b] == k;
        ProbesCover(h, b, |t.buckets|);
        assert Visit(t, h, Cursor(h, b, |t.buckets|)) == Some(k);
      }
      if j: nat :| 0 <= j < |t.buckets| && Visit(t, h, j) == Some(k) {
        PlaceInRange(h, j, |t.buckets|);
      }
    }
  }

  // ------------------------------------------------------------------------------------
  // The table in memory.
  // ------------------------------------------------------------------------------------

  /** Pointing the free bucket `b` to a slot that no bucket points to yet. */
  lemma UseBucket<T>(buckets: seq<int>, elems: seq<Option<T>>, n: nat, k: nat, b: nat)
    requires BucketsUsed(buckets, elems, n)
    requires b < |buckets| && buckets[b] < 0 && k < n && k < |elems| && elems[k].Some? && k !in buckets
    requires forall j :: 0 <= j < n && j < |elems| && j != k && elems[j].Some? ==> j in buckets
    ensures BucketsUsed(buckets[b := k], elems, n) && SlotsFound(buckets[b := k], elems, n)
  {
    var after := buckets[b := k];
    forall c, d | 0 <= c < d < |after| && after[c] >= 0 ensures after[c] != after[d] {
      if c == b { assert after[d] == buckets[d]; } else { assert after[c] == buckets[c]; }
    }
    forall j | j in buckets && j >= 0 ensures j in after {
      var c :| 0 <= c < |buckets| && buckets[c] == j;
      assert after[c] == j;
    }
    assert after[b] == k;
  }

  lemma LiveAfterUse<T>(elems: seq<Option<T>>, k: nat, e: T)
    requires k < |elems| && elems[k].None?
    ensures Live(elems[k := Some(e)]) == Live(elems) + {k}
    ensures |Live(elems[k := Some(e)])| == |Live(elems)| + 1
  {
    assert Live(elems[k := Some(e)]) == Live(elems) + {k};
  }

  /** One round of the loop of `lai_hashtable_grow`: slot `k` is copied and gets a bucket. */
  lemma CopySlot<T>(buckets: seq<int>, elems: seq<Option<T>>, k: nat, e: T) returns (free: nat)
    requires BucketsUsed(buckets, elems, k) && SlotsFound(buckets, elems, k) && k < |elems| && elems[k].None?
    requires |Live(elems)| < |buckets|
    ensures k !in buckets && free < |buckets| && buckets[free] < 0
    ensures forall b :: 0 <= b < |buckets| && buckets[b] < 0 ==>
              BucketsUsed(buckets[b := k], elems[k := Some(e)], k + 1)
              && SlotsFound(buckets[b := k], elems[k := Some(e)], k + 1)
  {
    var after := elems[k := Some(e)];
    free := FreeBucketExists(buckets, elems, k);
    forall b | 0 <= b < |buckets| && buckets[b] < 0
      ensures BucketsUsed(buckets[b := k], after, k + 1) && SlotsFound(buckets[b := k], after, k + 1)
    {
      UseBucket(buckets, after, k + 1, k, b);
    }
  }

  lemma EmptyIsUsed<T>(buckets: seq<int>, elems: seq<Option<T>>)
    requires forall b :: 0 <= b < |buckets| ==> buckets[b] < 0
    ensures BucketsUsed(buckets, elems, 0) && SlotsFound(buckets, elems, 0)
  {
  }

  lemma SkipSlot<T>(buckets: seq<int>, elems: seq<Option<T>>, k: nat)
    requires BucketsUsed(buckets, elems, k) && SlotsFound(buckets, elems, k)
    requires k < |elems| ==> elems[k].None?
    ensures BucketsUsed(buckets, elems, k + 1) && SlotsFound(buckets, elems, k + 1)
  {
  }

  /** Tables that were rebuilt slot by slot hold the same entries. */
  lemma GrowKeeps<T>(t: Table<T>, elems: seq<Option<T>>, hashes: seq<nat>, buckets: seq<int>)
    requires Sound(t) && |t.elems| <= |elems| == |hashes| <= |buckets| && PowerOfTwo(|buckets|)
    requires |Live(t.elems)| < |elems|
    requires forall j :: 0 <= j < |elems| ==> elems[j] == if j < |t.elems| then t.elems[j] else None
    requires forall j :: 0 <= j < |t.elems| && t.elems[j].Some? ==> hashes[j] == t.hashes[j]
    requires BucketsUsed(buckets, elems, |t.elems|) && SlotsFound(buckets, elems, |t.elems|)
    ensures Sound(Table(elems, hashes, buckets)) && Entries(Table(elems, hashes, buckets)) == Entries(t)
    ensures Live(elems) == Live(t.elems)
  {
    assert Live(elems) == Live(t.elems);
  }

  /** The table after an insertion into slot `k` and bucket `b`. */
  ghost function With<T>(t: Table<T>, h: nat, e: T, k: nat, b: nat): Table<T>
    requires Sound(t) && k < |t.elems| && b < |t.buckets|
  {
    Table(t.elems[k := Some(e)], t.hashes[k := h], t.buckets[b := k])
  }

  lemma InsertKeeps<T>(t: Table<T>, h: nat, e: T, k: nat, b: nat)
    requires Sound(t) && k < |t.elems| && t.elems[k].None? && |Live(t.elems)| + 1 < |t.elems|
    requires b < |t.buckets| && t.buckets[b] < 0
    ensures Sound(With(t, h, e, k, b))
    ensures k !in Entries(t) && Entries(With(t, h, e, k, b)) == Entries(t)[k := (h, e)]
    ensures |Live(With(t, h, e, k, b).elems)| == |Live(t.elems)| + 1
  {
    hide BucketsUsed, SlotsFound, Live, Entries, PowerOfTwo;
    LiveAfterUse(t.elems, k, e);
    BucketsAfterUse(t, h, e, k, b);
    EntriesAfterUse(t, h, e, k, b);
  }

  lemma BucketsAfterUse<T>(t: Table<T>, h: nat, e: T, k: nat, b: nat)
    requires Sound(t) && k < |t.elems| && t.elems[k].None? && b < |t.buckets| && t.buckets[b] < 0
    ensures BucketsUsed(t.buckets[b := k], t.elems[k := Some(e)], |t.elems|)
    ensures SlotsFound(t.buckets[b := k], t.elems[k := Some(e)], |t.elems|)
  {
    UseBucket(t.buckets, t.elems[k := Some(e)], |t.elems|, k, b);
  }

  lemma EntriesAfterUse<T>(t: Table<T>, h: nat, e: T, k: nat, b: nat)
    requires Sound(t) && k < |t.elems| && t.elems[k].None? && b < |t.buckets|
    ensures k !in Entries(t) && Entries(With(t, h, e, k, b)) == Entries(t)[k := (h, e)]
  {
    hide BucketsUsed, SlotsFound;
    assert Live(t.elems[k := Some(e)]) == Live(t.elems) + {k};
  }

  lemma SlotsAvailable<T>(t: Table<T>)
    requires Sound(t) && |t.elems| > 0
    ensures exists k :: 0 <= k < |t.elems| && t.elems[k].None?
    ensures exists b :: 0 <= b < |t.buckets| && t.buckets[b] < 0
  {
    SizeOfLive(t.elems);
    var b := FreeBucketExists(t.buckets, t.elems, |t.elems|);
  }

  /** The table without the slot that bucket `b` points to. */
  ghost function Without<T>(t: Table<T>, b: nat): Table<T>
    requires Sound(t) && b < |t.buckets| && t.buckets[b] >= 0
  {
    Table(t.elems[t.buckets[b] := None], t.hashes, t.buckets[b := -1])
  }

  lemma RemoveKeeps<T>(t: Table<T>, b: nat)
    requires Sound(t) && b < |t.buckets| && t.buckets[b] >= 0
    ensures t.buckets[b] < |t.elems| && Sound(Without(t, b))
    ensures Entries(Without(t, b)) == Entries(t) - {t.buckets[b]}
    ensures |Live(Without(t, b).elems)| == |Live(t.elems)| - 1
  {
    assert Live(Without(t, b).elems) == Live(t.elems) - {t.buckets[b]};
    BucketsAfterRemoval(t, b);
    hide BucketsUsed, SlotsFound, PowerOfTwo;
  }

  lemma BucketsAfterRemoval<T>(t: Table<T>, b: nat)
    requires Sound(t) && b < |t.buckets| && t.buckets[b] >= 0
    ensures BucketsUsed(Without(t, b).buckets, Without(t, b).elems, |t.elems|)
    ensures SlotsFound(Without(t, b).buckets, Without(t, b).elems, |t.elems|)
  {
    var after := Without(t, b);
    forall c | 0 <= c < |after.buckets| && after.buckets[c] >= 0 ensures after.elems[after.buckets[c]].Some? {
      if c < b { assert t.buckets[c] != t.buckets[b]; } else { assert t.buckets[b] != t.buckets[c]; }
    }
    forall j | 0 <= j < |after.elems| && after.elems[j].Some? ensures j in after.buckets {
      var c :| 0 <= c < |t.buckets| && t.buckets[c] == j;
      assert after.buckets[c] == j;
    }
  }

  /** Removing under the cursor leaves the rest of the chain as it was. */
  lemma {:induction false} RemoveKeepsRest<T>(t: Table<T>, h: nat, cursor: nat, i: nat)
    requires Sound(t) && cursor < i && cursor < |t.buckets| && Visit(t, h, cursor).Some?
    ensures var b := Place(h, cursor, |t.buckets|);
            b < |t.buckets| && t.buckets[b] >= 0 && Sound(Without(t, b)) && Chain(Without(t, b), h, i) == Chain(t, h, i)
    decreases |t.buckets| - i
  {
    hide Place, Sound, Visit;
    RemoveUnderCursor(t, h, cursor);
    if i < |t.buckets| {
      VisitAfterRemoval(t, h, cursor, i);
      RemoveKeepsRest(t, h, cursor, i + 1);
    }
  }

  lemma RemoveUnderCursor<T>(t: Table<T>, h: nat, cursor: nat)
    requires Sound(t) && cursor < |t.buckets| && Visit(t, h, cursor).Some?
    ensures var b := Place(h, cursor, |t.buckets|); b < |t.buckets| && t.buckets[b] >= 0 && Sound(Without(t, b))
  {
    hide Place, BucketsUsed, SlotsFound, Live, PowerOfTwo;
    PlaceInRange(h, cursor, |t.buckets|);
    RemoveKeeps(t, Place(h, cursor, |t.buckets|));
  }

  lemma VisitAfterRemoval<T>(t: Table<T>, h: nat, cursor: nat, i: nat)
    requires Sound(t) && cursor < i < |t.buckets| && Visit(t, h, cursor).Some?
    ensures var b := Place(h, cursor, |t.buckets|);
            b < |t.buckets| && t.buckets[b] >= 0 && Sound(Without(t, b)) && Visit(Without(t, b), h, i) == Visit(t, h, i)
  {
    hide Place, BucketsUsed, SlotsFound, Live;
    RemoveUnderCursor(t, h, cursor);
    PlaceInRange(h, i, |t.buckets|);
    ProbesDiffer(h, cursor, i, |t.buckets|);
  }

  lemma SubsetSize(a: set<nat>, b: set<nat>)
    requires a <= b
    ensures |a| <= |b|
  {
    assert b == a + (b - a);
  }

  lemma PartialLive<T>(all: seq<Option<T>>, part: seq<Option<T>>, k: nat)
    requires k <= |all| <= |part|
    requires forall j :: 0 <= j < |part| ==> part[j] == if j < k then all[j] else None
    ensures |Live(part)| <= |Live(all)|
  {
    SubsetSize(Live(part), Live(all));
  }

  class HashTable<T> {
    var elems: array<Option<T>>
    var hashes: array<nat>
    var buckets: array<int>
    var count: nat

    ghost function Contents(): Table<T>
      reads this, elems, hashes, buckets
    {
      Table(elems[..], hashes[..], buckets[..])
    }

    ghost predicate Valid()
      reads this, elems, hashes, buckets
    {
      Sound(Contents()) && count == |Live(elems[..])|
    }

    constructor ()
      ensures Valid() && Entries(Contents()) == map[]
      ensures fresh(elems) && fresh(hashes) && fresh(buckets)
    {
      elems, hashes, buckets, count := new Option<T>[0], new nat[0], new int[0], 0;
      new;
      assert Live(elems[..]) == {};
    }

    /** Takes the first free bucket on the probing path of `h`; the assertion `i < m` of the code
        holds because a free bucket is known to exist. */
    static method Claim(buckets: array<int>, h: nat, k: nat, ghost free: nat) returns (b: nat)
      requires PowerOfTwo(buckets.Length) && free < buckets.Length && buckets[free] < 0
      modifies buckets
      ensures b < buckets.Length && old(buckets[b]) < 0 && buckets[..] == old(buckets[..])[b := k]
    {
      hide Place, Cursor, PowerOfTwo;
      var m := buckets.Length;
      var i: nat := 0;
      ProbesCover(h, free, m);
      PlaceInRange(h, i, m);
      while buckets[Place(h, i, m)] >= 0
        invariant i <= Cursor(h, free, m) && Place(h, i, m) < m
        invariant buckets[..] == old(buckets[..])
        decreases m - i
      {
        i := i + 1;
        PlaceInRange(h, i, m);
      }
      b := Place(h, i, m);
      assert buckets[b] < 0;
      buckets[b] := k;
    }

    /** One used slot goes into the new tables. */
    static method CopyOne(newElems: array<Option<T>>, newHashes: array<nat>, newBuckets: array<int>, k: nat, h: nat,
                          e: T)
      requires k < newElems.Length == newHashes.Length && newElems[k].None? && PowerOfTwo(newBuckets.Length)
      requires |Live(newElems[..])| < newBuckets.Length
      requires BucketsUsed(newBuckets[..], newElems[..], k) && SlotsFound(newBuckets[..], newElems[..], k)
      modifies newElems, newHashes, newBuckets
      ensures newElems[..] == old(newElems[..])[k := Some(e)] && newHashes[..] == old(newHashes[..])[k := h]
      ensures BucketsUsed(newBuckets[..], newElems[..], k + 1) && SlotsFound(newBuckets[..], newElems[..], k + 1)
    {
      hide PowerOfTwo, BucketsUsed, SlotsFound, Live;
      ghost var free := CopySlot(newBuckets[..], newElems[..], k, e);
      newElems[k] := Some(e);
      newHashes[k] := h;
      var b := Claim(newBuckets, h, k, free);
    }

    /** `lai_hashtable_grow`: slots keep their numbers, buckets are assigned anew. */
    method Grow(n: nat, m: nat)
      requires Valid() && n >= elems.Length && m >= buckets.Length
      requires count < n <= m && PowerOfTwo(m)
      modifies this
      ensures Valid() && elems.Length == n && buckets.Length == m && count == old(count)
      ensures fresh(elems) && fresh(hashes) && fresh(buckets)
      ensures Entries(Contents()) == old(Entries(Contents()))
    {
      hide Place, PowerOfTwo, BucketsUsed, SlotsFound, Live, Entries;
      var newElems := new Option<T>[n](_ => None);
      var newHashes := new nat[n](_ => 0);
      var newBuckets := new int[m](_ => -1);
      EmptyIsUsed(newBuckets[..], newElems[..]);
      Rehash(newElems, newHashes, newBuckets);
      GrowKeeps(Contents(), newElems[..], newHashes[..], newBuckets[..]);
      elems, hashes, buckets := newElems, newHashes, newBuckets;
    }

    /** The loop over the old slots. */
    method Rehash(newElems: array<Option<T>>, newHashes: array<nat>, newBuckets: array<int>)
      requires elems.Length == hashes.Length <= newElems.Length == newHashes.Length && PowerOfTwo(newBuckets.Length)
      requires |Live(elems[..])| < newBuckets.Length && forall j :: 0 <= j < newElems.Length ==> newElems[j].None?
      requires newElems != elems && newHashes != hashes && newBuckets != buckets
      requires BucketsUsed(newBuckets[..], newElems[..], 0) && SlotsFound(newBuckets[..], newElems[..], 0)
      modifies newElems, newHashes, newBuckets
      ensures forall j :: 0 <= j < newElems.Length ==>
                newElems[j] == if j < elems.Length then elems[j] else None
      ensures forall j :: 0 <= j < elems.Length && elems[j].Some? ==> newHashes[j] == hashes[j]
      ensures BucketsUsed(newBuckets[..], newElems[..], elems.Length)
      ensures SlotsFound(newBuckets[..], newElems[..], elems.Length)
    {
      hide PowerOfTwo, BucketsUsed, SlotsFound, Live;
      var k := 0;
      while k < elems.Length
        invariant k <= elems.Length
        invariant forall j :: 0 <= j < newElems.Length ==> newElems[j] == if j < k then elems[j] else None
        invariant forall j :: 0 <= j < k && elems[j].Some? ==> newHashes[j] == hashes[j]
        invariant BucketsUsed(newBuckets[..], newElems[..], k) && SlotsFound(newBuckets[..], newElems[..], k)
      {
        if elems[k].Some? {
          PartialLive(elems[..], newElems[..], k);
          CopyOne(newElems, newHashes, newBuckets, k, hashes[k], elems[k].value);
        } else {
          SkipSlot(newBuckets[..], newElems[..], k);
        }
        k := k + 1;
      }
    }

    /** `lai_hashtable_insert`: one new entry, in a slot that was free. */
    method Insert(h: nat, elem: T) returns (slot: nat)
      requires Valid()
      modifies this, elems, hashes, buckets
      ensures Valid() && count == old(count) + 1
      ensures elems == old(elems) || fresh(elems)
      ensures hashes == old(hashes) || fresh(hashes)
      ensures buckets == old(buckets) || fresh(buckets)
      ensures slot !in old(Entries(Contents()))
      ensures Entries(Contents()) == old(Entries(Contents()))[slot := (h, elem)]
    {
      hide Place, BucketsUsed, SlotsFound, Entries, Live, PowerOfTwo;
      MakeRoom();
      ghost var t := Contents();
      SlotsAvailable(t);
      slot := FreeSlot();
      ghost var free: nat :| free < |t.buckets| && t.buckets[free] < 0;
      elems[slot] := Some(elem);
      hashes[slot] := h;
      count := count + 1;
      var b := Claim(buckets, h, slot, free);
      InsertKeeps(t, h, elem, slot, b);
      assert Contents() == With(t, h, elem, slot, b);
    }

    /** Grows the tables if the next entry would fill the slots. */
    method MakeRoom()
      requires Valid()
      modifies this
      ensures Valid() && count == old(count) && count + 1 < elems.Length
      ensures elems == old(elems) || fresh(elems)
      ensures hashes == old(hashes) || fresh(hashes)
      ensures buckets == old(buckets) || fresh(buckets)
      ensures Entries(Contents()) == old(Entries(Contents()))
    {
      hide Place, BucketsUsed, SlotsFound, Entries, Live;
      SizeOfLive(elems[..]);
      if elems.Length == 0 || buckets.Length == 0 {
        assert Pow2(2) == 4;
        Grow(2, 4);
      } else if count + 1 >= elems.Length {
        ghost var e: nat :| buckets.Length == Pow2(e);
        assert 2 * buckets.Length == Pow2(e + 1);
        Grow(2 * elems.Length, 2 * buckets.Length);
      }
    }

    /** The first free slot. */
    method FreeSlot() returns (slot: nat)
      requires exists k :: 0 <= k < elems.Length && elems[k].None?
      ensures slot < elems.Length && elems[slot].None?
    {
      slot := 0;
      while elems[slot].Some?
        invariant slot < elems.Length && forall j :: 0 <= j < slot ==> elems[j].Some?
        decreases elems.Length - slot
      {
        slot := slot + 1;
      }
    }

    /** `lai_hashtable_chain_advance`: moves the cursor to the next entry of the chain. */
    method Advance(h: nat, cursor: int) returns (done: bool, next: nat)
      requires Valid() && -1 <= cursor < buckets.Length
      ensures cursor < next <= buckets.Length && (done <==> next == buckets.Length)
      ensures done ==> Chain(Contents(), h, cursor + 1) == []
      ensures !done ==> Visit(Contents(), h, next).Some?
                        && Chain(Contents(), h, cursor + 1)
                           == [Visit(Contents(), h, next).value] + Chain(Contents(), h, next + 1)
    {
      hide Place, Cursor, PowerOfTwo;
      next := cursor + 1;
      while next < buckets.Length
        invariant cursor < next <= buckets.Length
        invariant Chain(Contents(), h, cursor + 1) == Chain(Contents(), h, next)
      {
        PlaceInRange(h, next, buckets.Length);
        var k := buckets[Place(h, next, buckets.Length)];
        if k >= 0 && hashes[k] == h { return false, next; }
        next := next + 1;
      }
      return true, next;
    }

    /** `lai_hashtable_chain_get`. */
    method Get(h: nat, cursor: nat) returns (elem: T)
      requires Valid() && cursor < buckets.Length && Visit(Contents(), h, cursor).Some?
      ensures var k := Visit(Contents(), h, cursor).value;
              k in Entries(Contents()) && Entries(Contents())[k] == (h, elem)
    {
      PlaceInRange(h, cursor, buckets.Length);
      var k := buckets[Place(h, cursor, buckets.Length)];
      elem := elems[k].value;
    }

    /** `lai_hashtable_chain_remove`: the entry under the cursor is gone, the others stay. */
    method Remove(h: nat, cursor: nat)
      requires Valid() && cursor < buckets.Length && Visit(Contents(), h, cursor).Some?
      modifies this`count, elems, buckets
      ensures Valid() && count == old(count) - 1
      ensures Entries(Contents()) == old(Entries(Contents())) - {old(Visit(Contents(), h, cursor).value)}
      ensures Chain(Contents(), h, cursor + 1) == old(Chain(Contents(), h, cursor + 1))
    {
      hide Place, BucketsUsed, SlotsFound, Entries, PowerOfTwo;
      ghost var t := Contents();
      PlaceInRange(h, cursor, buckets.Length);
      var b := Place(h, cursor, buckets.Length);
      var k := buckets[b];
      RemoveKeeps(t, b);
      RemoveKeepsRest(t, h, cursor, cursor + 1);
      elems[k] := None;
      buckets[b] := -1;
      count := count - 1;
      assert Contents() == Without(t, b);
    }
  }
}
