/** The compacting copy of a sparse PHP hash table: a smaller index is chosen and every
    collision chain is rebuilt. */
module HashCompact {
  import opened Basics

  const HT_MIN_SIZE: nat := 8
  const HT_INVALID_IDX: int := -1

  // A bucket: hash, key (a string token, or None for an integer key), and whether it is unused.
  datatype Bucket = Bucket(h: nat, key: Option<nat>, undef: bool)

  // ----- The size of the new index -----

  ghost predicate PowerOfTwo(n: nat) {
    n == 1 || (n > 1 && n % 2 == 0 && PowerOfTwo(n / 2))
  }

  /** Only tables with more than 16 slots, less than half of them used, are compacted. */
  predicate Sparse(used: nat, hashSize: nat) {
    hashSize * 4 > 64 && used < hashSize / 2
  }

  /** That is: from 17 slots on, when at least one slot more than the used ones is free twice over. */
  lemma SparseExact(used: nat, hashSize: nat)
    ensures Sparse(used, hashSize) <==> hashSize >= 17 && hashSize >= 2 * (used + 1)
  {
  }

  /** The number of slots of the compacted index. */
  method ShrunkSize(used: nat, hashSize: nat) returns (size: nat)
    requires Sparse(used, hashSize) && PowerOfTwo(hashSize)
    ensures PowerOfTwo(size) && size <= hashSize
    ensures if used <= HT_MIN_SIZE then size == HT_MIN_SIZE else used < size <= 2 * used
  {
    size := hashSize;
    if used <= HT_MIN_SIZE {
      size := HT_MIN_SIZE;
      assert PowerOfTwo(1) && PowerOfTwo(2) && PowerOfTwo(4);
    } else {
      while size / 2 > used
        invariant PowerOfTwo(size) && used < size <= hashSize
        decreases size
      {
        size := size / 2;
      }
    }
  }

  lemma OrSplits(h: bv32, m: bv32)
    ensures h | !m == (h & m) | !m && (h & m) & !m == 0 && (h & m) <= m
  {
  }

  lemma DisjointOr(a: bv32, b: bv32)
    requires a & b == 0
    ensures a | b == a + b
  {
  }

  lemma NotPlusOne(m: bv32)
    ensures !m + (m + 1) == 0
  {
  }

  lemma Regroup(a: bv32, b: bv32, c: bv32)
    ensures (a + b) + c == a + (b + c)
  {
  }

  /** The code forms a slot as hash | mask with mask the negated size, an index counted back from
      the bucket array.  Counted from the start of the index that is the hash masked by size - 1. */
  lemma SlotIsLowBits(h: bv32, size: bv32)
    requires size != 0
    ensures (h | (0 - size)) + size == h & (size - 1) && h & (size - 1) < size
  {
    var m := size - 1;
    assert 0 - size == !m && size == m + 1;
    OrSplits(h, m);
    DisjointOr(h & m, !m);
    Regroup(h & m, !m, m + 1);
    NotPlusOne(m);
  }

  /** The number a machine word stands for. */
  function ValueOf(w: bv32): (n: nat)
    ensures n == 0 <==> w == 0
    decreases w
  {
    if w == 0 then 0
    else
      Shifted(w);
      (if w & 1 == 1 then 1 else 0) + 2 * ValueOf(w >> 1)
  }

  lemma Shifted(w: bv32)
    requires w != 0
    ensures w >> 1 < w && (w & 1 == 0 ==> w >> 1 != 0) && (w & 1 == 0 || w & 1 == 1)
  {
  }

  lemma ValueSplits(w: bv32)
    ensures ValueOf(w) == (if w & 1 == 1 then 1 else 0) + 2 * ValueOf(w >> 1)
  {
  }

  lemma MaskHalves(h: bv32, size: bv32)
    requires size != 0 && size & 1 == 0
    ensures (h & (size - 1)) >> 1 == (h >> 1) & ((size >> 1) - 1) && (h & (size - 1)) & 1 == h & 1
  {
  }

  lemma NoMask(h: bv32)
    ensures h & ((1 as bv32) - 1) == 0
  {
  }

  lemma LowBit(w: bv32)
    requires w & 1 != 1 && w != 0
    ensures w & 1 == 0 && w >> 1 < w
  {
  }

  lemma OneBit(w: bv32)
    requires w >> 1 == 0 && w != 0
    ensures w == 1
  {
  }

  lemma RemainderHalves(b: nat, x: nat, n: nat)
    requires b <= 1 && n > 1 && n % 2 == 0
    ensures b + 2 * (x % (n / 2)) == (b + 2 * x) % n
  {
    var m, q := n / 2, x / (n / 2);
    assert x == q * m + x % m;
    assert b + 2 * x == q * n + (b + 2 * (x % m));
    RemainderIs(b + 2 * x, q, b + 2 * (x % m), n);
  }

  /** For a power of two, masking by size - 1 is the remainder by size. */
  lemma {:induction false} MaskIsRemainder(h: bv32, size: bv32)
    requires PowerOfTwo(ValueOf(size))
    ensures ValueOf(h & (size - 1)) == ValueOf(h) % ValueOf(size)
    decreases size
  {
    hide ValueOf;
    var n := ValueOf(size);
    ValueSplits(size);
    if n == 1 {
      OneBit(size);
      NoMask(h);
    } else {
      var masked := h & (size - 1);
      LowBit(size);
      ValueSplits(masked);
      ValueSplits(h);
      MaskHalves(h, size);
      MaskIsRemainder(h >> 1, size >> 1);
      RemainderHalves(if h & 1 == 1 then 1 else 0, ValueOf(h >> 1), n);
    }
  }

  /** The slot the code computes is the hash modulo the size of the index. */
  lemma SlotIsRemainder(h: bv32, size: bv32)
    requires PowerOfTwo(ValueOf(size))
    ensures ValueOf((h | (0 - size)) + size) == ValueOf(h) % ValueOf(size)
  {
    SlotIsLowBits(h, size);
    MaskIsRemainder(h, size);
  }

  // ----- Chains -----

  /** Bucket i is in use and hashes to slot s. */
  predicate InSlot(bs: seq<Bucket>, i: nat, size: nat, s: nat)
    requires i < |bs| && size > 0
  {
    !bs[i].undef && bs[i].h % size == s
  }

  /** The buckets among the first n that belong to slot s, latest first. */
  ghost function SlotChain(bs: seq<Bucket>, n: nat, size: nat, s: nat): seq<nat>
    requires n <= |bs| && size > 0
  {
    if n == 0 then []
    else if InSlot(bs, n - 1, size, s) then [n - 1] + SlotChain(bs, n - 1, size, s)
    else SlotChain(bs, n - 1, size, s)
  }

  lemma {:induction false} SlotChainExact(bs: seq<Bucket>, n: nat, size: nat, s: nat, i: nat)
    requires n <= |bs| && size > 0
    ensures i in SlotChain(bs, n, size, s) <==> i < n && InSlot(bs, i, size, s)
  {
    if n > 0 {
      SlotChainExact(bs, n - 1, size, s, i);
    }
  }

  lemma {:induction false} SlotChainDescends(bs: seq<Bucket>, n: nat, size: nat, s: nat)
    requires n <= |bs| && size > 0
    ensures var c := SlotChain(bs, n, size, s);
            && (forall k {:trigger c[k]} :: 0 <= k < |c| ==> c[k] < n) && Distinct(c)
  {
    if n > 0 {
      SlotChainDescends(bs, n - 1, size, s);
      var d, c := SlotChain(bs, n - 1, size, s), SlotChain(bs, n, size, s);
      if InSlot(bs, n - 1, size, s) {
        assert forall k {:trigger c[k]} :: 0 < k < |c| ==> c[k] == d[k - 1];
      }
    }
  }

  /** Starting at head and following next visits exactly c. */
  ghost predicate Visits(head: int, next: seq<int>, c: seq<nat>) {
    && head == (if c == [] then HT_INVALID_IDX else c[0])
    && forall k {:trigger c[k]} :: 0 <= k < |c| ==>
         c[k] < |next| && next[c[k]] == if k + 1 < |c| then c[k + 1] else HT_INVALID_IDX
  }

  /** A collision index of size slots over the buckets: each slot's chain visits exactly the
      buckets in use that hash to it, each once, in some order. */
  ghost predicate IndexOf(hash: seq<int>, next: seq<int>, bs: seq<Bucket>, chains: seq<seq<nat>>) {
    && |hash| == |chains| > 0 && |next| == |bs|
    && (forall s {:trigger chains[s]} :: 0 <= s < |chains| ==> Visits(hash[s], next, chains[s]))
    && (forall s, i: nat {:trigger i in chains[s]} :: 0 <= s < |chains| ==>
          (i in chains[s] <==> i < |bs| && InSlot(bs, i, |chains|, s)))
    && (forall s {:trigger chains[s]} :: 0 <= s < |chains| ==> Distinct(chains[s]))
  }

  /** Every slot's chain visits its buckets among the first n. */
  ghost predicate Indexed(hash: seq<int>, next: seq<int>, bs: seq<Bucket>, n: nat)
    requires n <= |bs|
  {
    |hash| > 0 && forall s {:trigger hash[s]} :: 0 <= s < |hash| ==> Visits(hash[s], next, SlotChain(bs, n, |hash|, s))
  }

  /** HT_HASH_RESET. */
  method Reset(hash: array<int>)
    modifies hash
    ensures forall s {:trigger hash[s]} :: 0 <= s < hash.Length ==> hash[s] == HT_INVALID_IDX
  {
    for s := 0 to hash.Length
      invariant forall k {:trigger hash[k]} :: 0 <= k < s ==> hash[k] == HT_INVALID_IDX
    {
      hash[s] := HT_INVALID_IDX;
    }
  }

  /** The rebuild: an empty index, then each bucket in use goes to the front of its chain. */
  method Rebuild(bs: seq<Bucket>, hash: array<int>, next: array<int>)
    requires hash.Length > 0 && next.Length == |bs| && hash != next
    modifies hash, next
    ensures Indexed(hash[..], next[..], bs, |bs|)
  {
    Reset(hash);
    assert Indexed(hash[..], next[..], bs, 0);
    hide Indexed, Visits, SlotChain;
    for idx := 0 to |bs|
      invariant Indexed(hash[..], next[..], bs, idx)
    {
      if !bs[idx].undef {
        var nIndex := bs[idx].h % hash.Length;
        PushFront(bs, idx, nIndex, hash, next);
      } else {
        Skipped(bs, idx, hash[..], next[..]);
      }
    }
  }

  /** An unused bucket changes no chain. */
  lemma Skipped(bs: seq<Bucket>, idx: nat, hash: seq<int>, next: seq<int>)
    requires idx < |bs| && bs[idx].undef && Indexed(hash, next, bs, idx)
    ensures Indexed(hash, next, bs, idx + 1)
  {
    hide Visits;
    forall s | 0 <= s < |hash| ensures SlotChain(bs, idx + 1, |hash|, s) == SlotChain(bs, idx, |hash|, s) {
    }
  }

  /** The index Rebuild produces is a correct one. */
  lemma RebuiltIndex(bs: seq<Bucket>, hash: seq<int>, next: seq<int>)
    requires |next| == |bs| && Indexed(hash, next, bs, |bs|)
    ensures IndexOf(hash, next, bs, seq(|hash|, s requires 0 <= s < |hash| => SlotChain(bs, |bs|, |hash|, s)))
  {
    var chains := seq(|hash|, s requires 0 <= s < |hash| => SlotChain(bs, |bs|, |hash|, s));
    forall s, i: nat | 0 <= s < |chains| ensures i in chains[s] <==> i < |bs| && InSlot(bs, i, |chains|, s) {
      SlotChainExact(bs, |bs|, |hash|, s, i);
    }
    forall s | 0 <= s < |chains| ensures Distinct(chains[s]) {
      SlotChainDescends(bs, |bs|, |hash|, s);
    }
  }

  /** One bucket is linked in front of its slot's chain. */
  method PushFront(bs: seq<Bucket>, idx: nat, nIndex: nat, hash: array<int>, next: array<int>)
    requires hash.Length > 0 && next.Length == |bs| && hash != next && idx < |bs|
    requires nIndex < hash.Length && InSlot(bs, idx, hash.Length, nIndex)
    requires Indexed(hash[..], next[..], bs, idx)
    modifies hash, next
    ensures Indexed(hash[..], next[..], bs, idx + 1)
  {
    hide Visits, SlotChain;
    ghost var hash0, next0 := hash[..], next[..];
    next[idx] := hash[nIndex];
    hash[nIndex] := idx;
    assert hash[..] == hash0[nIndex := idx] && next[..] == next0[idx := hash0[nIndex]];
    forall s | 0 <= s < hash.Length ensures Visits(hash[..][s], next[..], SlotChain(bs, idx + 1, hash.Length, s)) {
      assert Visits(hash0[s], next0, SlotChain(bs, idx, hash.Length, s));
      Pushed(bs, idx, hash.Length, s, hash0[s], next0, next[..]);
    }
  }

  lemma Pushed(bs: seq<Bucket>, idx: nat, size: nat, s: nat, head: int, next: seq<int>, after: seq<int>)
    requires idx < |bs| == |next| && size > 0 && Visits(head, next, SlotChain(bs, idx, size, s))
    requires |after| == |next| && after == next[idx := after[idx]]
    requires InSlot(bs, idx, size, s) ==> after[idx] == head
    ensures Visits(if InSlot(bs, idx, size, s) then idx else head, after, SlotChain(bs, idx + 1, size, s))
  {
    hide InSlot, SlotChain;
    SlotChainDescends(bs, idx, size, s);
    SlotChainStep(bs, idx, size, s);
    var d, c := SlotChain(bs, idx, size, s), SlotChain(bs, idx + 1, size, s);
    forall k | 0 <= k < |c|
      ensures c[k] < |after| && after[c[k]] == if k + 1 < |c| then c[k + 1] else HT_INVALID_IDX
    {
      if InSlot(bs, idx, size, s) && k > 0 {
        assert c[k] == d[k - 1];
      }
    }
  }

  lemma SlotChainStep(bs: seq<Bucket>, n: nat, size: nat, s: nat)
    requires n < |bs| && size > 0
    ensures SlotChain(bs, n + 1, size, s) == (if InSlot(bs, n, size, s) then [n] else []) + SlotChain(bs, n, size, s)
  {
  }

  // ----- Lookups -----

  /** zend_hash lookup along a chain: the first bucket with this hash and key, or -1. */
  ghost function FindIn(bs: seq<Bucket>, c: seq<nat>, h: nat, key: Option<nat>): int
    requires forall k {:trigger c[k]} :: 0 <= k < |c| ==> c[k] < |bs|
  {
    if c == [] then -1
    else if bs[c[0]].h == h && bs[c[0]].key == key then c[0]
    else FindIn(bs, c[1..], h, key)
  }

  /** A lookup through an index: along the chain of the hash's slot. */
  ghost function Lookup(bs: seq<Bucket>, chains: seq<seq<nat>>, h: nat, key: Option<nat>): int {
    if |chains| == 0 then -1
    else if exists k {:trigger chains[h % |chains|][k]} ::
              0 <= k < |chains[h % |chains|]| && chains[h % |chains|][k] >= |bs| then -1
    else FindIn(bs, chains[h % |chains|], h, key)
  }

  /** No two buckets in use have the same hash and key. */
  ghost predicate UniqueKeys(bs: seq<Bucket>) {
    forall i, j {:trigger bs[i], bs[j]} :: 0 <= i < j < |bs| && !bs[i].undef && !bs[j].undef ==>
      bs[i].h != bs[j].h || bs[i].key != bs[j].key
  }

  lemma {:induction false} FindExact(bs: seq<Bucket>, c: seq<nat>, h: nat, key: Option<nat>)
    requires forall k {:trigger c[k]} :: 0 <= k < |c| ==> c[k] < |bs|
    ensures var r := FindIn(bs, c, h, key);
            if r == -1 then forall i {:trigger bs[i]} :: i in c ==> bs[i].h != h || bs[i].key != key
            else r in c && bs[r].h == h && bs[r].key == key
  {
    if c != [] {
      FindExact(bs, c[1..], h, key);
      assert c == [c[0]] + c[1..];
    }
  }

  /** Any two correct indexes over the same buckets, of whatever size, answer every lookup alike. */
  lemma SameLookups(bs: seq<Bucket>, hash1: seq<int>, next1: seq<int>, chains1: seq<seq<nat>>,
                    hash2: seq<int>, next2: seq<int>, chains2: seq<seq<nat>>, h: nat, key: Option<nat>)
    requires UniqueKeys(bs) && IndexOf(hash1, next1, bs, chains1) && IndexOf(hash2, next2, bs, chains2)
    ensures Lookup(bs, chains1, h, key) == Lookup(bs, chains2, h, key)
  {
    var c1, c2 := chains1[h % |chains1|], chains2[h % |chains2|];
    assert Visits(hash1[h % |chains1|], next1, c1) && Visits(hash2[h % |chains2|], next2, c2);
    FindExact(bs, c1, h, key);
    FindExact(bs, c2, h, key);
    var r1, r2 := FindIn(bs, c1, h, key), FindIn(bs, c2, h, key);
    assert r1 != -1 ==> r1 in c2;
    assert r2 != -1 ==> r2 in c1;
  }

  /** IndexOf looks only at which buckets are in use and at their hashes, not at their keys. */
  lemma IndexIgnoresKeys(hash: seq<int>, next: seq<int>, bs: seq<Bucket>, cs: seq<Bucket>, chains: seq<seq<nat>>)
    requires IndexOf(hash, next, bs, chains) && |cs| == |bs|
    requires forall i {:trigger cs[i]} :: 0 <= i < |bs| ==> cs[i].h == bs[i].h && cs[i].undef == bs[i].undef
    ensures IndexOf(hash, next, cs, chains)
  {
    hide Visits;
  }

  /** The whole compaction of a sparse table: the new index is correct, smaller, but large enough.
      By SameLookups every lookup then finds the bucket it found before. */
  method Compact(bs: seq<Bucket>, hashSize: nat)
    returns (hash: array<int>, next: array<int>, ghost chains: seq<seq<nat>>)
    requires Sparse(|bs|, hashSize) && PowerOfTwo(hashSize)
    ensures fresh(hash) && fresh(next) && next.Length == |bs| && IndexOf(hash[..], next[..], bs, chains)
    ensures PowerOfTwo(hash.Length) && hash.Length <= hashSize
    ensures if |bs| <= HT_MIN_SIZE then hash.Length == HT_MIN_SIZE else |bs| < hash.Length <= 2 * |bs|
  {
    hide Visits, SlotChain, IndexOf;
    var size := ShrunkSize(|bs|, hashSize);
    hash := new int[size];
    next := new int[|bs|];
    Rebuild(bs, hash, next);
    ghost var hs := hash[..];
    chains := seq(|hs|, s requires 0 <= s < |hs| => SlotChain(bs, |bs|, |hs|, s));
    RebuiltIndex(bs, hs, next[..]);
  }
}
