/** Case-insensitive hashing of paths into buckets.  A path is its bytes, without the final zero. */
module PathIndex {
  type Path = seq<bv8>

  const MAX_PATH: nat := 260
  const LOWER: bv8 := 32

  /** ASCII lower case of one byte; all other bytes stay. */
  function FoldByte(c: bv8): bv8 {
    if 65 <= c <= 90 then c + LOWER else c
  }

  /** Folding sets the case bit of the 26 capital letters and changes no other byte. */
  lemma FoldExact(c: bv8)
    ensures FoldByte(c) == if 0x41 <= c <= 0x5A then c | 0x20 else c
  {
  }

  /** What _stricmp compares. */
  function Fold(s: Path): (r: Path)
    ensures |r| == |s|
    ensures forall k {:trigger r[k]} :: 0 <= k < |s| ==> r[k] == FoldByte(s[k])
  {
    if s == [] then [] else Fold(s[..|s| - 1]) + [FoldByte(s[|s| - 1])]
  }

  /** _stricmp(a, b) == 0. */
  predicate SamePath(a: Path, b: Path) {
    Fold(a) == Fold(b)
  }

  function CrcRound(crc: bv32): bv32 {
    if crc & 1 != 0 then (crc >> 1) ^ 0xEDB8_8320 else crc >> 1
  }

  /** The loop of crc32_generate, with the given number of rounds to go. */
  function CrcRounds(crc: bv32, rounds: nat): bv32
    decreases rounds
  {
    if rounds == 0 then crc else CrcRounds(CrcRound(crc), rounds - 1)
  }

  /** Entry n of the checksum table, which the code has written out: crc32_generate makes nine rounds. */
  function TableEntry(n: bv32): bv32 {
    CrcRounds(n, 9)
  }

  lemma NineRounds(n: bv32)
    ensures TableEntry(n) ==
            CrcRound(CrcRound(CrcRound(CrcRound(CrcRound(CrcRound(CrcRound(CrcRound(CrcRound(n)))))))))
  {
    hide CrcRound;
  }

  /** The first entries and the last one, as wincache_utils.c has them written out. */
  lemma TableWritten(n: bv32)
    ensures n == 0 ==> TableEntry(n) == 0
    ensures n == 1 ==> TableEntry(n) == 0x3B83_984B
    ensures n == 2 ==> TableEntry(n) == 0x7707_3096
    ensures n == 255 ==> TableEntry(n) == 0xFB39_F4E6
  {
    NineRounds(n);
  }

  /** One table step of the checksum. */
  function CrcStep(crc: bv32, c: bv8): bv32 {
    ((crc >> 8) & 0x00FF_FFFF) ^ TableEntry((crc ^ (c as bv32)) & 0xFF)
  }

  /** The checksum register after reading s. */
  ghost function CrcAfter(s: Path): bv32 {
    if s == [] then 0xFFFF_FFFF else CrcStep(CrcAfter(s[..|s| - 1]), FoldByte(s[|s| - 1]))
  }

  function Complement(crc: bv32): bv32 {
    !crc
  }

  /** The checksum of s. */
  ghost function Checksum(s: Path): bv32 {
    Complement(CrcAfter(s))
  }

  /** utils_crc32. */
  method Crc32(s: Path) returns (crc: bv32)
    ensures crc == Checksum(s)
  {
    crc := 0xFFFF_FFFF;
    for index := 0 to |s|
      invariant crc == CrcAfter(s[..index])
    {
      var c := s[index];
      if 65 <= c <= 90 {
        c := c + LOWER;
      }
      assert s[..index + 1][..index] == s[..index];
      crc := CrcStep(crc, c);
    }
    assert s[..|s|] == s;
    crc := Complement(crc);
  }

  lemma OneByte(s: Path)
    requires |s| == 1
    ensures CrcAfter(s) == CrcStep(CrcAfter([]), FoldByte(s[0]))
  {
    assert s[..0] == [];
  }

  /** The checksums of no byte and of the letter A, of either case. */
  lemma CrcWritten(s: Path)
    ensures |s| == 0 ==> Checksum(s) == 0
    ensures |s| == 1 && s[0] | 0x20 == 0x61 ==> Checksum(s) == 0x1963_5C01
  {
    if |s| == 1 {
      OneByte(s);
      NineRounds((CrcAfter([]) ^ (FoldByte(s[0]) as bv32)) & 0xFF);
    }
  }

  lemma {:induction false} CrcFolds(a: Path, b: Path)
    requires SamePath(a, b)
    ensures CrcAfter(a) == CrcAfter(b)
  {
    assert |a| == |Fold(a)| == |b|;
    if a != [] {
      var n := |a| - 1;
      assert Fold(a)[n] == Fold(b)[n];
      assert Fold(a)[..n] == Fold(a[..n]) && Fold(b)[..n] == Fold(b[..n]);
      CrcFolds(a[..n], b[..n]);
    }
  }

  lemma SameChecksum(a: Path, b: Path)
    requires SamePath(a, b)
    ensures Checksum(a) == Checksum(b)
  {
    hide SamePath, CrcAfter, Complement;
    CrcFolds(a, b);
  }

  function ToNat(hash: bv32): nat {
    hash as nat
  }

  function Bucket(hash: bv32, buckets: nat): (i: nat)
    requires buckets > 0
    ensures i < buckets
  {
    hide ToNat;
    ToNat(hash) % buckets
  }

  /** The bucket of a path: over-long paths all go to bucket 0. */
  ghost function IndexOf(s: Path, buckets: nat): (i: nat)
    requires buckets > 0
    ensures i < buckets
  {
    if |s| > MAX_PATH then 0 else Bucket(Checksum(s), buckets)
  }

  /** Paths of up to 260 bytes are spread by their checksum. */
  lemma IndexExact(s: Path, buckets: nat)
    requires buckets > 0
    ensures IndexOf(s, buckets) == if |s| <= 260 then (Checksum(s) as nat) % buckets else 0
  {
    hide Checksum;
  }

  /** utils_getindex. */
  method GetIndex(s: Path, buckets: nat) returns (i: nat)
    requires buckets > 0
    ensures i == IndexOf(s, buckets)
  {
    hide Checksum, Bucket;
    i := 0;
    if |s| > MAX_PATH {
      return;
    }
    var hash := Crc32(s);
    i := Bucket(hash, buckets);
  }

  lemma SameLength(a: Path, b: Path)
    requires SamePath(a, b)
    ensures |a| == |b|
  {
    assert |a| == |Fold(a)| == |b|;
  }

  /** Paths equal up to ASCII case share a bucket, over-long ones included. */
  lemma SameBucket(a: Path, b: Path, buckets: nat)
    requires buckets > 0 && SamePath(a, b)
    ensures IndexOf(a, buckets) == IndexOf(b, buckets)
  {
    hide Checksum, Bucket, SamePath;
    SameLength(a, b);
    SameChecksum(a, b);
  }
}
