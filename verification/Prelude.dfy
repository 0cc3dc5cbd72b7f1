/**
 Fixed-width integers, byte strings and little-endian codecs shared by every
 other module, plus the few facts about sequences and multisets they need.
 */
module Prelude {

  // ---- Outcomes -------------------------------------------------------------

  datatype Option<+T> = None | Some(value: T)

  /** A failure-compatible result: Rust's `Result<T, E>`. */
  datatype Result<+T, +E> = Ok(value: T) | Err(error: E) {
    predicate IsFailure() {
      Err?
    }

    function PropagateFailure<U>(): Result<U, E>
      requires Err?
    {
      Err(error)
    }

    function Extract(): T
      requires Ok?
    {
      value
    }
  }

  // ---- Machine integers -----------------------------------------------------

  const MAX_U8: nat := 0xFF
  const MAX_U16: nat := 0xFFFF
  const MAX_U32: nat := 0xFFFF_FFFF
  const MAX_U64: nat := 0xFFFF_FFFF_FFFF_FFFF
  const MAX_U128: nat := 0xFFFF_FFFF_FFFF_FFFF_FFFF_FFFF_FFFF_FFFF

  type byte = x: int | 0 <= x <= 0xFF
  type u64 = x: int | 0 <= x <= 0xFFFF_FFFF_FFFF_FFFF
  type u128 = x: int | 0 <= x <= 0xFFFF_FFFF_FFFF_FFFF_FFFF_FFFF_FFFF_FFFF

  /** `a.saturating_add(b)` on u128. */
  function SaturatingAdd(a: u128, b: u128): u128 {
    if a + b <= MAX_U128 then a + b else MAX_U128
  }

  /** `a.saturating_sub(b)`. */
  function SaturatingSub(a: nat, b: nat): nat {
    if a < b then 0 else a - b
  }

  // ---- Byte strings ---------------------------------------------------------

  type Bytes = seq<byte>
  type Bytes20 = b: Bytes | |b| == 20 witness seq(20, _ => 0)
  type Bytes32 = b: Bytes | |b| == 32 witness seq(32, _ => 0)

  function Fill(n: nat, b: byte): (r: Bytes)
    ensures |r| == n
  {
    seq(n, _ => b)
  }

  function Ascii(s: string): (b: Bytes)
    ensures |b| == |s|
  {
    seq(|s|, i requires 0 <= i < |s| => s[i] as int % 256)
  }

  /** The slice of length `n` at offset `from`. */
  function Slice(b: Bytes, from: nat, n: nat): (r: Bytes)
    requires from + n <= |b|
    ensures |r| == n
  {
    b[from..from + n]
  }

  /** Rust's `<=` on byte arrays: lexicographic order. */
  predicate LexLeq(a: Bytes, b: Bytes) {
    if a == [] then true
    else if b == [] then false
    else if a[0] != b[0] then a[0] < b[0]
    else LexLeq(a[1..], b[1..])
  }

  lemma {:induction false} LexLeqTotal(a: Bytes, b: Bytes)
    ensures LexLeq(a, b) || LexLeq(b, a)
    ensures LexLeq(a, b) && LexLeq(b, a) ==> a == b
  {
    if a != [] && b != [] && a[0] == b[0] {
      LexLeqTotal(a[1..], b[1..]);
      assert a == [a[0]] + a[1..] && b == [b[0]] + b[1..];
    }
  }

  /** `a` is below `b` at the first place where they differ. */
  ghost predicate Below(a: Bytes, b: Bytes) {
    exists i :: BelowAt(a, b, i)
  }

  ghost predicate BelowAt(a: Bytes, b: Bytes, i: nat) {
    i < |a| && i < |b| && a[..i] == b[..i] && a[i] < b[i]
  }

  lemma BelowAtHead(a: Bytes, b: Bytes, i: nat)
    requires BelowAt(a, b, i)
    ensures if i == 0 then a[0] < b[0] else a[0] == b[0]
  {
    assert i > 0 ==> a[..i][0] == b[..i][0];
  }

  /** On strings of one length the order is equality or being below. */
  lemma {:induction false} LexLeqExact(a: Bytes, b: Bytes)
    requires |a| == |b|
    ensures LexLeq(a, b) <==> a == b || Below(a, b)
  {
    if a != [] {
      LexLeqExact(a[1..], b[1..]);
      if a[0] == b[0] {
        assert a == [a[0]] + a[1..] && b == [b[0]] + b[1..];
        if i: nat :| BelowAt(a[1..], b[1..], i) {
          assert a[..i + 1] == [a[0]] + a[1..][..i] && b[..i + 1] == [b[0]] + b[1..][..i];
          assert BelowAt(a, b, i + 1);
        }
        if i: nat :| BelowAt(a, b, i) {
          assert i > 0;
          assert a[1..][..i - 1] == a[..i][1..] && b[1..][..i - 1] == b[..i][1..];
          assert BelowAt(a[1..], b[1..], i - 1);
        }
      } else {
        assert a[..0] == b[..0];
        assert a[0] < b[0] ==> BelowAt(a, b, 0);
        if i: nat :| BelowAt(a, b, i) {
          BelowAtHead(a, b, i);
        }
      }
    }
  }

  // ---- Little-endian integers -----------------------------------------------

  function Pow256(n: nat): (p: nat)
    ensures p >= 1
  {
    if n == 0 then 1 else 256 * Pow256(n - 1)
  }

  /** The low `n` bytes of `v`, least significant first (`to_le_bytes`). */
  function ToLE(n: nat, v: nat): (b: Bytes)
    ensures |b| == n
  {
    if n == 0 then [] else [v % 256] + ToLE(n - 1, v / 256)
  }

  function FromLE(b: Bytes): (v: nat)
    ensures v < Pow256(|b|)
  {
    if b == [] then 0 else b[0] + 256 * FromLE(b[1..])
  }

  lemma {:induction false} FromToLE(n: nat, v: nat)
    requires v < Pow256(n)
    ensures FromLE(ToLE(n, v)) == v
  {
    if n > 0 {
      FromToLE(n - 1, v / 256);
      assert ToLE(n, v)[1..] == ToLE(n - 1, v / 256);
    }
  }

  lemma {:induction false} ToFromLE(b: Bytes)
    ensures ToLE(|b|, FromLE(b)) == b
  {
    if b != [] {
      var rest := FromLE(b[1..]);
      assert (b[0] + 256 * rest) % 256 == b[0] && (b[0] + 256 * rest) / 256 == rest;
      ToFromLE(b[1..]);
    }
  }

  lemma WidthValues()
    ensures Pow256(2) == MAX_U16 + 1
    ensures Pow256(4) == MAX_U32 + 1
    ensures Pow256(8) == MAX_U64 + 1
    ensures Pow256(16) == MAX_U128 + 1
  {
    assert Pow256(2) == 0x1_0000;
    assert Pow256(4) == 0x1_0000_0000;
    assert Pow256(6) == 0x1_0000_0000_0000;
    assert Pow256(8) == 0x1_0000_0000_0000_0000;
    assert Pow256(10) == 0x1_0000_0000_0000_0000_0000;
    assert Pow256(12) == 0x1_0000_0000_0000_0000_0000_0000;
    assert Pow256(14) == 0x1_0000_0000_0000_0000_0000_0000_0000;
  }

  function LE16(v: nat): (b: Bytes)
    ensures |b| == 2
  {
    ToLE(2, v % 0x1_0000)
  }

  function LE32(v: nat): (b: Bytes)
    ensures |b| == 4
  {
    ToLE(4, v % 0x1_0000_0000)
  }

  function LE64(v: u64): (b: Bytes)
    ensures |b| == 8
  {
    ToLE(8, v)
  }

  function LE128(v: u128): (b: Bytes)
    ensures |b| == 16
  {
    ToLE(16, v)
  }

  function ReadU16(b: Bytes): (v: nat)
    requires |b| == 2
    ensures v <= MAX_U16
  {
    WidthValues();
    FromLE(b)
  }

  function ReadU32(b: Bytes): (v: nat)
    requires |b| == 4
    ensures v <= MAX_U32
  {
    WidthValues();
    FromLE(b)
  }

  function ReadU64(b: Bytes): u64
    requires |b| == 8
  {
    WidthValues();
    FromLE(b)
  }

  function ReadU128(b: Bytes): u128
    requires |b| == 16
  {
    WidthValues();
    FromLE(b)
  }

  lemma ReadWrite16(v: nat)
    ensures ReadU16(LE16(v)) == v % 0x1_0000
  {
    WidthValues();
    FromToLE(2, v % 0x1_0000);
  }

  lemma ReadWrite32(v: nat)
    ensures ReadU32(LE32(v)) == v % 0x1_0000_0000
  {
    WidthValues();
    FromToLE(4, v % 0x1_0000_0000);
  }

  lemma ReadWrite64(v: u64)
    ensures ReadU64(LE64(v)) == v
  {
    WidthValues();
    FromToLE(8, v);
  }

  lemma ReadWrite128(v: u128)
    ensures ReadU128(LE128(v)) == v
  {
    WidthValues();
    FromToLE(16, v);
  }

  lemma WriteRead16(b: Bytes)
    requires |b| == 2
    ensures LE16(ReadU16(b)) == b
  {
    assert ReadU16(b) % 0x1_0000 == FromLE(b);
    ToFromLE(b);
  }

  lemma WriteRead32(b: Bytes)
    requires |b| == 4
    ensures LE32(ReadU32(b)) == b
  {
    assert ReadU32(b) % 0x1_0000_0000 == FromLE(b);
    ToFromLE(b);
  }

  lemma WriteRead64(b: Bytes)
    requires |b| == 8
    ensures LE64(ReadU64(b)) == b
  {
    ToFromLE(b);
  }

  lemma OneMoreTime(a: nat, n: nat)
    ensures a * (n + 1) == a * n + a
    ensures (n + 1) * a == n * a + a
  {
  }

  // ---- Sums and permutations ------------------------------------------------

  function SumOf<T>(f: T -> nat, s: seq<T>): nat {
    if s == [] then 0 else f(s[0]) + SumOf(f, s[1..])
  }

  lemma {:induction false} SumOfConcat<T>(f: T -> nat, a: seq<T>, b: seq<T>)
    ensures SumOf(f, a + b) == SumOf(f, a) + SumOf(f, b)
  {
    if a == [] {
      assert a + b == b;
    } else {
      assert (a + b)[1..] == a[1..] + b;
      SumOfConcat(f, a[1..], b);
    }
  }

  lemma SumOfRemove<T>(f: T -> nat, s: seq<T>, k: nat)
    requires k < |s|
    ensures SumOf(f, s) == f(s[k]) + SumOf(f, s[..k] + s[k + 1..])
  {
    var rest := s[k + 1..];
    assert s == s[..k] + ([s[k]] + rest);
    SumOfConcat(f, s[..k], [s[k]] + rest);
    SumOfConcat(f, s[..k], rest);
    SumOfCons(f, s[k], rest);
  }

  lemma SumOfCons<T>(f: T -> nat, x: T, rest: seq<T>)
    ensures SumOf(f, [x] + rest) == f(x) + SumOf(f, rest)
  {
    assert ([x] + rest)[1..] == rest;
  }

  lemma SumOfSnoc<T>(f: T -> nat, s: seq<T>, i: nat)
    requires i < |s|
    ensures SumOf(f, s[..i + 1]) == SumOf(f, s[..i]) + f(s[i])
  {
    assert s[..i + 1] == s[..i] + [s[i]];
    SumOfConcat(f, s[..i], [s[i]]);
  }

  lemma MultisetRemove<T>(s: seq<T>, k: nat)
    requires k < |s|
    ensures multiset(s[..k] + s[k + 1..]) == multiset(s) - multiset{s[k]}
  {
    assert s == s[..k] + ([s[k]] + s[k + 1..]);
  }

  lemma PlaceOf<T>(s: seq<T>, x: T, elements: multiset<T>) returns (k: nat)
    requires multiset(s) == elements && x in elements
    ensures k < |s| && s[k] == x
  {
    k :| 0 <= k < |s| && s[k] == x;
  }

  lemma RemoveFromBoth<T>(a: seq<T>, b: seq<T>, k: nat)
    requires multiset(a) == multiset(b) && a != [] && k < |b| && b[k] == a[0]
    ensures multiset(a[1..]) == multiset(b[..k] + b[k + 1..])
  {
    MultisetRemove(a, 0);
    MultisetRemove(b, k);
    assert a[..0] + a[1..] == a[1..];
  }

  /** A sum does not see the order of its terms. */
  lemma {:induction false} SumOfPermutation<T>(f: T -> nat, a: seq<T>, b: seq<T>)
    requires multiset(a) == multiset(b)
    ensures SumOf(f, a) == SumOf(f, b)
    decreases |a|
  {
    if a == [] {
      assert |b| == |multiset(b)| == 0;
    } else {
      var k := PlaceOf(b, a[0], multiset(a));
      RemoveFromBoth(a, b, k);
      SumOfPermutation(f, a[1..], b[..k] + b[k + 1..]);
      SumOfRemove(f, b, k);
    }
  }

  ghost predicate NoDuplicates<T>(s: seq<T>) {
    forall i, j :: 0 <= i < j < |s| ==> s[i] != s[j]
  }

  lemma {:induction false} NoDuplicatesCount<T>(s: seq<T>)
    requires NoDuplicates(s)
    ensures forall x :: multiset(s)[x] == if x in s then 1 else 0
    ensures |set x | x in s| == |s|
  {
    if s == [] {
      assert (set x | x in s) == {};
    } else {
      var rest := s[1..];
      NoDuplicatesCount(rest);
      assert s == [s[0]] + rest;
      assert s[0] !in rest;
      assert (set x | x in s) == {s[0]} + (set x | x in rest);
    }
  }

  lemma {:induction false} SetNoLarger<T>(s: seq<T>)
    ensures |set x | x in s| <= |s|
    ensures |set x | x in s| == |s| ==> NoDuplicates(s)
  {
    if s == [] {
      assert (set x | x in s) == {};
    } else {
      var rest := s[1..];
      SetNoLarger(rest);
      assert s == [s[0]] + rest;
      assert (set x | x in s) == {s[0]} + (set x | x in rest);
      if s[0] in rest {
        assert (set x | x in s) == (set x | x in rest);
      } else {
        assert |set x | x in s| == 1 + |set x | x in rest|;
      }
    }
  }

  lemma SubsetCardinality<T>(a: set<T>, b: set<T>)
    requires a <= b
    ensures |a| <= |b|
    ensures |a| == |b| ==> a == b
  {
    assert b == a + (b - a);
  }

  /** Pigeonhole: if the duplicate-free `a` maps into the equally long `b`, they
      hold the same elements. */
  lemma Pigeonhole<T>(a: seq<T>, b: seq<T>)
    requires NoDuplicates(a)
    requires |a| == |b|
    requires forall x :: x in a ==> x in b
    ensures multiset(a) == multiset(b)
    ensures NoDuplicates(b)
  {
    var sa, sb := set x | x in a, set x | x in b;
    NoDuplicatesCount(a);
    SetNoLarger(b);
    SubsetCardinality(sa, sb);
    NoDuplicatesCount(b);
    forall x
      ensures multiset(a)[x] == multiset(b)[x]
    {
      assert x in a <==> x in sa;
      assert x in b <==> x in sb;
    }
  }
}
