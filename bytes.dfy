/**
 * Bytes, fixed-width unsigned integers and the little/big-endian codecs that
 * the `byteorder` crate provides to the parser, plus the vocabulary the
 * specifications of the decoders share: a decoded value with the position
 * after it (`Parsed`), and what it means for an imperative read to follow a
 * specification (`Follows`).
 */
module Bytes {
  import opened Wrappers

  /** Rust's `u8`. */
  type Byte = b: int | 0 <= b < 0x100
  /** Rust's `u32`. */
  type U32 = x: int | 0 <= x < 0x1_0000_0000
  /** Rust's `u64`. */
  type U64 = x: int | 0 <= x < 0x1_0000_0000_0000_0000

  /** A value decoded from a buffer, with the buffer position just after it. */
  datatype Parsed<+T> = Parsed(value: T, next: nat)

  function Min(a: nat, b: nat): nat
  {
    if a <= b then a else b
  }

  function Pow256(n: nat): (r: nat)
    ensures r >= 1
  {
    if n == 0 then 1 else 256 * Pow256(n - 1)
  }

  /** The little-endian value of a byte string (`LittleEndian::read_uN`). */
  function LeValue(s: seq<Byte>): nat
  {
    if |s| == 0 then 0 else s[0] + 256 * LeValue(s[1..])
  }

  lemma {:induction false} LeValueBound(s: seq<Byte>)
    ensures LeValue(s) < Pow256(|s|)
  {
    if |s| > 0 {
      LeValueBound(s[1..]);
    }
  }

  /** The `n`-byte little-endian encoding of `v`. */
  function LeBytes(v: nat, n: nat): (e: seq<Byte>)
    requires v < Pow256(n)
    ensures |e| == n
  {
    if n == 0 then [] else [v % 256] + LeBytes(v / 256, n - 1)
  }

  /** Decoding an encoding gives the value back. */
  lemma {:induction false} LeRoundTrip(v: nat, n: nat)
    requires v < Pow256(n)
    ensures LeValue(LeBytes(v, n)) == v
  {
    if n > 0 {
      LeRoundTrip(v / 256, n - 1);
      assert LeBytes(v, n)[1..] == LeBytes(v / 256, n - 1);
    }
  }

  /** Encoding a decoded value gives the bytes back: no two byte strings of one
      width share a value. */
  lemma {:induction false} LeInjective(s: seq<Byte>)
    ensures LeValue(s) < Pow256(|s|)
    ensures LeBytes(LeValue(s), |s|) == s
  {
    LeValueBound(s);
    if |s| > 0 {
      LeInjective(s[1..]);
      assert LeValue(s) % 256 == s[0];
      assert LeValue(s) / 256 == LeValue(s[1..]);
    }
  }

  /** `LittleEndian::read_u32`. */
  function LeU32(b: seq<Byte>): (v: U32)
    requires |b| == 4
    ensures v == LeValue(b)
  {
    LeValueBound(b);
    LeValue(b)
  }

  /** `LittleEndian::read_u64`. */
  function LeU64(b: seq<Byte>): (v: U64)
    requires |b| == 8
    ensures v == LeValue(b)
  {
    LeValueBound(b);
    LeValue(b)
  }

  /** The big-endian value of a byte string (`BigEndian::read_uN`). */
  function BeValue(s: seq<Byte>): nat
  {
    if |s| == 0 then 0 else 256 * BeValue(s[..|s| - 1]) + s[|s| - 1]
  }

  /** The big-endian value of four bytes, written out. */
  lemma BeValue4(b: seq<Byte>)
    requires |b| == 4
    ensures BeValue(b) == (b[0] as int) * 0x100_0000 + (b[1] as int) * 0x1_0000 + (b[2] as int) * 0x100 + b[3] as int
  {
    assert b[..3][..2] == b[..2];
    assert b[..2][..1] == b[..1];
    assert b[..1][..0] == [];
    assert BeValue(b[..1]) == b[0];
    assert BeValue(b[..2]) == 256 * (b[0] as int) + b[1] as int;
    assert BeValue(b[..3]) == 256 * BeValue(b[..2]) + b[2];
  }

  /** The elements of `s` in the opposite order (`<[T]>::reverse`). */
  function Reversed<T>(s: seq<T>): (r: seq<T>)
    ensures |r| == |s|
  {
    if |s| == 0 then [] else Reversed(s[1..]) + [s[0]]
  }

  lemma {:induction false} ReversedIndex<T>(s: seq<T>, k: nat)
    requires k < |s|
    ensures Reversed(s)[k] == s[|s| - 1 - k]
  {
    if k < |s| - 1 {
      ReversedIndex(s[1..], k);
    }
  }

  /** Reversing twice is the identity. */
  lemma ReversedInvolutive<T>(s: seq<T>)
    ensures Reversed(Reversed(s)) == s
  {
    forall k | 0 <= k < |s|
      ensures Reversed(Reversed(s))[k] == s[k]
    {
      ReversedIndex(Reversed(s), k);
      ReversedIndex(s, |s| - 1 - k);
    }
  }

  /** The bytes of `s` starting at `p` are exactly `e`. */
  ghost predicate Matches(s: seq<Byte>, p: nat, e: seq<Byte>)
  {
    p + |e| <= |s| && s[p..p + |e|] == e
  }

  lemma MatchesConcat(s: seq<Byte>, p: nat, a: seq<Byte>, b: seq<Byte>)
    ensures Matches(s, p, a + b) <==> Matches(s, p, a) && Matches(s, p + |a|, b)
  {
    if Matches(s, p, a) && Matches(s, p + |a|, b) {
      assert s[p..p + |a + b|] == s[p..p + |a|] + s[p + |a|..p + |a| + |b|];
    }
    if Matches(s, p, a + b) {
      assert s[p..p + |a|] == (a + b)[..|a|];
      assert s[p + |a|..p + |a| + |b|] == (a + b)[|a|..];
    }
  }

  /** The bound and the slice that `Matches` stands for. */
  lemma MatchesSlice(s: seq<Byte>, p: nat, e: seq<Byte>)
    requires Matches(s, p, e)
    ensures p + |e| <= |s| && s[p..p + |e|] == e
  {
  }

  /** The slices of two matches, joined. */
  lemma MatchesJoin(s: seq<Byte>, p: nat, a: seq<Byte>, r: nat, b: seq<Byte>)
    requires Matches(s, p, a) && Matches(s, r, b)
    ensures s[p..p + |a|] + s[r..r + |b|] == a + b
  {
  }

  /** The split direction of `MatchesConcat`. */
  lemma MatchesSplit(s: seq<Byte>, p: nat, a: seq<Byte>, b: seq<Byte>)
    requires Matches(s, p, a + b)
    ensures Matches(s, p, a) && Matches(s, p + |a|, b) && p + |a| + |b| <= |s|
  {
    assert s[p..p + |a|] == (a + b)[..|a|];
    assert s[p + |a|..p + |a| + |b|] == (a + b)[|a|..];
  }

  lemma SliceJoin<T>(s: seq<T>, a: nat, b: nat, c: nat)
    requires a <= b <= c <= |s|
    ensures s[a..b] + s[b..c] == s[a..c]
  {
  }

  /** An imperative read that returned `r` and left the cursor at `pos` did what
      the specification `spec` of that read says: the same value or the same
      error, and on success the position just after the value. */
  ghost predicate Follows<T, E>(r: Result<T, E>, spec: Result<Parsed<T>, E>, pos: nat)
  {
    match spec
    case Ok(pr) => r == Ok(pr.value) && pos == pr.next
    case Err(e) => r == Err(e)
  }

  /** Prefixes `xs` to the list decoded by `r`; a failure stays a failure. */
  function PrependAll<T, E>(xs: seq<T>, r: Result<Parsed<seq<T>>, E>): Result<Parsed<seq<T>>, E>
  {
    match r
    case Ok(pr) => Ok(Parsed(xs + pr.value, pr.next))
    case Err(e) => Err(e)
  }

  lemma PrependNothing<T, E>(r: Result<Parsed<seq<T>>, E>)
    ensures PrependAll([], r) == r
  {
    if r.Ok? {
      assert [] + r.value.value == r.value.value;
    }
  }

  lemma PrependAllAssoc<T, E>(xs: seq<T>, ys: seq<T>, r: Result<Parsed<seq<T>>, E>)
    ensures PrependAll(xs, PrependAll(ys, r)) == PrependAll(xs + ys, r)
  {
    if r.Ok? {
      assert xs + (ys + r.value.value) == (xs + ys) + r.value.value;
    }
  }
}
