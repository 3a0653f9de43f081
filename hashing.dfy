/**
 * Hash values and the hash accumulator: a 32-byte `BitcoinHash`, the 4-byte
 * `BlockTarget`, `hash_header` (double SHA-256 with the digest byte-reversed)
 * and the append-only `BitcoinHashBuilder`.
 *
 * SHA-256 itself is not modelled: every operation that hashes takes the
 * digest function as a parameter `sha`, of which only the 32-byte result
 * length is known.
 */
module Hashing {
  import opened Bytes

  type Bytes32 = s: seq<Byte> | |s| == 32 witness seq(32, _ => 0)
  type Bytes4 = s: seq<Byte> | |s| == 4 witness [0, 0, 0, 0]

  /** A SHA-256 digest function (the `sha2` crate), left uninterpreted. */
  type Sha256 = seq<Byte> -> Bytes32

  /** `BitcoinHash`; its constructor is `BitcoinHash::new`, which stores the array as given. */
  datatype BitcoinHash = BitcoinHash(data: Bytes32)

  /** `BlockTarget`: the four raw `bits` bytes of a header. */
  datatype BlockTarget = BlockTarget(data: Bytes4)

  /** `<[u8]>::reverse`, in place. */
  method ReverseInPlace(a: array<Byte>)
    modifies a
    ensures a[..] == Reversed(old(a[..]))
  {
    var n := a.Length;
    var i := 0;
    while i < n / 2
      invariant 0 <= i <= n / 2
      invariant forall k :: 0 <= k < i ==> a[k] == old(a[n - 1 - k]) && a[n - 1 - k] == old(a[k])
      invariant forall k :: i <= k < n - i ==> a[k] == old(a[k])
    {
      a[i], a[n - 1 - i] := a[n - 1 - i], a[i];
      i := i + 1;
    }
    ghost var before := old(a[..]);
    forall k | 0 <= k < n
      ensures a[..][k] == Reversed(before)[k]
    {
      ReversedIndex(before, k);
    }
  }

  /** `BitcoinHash::from_little_endian`: stores the array byte-reversed. */
  method FromLittleEndian(data: Bytes32) returns (h: BitcoinHash)
    ensures h.data == Reversed(data)
  {
    var a := new Byte[32](i requires 0 <= i < 32 => data[i]);
    assert a[..] == data;
    ReverseInPlace(a);
    h := BitcoinHash(a[..]);
  }

  /** `BitcoinHash::hash_header`: SHA-256 applied twice, the digest reversed. */
  function HashHeader(sha: Sha256, digest: seq<Byte>): BitcoinHash
  {
    BitcoinHash(Reversed(sha(sha(digest))))
  }

  /** Reading a header hash back in little-endian order (as `from_little_endian`
      does) recovers the raw double SHA-256 digest, and the hash has 32 bytes. */
  lemma HashHeaderDigest(sha: Sha256, digest: seq<Byte>)
    ensures Reversed(HashHeader(sha, digest).data) == sha(sha(digest))
    ensures |HashHeader(sha, digest).data| == 32
  {
    ReversedInvolutive(sha(sha(digest)));
  }

  /** `impl From<&[u8]> for BlockTarget`: the first four bytes of the slice
      (`array_ref!` panics on a shorter slice). */
  function BlockTargetFrom(slice: seq<Byte>): (t: BlockTarget)
    requires |slice| >= 4
    ensures t.data == slice[..4]
  {
    BlockTarget(slice[..4])
  }

  /** `BitcoinHashBuilder`: accumulates the bytes that will be hashed. */
  class HashBuilder {
    var contents: seq<Byte>

    /** `BitcoinHashBuilder::default` (and `new`): nothing accumulated yet. */
    constructor ()
      ensures contents == []
    {
      contents := [];
    }

    /** `add_digest`: appends `data`, so after a series of calls the contents are
        the slices concatenated in call order. */
    method AddDigest(data: seq<Byte>)
      modifies this
      ensures contents == old(contents) + data
    {
      contents := contents + data;
    }

    /** `into_hash`: the header hash of everything accumulated. */
    method IntoHash(sha: Sha256) returns (h: BitcoinHash)
      ensures h == HashHeader(sha, contents)
    {
      h := HashHeader(sha, contents);
    }
  }
}
