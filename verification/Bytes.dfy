/** Byte strings, sparse files and digests shared by the data plane. */
module Bytes {
  datatype Option<+T> = None | Some(value: T)

  newtype byte = x: int | 0 <= x < 256

  type Bytes = seq<byte>

  /** A SHA-256 value in the text form the manifests carry. */
  type Digest = string

  /** SHA-256 is a parameter of every member that hashes: nothing about it is assumed. */
  type Hash = Bytes -> Digest

  /** Two different byte strings with one digest. Content equality is concluded up to this. */
  ghost predicate Collision(h: Hash) {
    exists x: Bytes, y: Bytes :: x != y && h(x) == h(y)
  }

  function Zeros(n: nat): (z: Bytes)
    ensures |z| == n && forall i :: 0 <= i < n ==> z[i] == 0
  {
    seq(n, _ => 0)
  }

  /** What `seek(offset); write(payload)` leaves in a file: a gap past the end reads as zeros. */
  function WriteAt(f: Bytes, offset: nat, payload: Bytes): (r: Bytes)
    requires |payload| > 0
    ensures |r| == if |f| < offset + |payload| then offset + |payload| else |f|
    ensures r[offset..offset + |payload|] == payload
    ensures forall i :: 0 <= i < |r| && (i < offset || offset + |payload| <= i) ==>
                          r[i] == if i < |f| then f[i] else 0
  {
    var end := offset + |payload|;
    var base := if |f| < end then f + Zeros(end - |f|) else f;
    base[..offset] + payload + base[end..]
  }

  /** What `seek(offset); read(length)` returns: fewer bytes when the file ends first. */
  function ReadAt(f: Bytes, offset: nat, length: nat): (r: Bytes)
    ensures offset + length <= |f| ==> r == f[offset..offset + length]
    ensures |r| == length ==> length == 0 || offset + length <= |f|
  {
    if |f| <= offset then []
    else if offset + length <= |f| then f[offset..offset + length]
    else f[offset..]
  }

  /** The bytes of a stream, in order. */
  function Flatten(chunks: seq<Bytes>): (r: Bytes) {
    if chunks == [] then [] else Flatten(chunks[..|chunks| - 1]) + chunks[|chunks| - 1]
  }

  lemma FlattenSnoc(chunks: seq<Bytes>, c: Bytes)
    ensures Flatten(chunks + [c]) == Flatten(chunks) + c
  {
    assert (chunks + [c])[..|chunks|] == chunks;
  }
}
