/** Work done in chunks of one size, the last one possibly smaller. */
module Chunks {

  /** How much of `total` is done after `k` chunks. */
  function Cut(k: nat, size: nat, total: nat): nat { if k * size < total then k * size else total }

  /** `n` chunks do `total`, and one fewer would not. */
  predicate ChunksFor(n: nat, size: nat, total: nat) { total <= n * size < total + size }

  lemma FewerChunks(k: nat, n: nat, size: nat)
    requires k <= n
    ensures k * size <= n * size
  {
  }

  /** After `n` full chunks one more, `part`, full or not: what was done before stays as it was. */
  lemma OneMoreChunk(n: nat, size: nat, part: nat)
    requires 0 < part <= size
    ensures ChunksFor(n + 1, size, n * size + part) && Cut(n + 1, size, n * size + part) == n * size + part
    ensures forall k :: 0 <= k <= n ==> Cut(k, size, n * size + part) == Cut(k, size, n * size) == k * size
    ensures part == size ==> n * size + part == (n + 1) * size
  {
    assert (n + 1) * size == n * size + size;
    forall k | 0 <= k <= n ensures Cut(k, size, n * size + part) == Cut(k, size, n * size) == k * size {
      FewerChunks(k, n, size);
    }
  }
}
