/** Cutting a payload into chunks of equal width, and putting it together again. */
module RldpChunks {
  import opened Bytes
  import opened RldpFrames

  function Zeros(n: nat): seq<byte> {
    seq(n, _ => 0)
  }

  lemma {:induction false} ProductMonotone(k: nat, l: nat, size: nat)
    requires k <= l
    ensures k * size <= l * size
  {
  }

  /** The last of DivCeil(a, b) pieces of width b is the one that reaches a. */
  lemma DivCeilBounds(a: nat, b: nat)
    requires a > 0 && b > 0
    ensures DivCeil(a, b) > 0
    ensures (DivCeil(a, b) - 1) * b < a <= DivCeil(a, b) * b
  {
    var q := DivCeil(a, b);
    assert q * b <= a + b - 1 < q * b + b;
    assert (q - 1) * b == q * b - b;
  }

  /** Chunk k of a payload; the last one is filled up with zeros. */
  function Chunk(payload: seq<byte>, size: nat, k: nat): (c: seq<byte>)
    requires payload != [] && size > 0 && k < DivCeil(|payload|, size)
    ensures |c| == size
  {
    DivCeilBounds(|payload|, size);
    ProductMonotone(k, DivCeil(|payload|, size) - 1, size);
    var start := k * size;
    var end := Min(start + size, |payload|);
    payload[start..end] + Zeros(size - (end - start))
  }

  predicate HasAll(chunks: map<u16, seq<byte>>, n: nat) {
    n <= 0x1_0000 && forall k: u16 :: k < n ==> k in chunks
  }

  /** The first n chunks one after the other. */
  function Joined(chunks: map<u16, seq<byte>>, n: nat): seq<byte>
    requires HasAll(chunks, n)
  {
    if n == 0 then [] else
      var last: u16 := n - 1;
      Joined(chunks, n - 1) + chunks[last]
  }

  function Truncated(s: seq<byte>, n: nat): seq<byte> {
    if |s| <= n then s else s[..n]
  }

  predicate IsChunk(payload: seq<byte>, size: nat, k: nat, c: seq<byte>) {
    payload != [] && size > 0 && k < DivCeil(|payload|, size) && c == Chunk(payload, size, k)
  }

  /** Every chunk held is a chunk of the payload. */
  predicate ChunksOf(payload: seq<byte>, size: nat, chunks: map<u16, seq<byte>>) {
    forall k: u16 :: k in chunks ==> IsChunk(payload, size, k, chunks[k])
  }

  /** All chunks but the last are cut out of the payload; the last one is what remains of it, filled up. */
  lemma ChunkContent(payload: seq<byte>, size: nat, k: nat)
    requires payload != [] && size > 0 && k < DivCeil(|payload|, size)
    ensures Start(k, size) < |payload|
    ensures k + 1 < DivCeil(|payload|, size) ==> IsCut(payload, Start(k, size), size, Chunk(payload, size, k))
    ensures k + 1 == DivCeil(|payload|, size) ==>
      && |payload| <= Start(k, size) + size
      && Chunk(payload, size, k) == payload[Start(k, size)..] + Zeros(Start(k, size) + size - |payload|)
  {
    var n := DivCeil(|payload|, size);
    DivCeilBounds(|payload|, size);
    ProductMonotone(k, n - 1, size);
    assert (k + 1) * size == k * size + size;
    if k + 1 < n {
      ProductMonotone(k + 1, n - 1, size);
    }
  }

  lemma TakeMore(s: seq<byte>, from: nat, to: nat)
    requires from <= to <= |s|
    ensures s[..from] + s[from..to] == s[..to]
  {
  }

  /** Where chunk k begins. */
  function Start(k: nat, size: nat): nat {
    k * size
  }

  lemma NextStart(n: nat, size: nat)
    requires n > 0
    ensures Start(n, size) == Start(n - 1, size) + size
  {
  }

  predicate IsCut(payload: seq<byte>, start: nat, size: nat, c: seq<byte>) {
    start + size <= |payload| && c == payload[start..start + size]
  }

  /** The first n chunks are cut out of the payload in full width. */
  predicate FullyCut(payload: seq<byte>, size: nat, chunks: map<u16, seq<byte>>, n: nat) {
    HasAll(chunks, n) && forall k: u16 :: k < n ==> IsCut(payload, Start(k, size), size, chunks[k])
  }

  lemma JoinedApart(chunks: map<u16, seq<byte>>, n: nat, last: u16)
    requires n > 0 && HasAll(chunks, n) && last == n - 1
    ensures HasAll(chunks, n - 1) && last in chunks && Joined(chunks, n) == Joined(chunks, n - 1) + chunks[last]
  {
  }

  lemma CutApart(payload: seq<byte>, size: nat, chunks: map<u16, seq<byte>>, n: nat) returns (last: u16, start: nat)
    requires n > 0 && FullyCut(payload, size, chunks, n)
    ensures FullyCut(payload, size, chunks, n - 1) && HasAll(chunks, n) && last == n - 1 && last in chunks
    ensures start == Start(n - 1, size) && start + size <= |payload| && chunks[last] == payload[start..start + size]
  {
    last, start := n - 1, Start(n - 1, size);
    assert IsCut(payload, Start(last, size), size, chunks[last]);
  }

  lemma NothingJoined(payload: seq<byte>, size: nat, chunks: map<u16, seq<byte>>)
    requires FullyCut(payload, size, chunks, 0)
    ensures HasAll(chunks, 0) && Start(0, size) == 0 && Joined(chunks, 0) == payload[..0]
  {
  }

  lemma {:induction false} JoinedCuts(payload: seq<byte>, size: nat, chunks: map<u16, seq<byte>>, n: nat)
    requires FullyCut(payload, size, chunks, n)
    ensures HasAll(chunks, n) && Start(n, size) <= |payload| && Joined(chunks, n) == payload[..Start(n, size)]
  {
    hide *;
    if n == 0 {
      NothingJoined(payload, size, chunks);
    } else {
      var last, start := CutApart(payload, size, chunks, n);
      JoinedApart(chunks, n, last);
      JoinedCuts(payload, size, chunks, n - 1);
      NextStart(n, size);
      TakeMore(payload, start, start + size);
    }
  }

  lemma JoinedFullChunks(payload: seq<byte>, size: nat, chunks: map<u16, seq<byte>>, n: nat)
    requires payload != [] && size > 0 && n < DivCeil(|payload|, size)
    requires ChunksOf(payload, size, chunks) && HasAll(chunks, n)
    ensures Start(n, size) <= |payload| && Joined(chunks, n) == payload[..Start(n, size)]
  {
    forall k: u16 | k < n
      ensures IsCut(payload, Start(k, size), size, chunks[k])
    {
      assert IsChunk(payload, size, k, chunks[k]);
      ChunkContent(payload, size, k);
    }
    JoinedCuts(payload, size, chunks, n);
  }

  lemma CutBack(payload: seq<byte>, start: nat, fill: seq<byte>)
    requires start <= |payload|
    ensures Truncated(payload[..start] + (payload[start..] + fill), |payload|) == payload
  {
    assert payload[..start] + (payload[start..] + fill) == payload + fill;
  }

  lemma LastChunk(payload: seq<byte>, size: nat, chunks: map<u16, seq<byte>>, n: nat) returns (last: u16)
    requires payload != [] && size > 0 && ChunksOf(payload, size, chunks)
    requires n == DivCeil(|payload|, size) && HasAll(chunks, n)
    ensures n > 0 && last == n - 1 && last in chunks && chunks[last] == Chunk(payload, size, last)
  {
    DivCeilBounds(|payload|, size);
    last := n - 1;
    assert IsChunk(payload, size, last, chunks[last]);
  }

  /** The chunks of a payload, joined and cut to its length, are the payload. */
  lemma ChunksRebuildPayload(payload: seq<byte>, size: nat, chunks: map<u16, seq<byte>>)
    requires payload != [] && size > 0 && ChunksOf(payload, size, chunks)
    requires HasAll(chunks, DivCeil(|payload|, size))
    ensures Truncated(Joined(chunks, DivCeil(|payload|, size)), |payload|) == payload
  {
    hide *;
    var n := DivCeil(|payload|, size);
    var last := LastChunk(payload, size, chunks, n);
    JoinedApart(chunks, n, last);
    JoinedFullChunks(payload, size, chunks, n - 1);
    ChunkContent(payload, size, last);
    var start := Start(last, size);
    CutBack(payload, start, Zeros(start + size - |payload|));
  }
}
