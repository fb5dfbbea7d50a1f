/**
 The reference for how staged writes are grouped (main.py:52, 73-87): cut the
 sequence into consecutive pieces of `BatchSize` elements, the last one possibly
 shorter, and no empty piece.
 */
module Chunking {

  /** The largest write group the document store accepts in one commit. */
  const BatchSize: nat := 500

  function Min(a: int, b: int): int {
    if a <= b then a else b
  }

  /** `s` split front to back into pieces of `BatchSize`. */
  function Chunks<T>(s: seq<T>): (cs: seq<seq<T>>)
    ensures forall j :: 0 <= j < |cs| ==> 0 < |cs[j]| <= BatchSize
    ensures forall j :: 0 <= j < |cs| - 1 ==> |cs[j]| == BatchSize
    decreases |s|
  {
    if |s| == 0 then []
    else if |s| <= BatchSize then [s]
    else [s[..BatchSize]] + Chunks(s[BatchSize..])
  }

  /** All pieces glued back together in order. */
  function Flatten<T>(ss: seq<seq<T>>): seq<T> {
    if |ss| == 0 then [] else ss[0] + Flatten(ss[1..])
  }

  /** The chunks put back together give the original sequence: nothing is
      dropped, duplicated or reordered. */
  lemma {:induction false} ChunksFlatten<T>(s: seq<T>)
    ensures Flatten(Chunks(s)) == s
    decreases |s|
  {
    if |s| > BatchSize {
      ChunksFlatten(s[BatchSize..]);
      var cs := Chunks(s);
      assert cs[0] == s[..BatchSize];
      assert cs[1..] == Chunks(s[BatchSize..]);
      assert s == s[..BatchSize] + s[BatchSize..];
    }
  }

  /** There are ceil(|s| / BatchSize) chunks, and none at all for an empty sequence. */
  lemma {:induction false} ChunksCount<T>(s: seq<T>)
    ensures |Chunks(s)| == (|s| + BatchSize - 1) / BatchSize
    ensures |Chunks(s)| == 0 <==> |s| == 0
    decreases |s|
  {
    if |s| > BatchSize {
      ChunksCount(s[BatchSize..]);
    }
  }

  /** Chunk `j` is the slice of `s` starting at `BatchSize * j`. */
  lemma {:induction false} ChunkAt<T>(s: seq<T>, j: nat)
    requires j < |Chunks(s)|
    ensures BatchSize * j < |s|
    ensures Chunks(s)[j] == s[BatchSize * j .. Min(BatchSize * j + BatchSize, |s|)]
    decreases j
  {
    ChunksCount(s);
    if j > 0 {
      var rest := s[BatchSize..];
      assert Chunks(s)[j] == Chunks(rest)[j - 1];
      ChunkAt(rest, j - 1);
      assert rest[BatchSize * (j - 1) .. Min(BatchSize * j, |rest|)]
          == s[BatchSize * j .. Min(BatchSize * j + BatchSize, |s|)];
    }
  }

  /** Gluing a prefix of the pieces gives a prefix of the whole. */
  lemma {:induction false} FlattenPrefix<T>(ss: seq<seq<T>>, k: nat)
    requires k <= |ss|
    ensures Flatten(ss[..k]) <= Flatten(ss)
    decreases k
  {
    if k > 0 {
      assert ss[..k][1..] == ss[1..][..k - 1];
      FlattenPrefix(ss[1..], k - 1);
    }
  }
}
