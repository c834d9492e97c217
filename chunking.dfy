/**
 * Fixed-size chunking: `[text[i:i+1000] for i in range(0, len(text), 1000)]`.
 * Consecutive, non-overlapping slices of 1000 characters; the last may be shorter.
 */
module Chunking {
  import opened Common

  const ChunkSize: nat := 1000

  function Min(a: int, b: int): int
  {
    if a <= b then a else b
  }

  /** Python's slice `t[i:j]` for non-negative bounds: bounds past the end are clipped, and `i >= j` gives "". */
  function Slice(t: string, i: nat, j: nat): (r: string)
    ensures |r| == if Min(j, |t|) <= Min(i, |t|) then 0 else Min(j, |t|) - Min(i, |t|)
    ensures forall k :: 0 <= k < |r| ==> r[k] == t[i + k]
  {
    var lo, hi := Min(i, |t|), Min(j, |t|);
    if hi <= lo then "" else t[lo..hi]
  }

  /** Python's `range(0, n, ChunkSize)`: the multiples of ChunkSize below n, ascending. */
  function Starts(n: nat): (r: seq<nat>)
    ensures forall j :: 0 <= j < |r| ==> r[j] == j * ChunkSize
    ensures forall x: nat :: x in r <==> x < n && x % ChunkSize == 0
  {
    var r := seq((n + ChunkSize - 1) / ChunkSize, j requires 0 <= j => j * ChunkSize as nat);
    forall j | 0 <= j < |r| ensures r[j] < n && r[j] % ChunkSize == 0 {
      assert j < (n + ChunkSize - 1) / ChunkSize;
    }
    forall x: nat | x < n && x % ChunkSize == 0 ensures x in r {
      assert x / ChunkSize < |r| && r[x / ChunkSize] == x;
    }
    r
  }

  /** The chunk list of `text`: every chunk is non-empty and at most ChunkSize long. */
  function Chunks(text: string): (chunks: seq<string>)
    ensures forall k :: 0 <= k < |chunks| ==> 0 < |chunks[k]| <= ChunkSize
  {
    var starts := Starts(|text|);
    seq(|starts|, k requires 0 <= k < |starts| => Slice(text, starts[k], starts[k] + ChunkSize))
  }

  /**
   * Chunk k is `text[1000*k .. min(1000*(k+1), |text|)]`; every chunk but the
   * last is exactly ChunkSize long.
   */
  lemma ChunkAt(text: string, k: nat)
    requires k < |Chunks(text)|
    ensures k * ChunkSize < |text|
    ensures Chunks(text)[k] == text[k * ChunkSize..Min((k + 1) * ChunkSize, |text|)]
    ensures k < |Chunks(text)| - 1 ==> |Chunks(text)[k]| == ChunkSize
  {
  }

  /**
   * The chunk count is ceil(|text| / ChunkSize): the fewest chunks of ChunkSize
   * characters that reach |text|. Empty text gives no chunks.
   */
  lemma ChunkCount(text: string)
    ensures |text| <= |Chunks(text)| * ChunkSize < |text| + ChunkSize
    ensures Chunks(text) == [] <==> text == []
  {
  }

  /** The first j chunks, joined, are exactly the first min(j*ChunkSize, |text|) characters. */
  lemma {:induction false} PrefixCover(text: string, j: nat)
    requires j <= |Chunks(text)|
    ensures Concat(Chunks(text)[..j]) == text[..Min(j * ChunkSize, |text|)]
  {
    var chunks := Chunks(text);
    if j == 0 {
      assert chunks[..0] == [];
    } else {
      PrefixCover(text, j - 1);
      assert chunks[..j][..j - 1] == chunks[..j - 1];
      ChunkAt(text, j - 1);
      var lo := (j - 1) * ChunkSize;
      assert text[..Min(j * ChunkSize, |text|)] == text[..lo] + text[lo..Min(j * ChunkSize, |text|)];
    }
  }

  /** Joining the chunks in order gives back the text: no gap, no overlap, nothing changed. */
  lemma ChunksCover(text: string)
    ensures Concat(Chunks(text)) == text
  {
    var chunks := Chunks(text);
    PrefixCover(text, |chunks|);
    ChunkCount(text);
    assert chunks[..|chunks|] == chunks;
    assert text[..|text|] == text;
  }
}
