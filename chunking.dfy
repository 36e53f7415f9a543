/**
 * `chunk_by_sentences` (preprocess_pdfs.py): consecutive groups of `size`
 * sentences, the last one possibly shorter.
 */
module Chunking {
  import opened Strings

  /** The groups, cut from the front. */
  function Chunks<T>(s: seq<T>, size: nat): seq<seq<T>>
    requires size >= 1
    decreases |s|
  {
    if s == [] then []
    else if |s| <= size then [s]
    else [s[..size]] + Chunks(s[size..], size)
  }

  /** Concatenating the chunks gives back the input: nothing is lost, repeated or reordered. */
  lemma {:induction false} ChunksFlatten<T>(s: seq<T>, size: nat)
    requires size >= 1
    ensures Flatten(Chunks(s, size)) == s
    decreases |s|
  {
    if s != [] && |s| > size {
      ChunksFlatten(s[size..], size);
      assert s == s[..size] + s[size..];
    } else if s != [] {
      assert s + [] == s;
    }
  }

  /**
   * Every chunk is non-empty and holds at most `size` elements, and every
   * chunk but the last holds exactly `size`.
   */
  lemma {:induction false} ChunksShape<T>(s: seq<T>, size: nat)
    requires size >= 1
    ensures forall i :: 0 <= i < |Chunks(s, size)| ==> 1 <= |Chunks(s, size)[i]| <= size
    ensures forall i :: 0 <= i < |Chunks(s, size)| - 1 ==> |Chunks(s, size)[i]| == size
    decreases |s|
  {
    if s != [] && |s| > size {
      ChunksShape(s[size..], size);
      var c := Chunks(s, size);
      assert c == [s[..size]] + Chunks(s[size..], size);
      assert forall i :: 1 <= i < |c| ==> c[i] == Chunks(s[size..], size)[i - 1];
    }
  }

  /**
   * The number of chunks is the ceiling of `|s| / size`: `m` chunks cover at
   * most `m * size` elements and more than `(m - 1) * size`, and there are
   * none exactly when `s` is empty.
   */
  lemma {:induction false} ChunksCount<T>(s: seq<T>, size: nat)
    requires size >= 1
    ensures var m := |Chunks(s, size)|;
      (m == 0 <==> s == []) && (m - 1) * size < |s| <= m * size
    decreases |s|
  {
    if s != [] && |s| > size {
      ChunksCount(s[size..], size);
      var m := |Chunks(s[size..], size)|;
      assert |Chunks(s, size)| == m + 1;
      assert (m + 1 - 1) * size == m * size;
      assert (m + 1) * size == m * size + size;
    }
  }

  /** `sentences[i:i + size]`: Python clamps the end of the slice. */
  function Slice<T>(s: seq<T>, i: nat, size: nat): seq<T>
    requires i <= |s|
  {
    if i + size <= |s| then s[i..i + size] else s[i..]
  }

  lemma ChunksUnfold<T>(s: seq<T>, i: nat, size: nat)
    requires size >= 1 && i < |s|
    ensures Chunks(s[i..], size) == [Slice(s, i, size)]
      + (if i + size <= |s| then Chunks(s[i + size..], size) else [])
  {
    if i + size <= |s| {
      assert s[i..][..size] == s[i..i + size];
      assert s[i..][size..] == s[i + size..];
      if |s[i..]| == size {
        assert s[i + size..] == [];
        assert s[i..] == s[i..i + size];
      }
    }
  }

  /** `chunk_by_sentences`: slices taken at `0, size, 2·size, …`. */
  method ChunkBySentences<T>(sentences: seq<T>, size: nat) returns (chunks: seq<seq<T>>)
    requires size >= 1
    ensures chunks == Chunks(sentences, size)
  {
    chunks := [];
    var i := 0;
    while i < |sentences|
      invariant 0 <= i <= |sentences|
      invariant chunks + Chunks(sentences[i..], size) == Chunks(sentences, size)
      decreases |sentences| - i
    {
      ChunksUnfold(sentences, i, size);
      chunks := chunks + [Slice(sentences, i, size)];
      if i + size <= |sentences| {
        i := i + size;
      } else {
        i := |sentences|;
        assert sentences[i..] == [];
      }
    }
    assert sentences[i..] == [];
  }
}
