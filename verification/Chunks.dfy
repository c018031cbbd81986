/** Data that comes in chunks. */
module Chunks {
  function Join<T>(chunks: seq<seq<T>>): seq<T> {
    if chunks == [] then [] else Join(chunks[..|chunks| - 1]) + chunks[|chunks| - 1]
  }

  lemma {:induction false} JoinPrefix<T>(chunks: seq<seq<T>>, k: nat)
    requires k <= |chunks|
    ensures Join(chunks[..k]) <= Join(chunks)
  {
    if k < |chunks| {
      JoinPrefix(chunks[..|chunks| - 1], k);
      assert chunks[..|chunks| - 1][..k] == chunks[..k];
    } else {
      assert chunks[..k] == chunks;
    }
  }

  lemma JoinNone<T>(chunks: seq<seq<T>>)
    requires chunks == []
    ensures Join(chunks) == []
  {
  }

  lemma JoinMore<T>(chunks: seq<seq<T>>, chunk: seq<T>)
    ensures Join(chunks + [chunk]) == Join(chunks) + chunk
  {
    assert (chunks + [chunk])[..|chunks|] == chunks;
  }

  lemma JoinNext<T>(chunks: seq<seq<T>>, k: nat)
    requires k < |chunks|
    ensures Join(chunks[..k + 1]) == Join(chunks[..k]) + chunks[k]
  {
    assert chunks[..k + 1][..k] == chunks[..k];
  }
}
