/** Two functions on sequences that several programs need, and what they mean. */
module Sequences {

  // A sequence without its element k.
  function Without<T>(s: seq<T>, k: nat): seq<T>
    requires k < |s|
  {
    s[..k] + s[k + 1..]
  }

  // What a file gave in chunks, put together.
  function Flat<T>(chunks: seq<seq<T>>): seq<T> {
    if chunks == [] then [] else Flat(chunks[..|chunks| - 1]) + chunks[|chunks| - 1]
  }

  // One chunk is the file, and chunks after chunks are file after file.
  lemma {:induction false} FlatJoins<T>(a: seq<seq<T>>, b: seq<seq<T>>, chunk: seq<T>)
    ensures Flat([chunk]) == chunk
    ensures Flat(a + b) == Flat(a) + Flat(b)
    decreases |b|
  {
    assert [chunk][..0] == [];
    if b == [] {
      assert a + b == a;
    } else {
      var n := |b| - 1;
      FlatJoins(a, b[..n], chunk);
      assert (a + b)[..|a| + n] == a + b[..n];
    }
  }
}
