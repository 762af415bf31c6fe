/** Content digests and the chain IDs derived from them. */
module Digests {

  /** A digest is the content it stands for: collisions are left out. `Chain` is the
      digest of the text made of two digests, `Blob` that of anything else. */
  datatype Digest =
    | NoDigest
    | Blob(n: nat)
    | Chain(previous: Digest, layer: Digest)

  /** The "Layer ChainID" of config.md in OCI image-spec v1.0.0. */
  function ChainId(layers: seq<Digest>): Digest {
    var n := |layers|;
    if n > 1 then Chain(ChainId(layers[..n - 1]), layers[n - 1])
    else if n == 1 then layers[0]
    else NoDigest
  }

  predicate Blobs(layers: seq<Digest>) {
    forall i :: 0 <= i < |layers| ==> layers[i].Blob?
  }

  /** A chain ID names exactly one sequence of layers. */
  lemma {:induction false} ChainIdInjective(xs: seq<Digest>, ys: seq<Digest>)
    requires Blobs(xs) && Blobs(ys) && ChainId(xs) == ChainId(ys)
    ensures xs == ys
    decreases |xs|
  {
    if |xs| > 1 {
      var m, n := |xs| - 1, |ys| - 1;
      ChainIdInjective(xs[..m], ys[..n]);
      assert xs == xs[..m] + [xs[m]] && ys == ys[..n] + [ys[n]];
    }
  }
}
