/**
 * The failure branches of `create_embedding` and `create_embeddings_batch`
 * (embedding_utils.py). The embeddings endpoint is outside the model: its answer to one
 * request is given as a `Response`. Vector components are reals; only lengths and the
 * zero fallback are modelled.
 */
module Embeddings {
  import opened TextUtils

  type Vector = seq<real>

  /** Length of the fallback vector; fixed in the code, not read from configuration. */
  const Dimension: nat := 1536

  /** What the endpoint did with one request: it failed (the deployment name is unset, or
      the client raised), or it answered with one vector per `data` item. */
  datatype Response = Failed | Answered(data: seq<Vector>)

  predicate IsZero(v: Vector) {
    forall i :: 0 <= i < |v| ==> v[i] == 0.0
  }

  /** `[0.0] * 1536`. */
  function ZeroVector(): (v: Vector)
    ensures |v| == Dimension && IsZero(v)
  {
    seq(Dimension, _ => 0.0)
  }

  /** The only vector of the fallback's length that is all zeros is the fallback. */
  lemma ZeroVectorUnique(v: Vector)
    requires |v| == Dimension && IsZero(v)
    ensures v == ZeroVector()
  {
  }

  /** `create_embedding`: the first vector of the answer; the zero vector when the request
      failed or the answer holds no data (the `IndexError` of `resp.data[0]` is caught by
      the same handler). */
  function CreateEmbedding(text: String, resp: Response): (v: Vector)
    ensures resp.Answered? && resp.data != [] ==> v == resp.data[0]
    ensures (resp.Failed? || resp.data == []) ==> |v| == Dimension && IsZero(v)
  {
    match resp
    case Failed => ZeroVector()
    case Answered(data) => if data == [] then ZeroVector() else data[0]
  }

  /** `create_embeddings_batch`: the answer's vectors in order; on failure one zero vector
      per input text, so callers always get a vector for each text. */
  function CreateEmbeddingsBatch(texts: seq<String>, resp: Response): (vs: seq<Vector>)
    ensures resp.Answered? ==> vs == resp.data
    ensures resp.Failed? ==> |vs| == |texts|
    ensures resp.Failed? ==> forall k :: 0 <= k < |vs| ==> |vs[k]| == Dimension && IsZero(vs[k])
  {
    match resp
    case Failed => seq(|texts|, _ => ZeroVector())
    case Answered(data) => data
  }

  /** The two entry points agree: whenever the batch call yields a vector for a single
      text, the single call yields that same vector. */
  lemma SingleAgreesWithBatch(text: String, resp: Response)
    ensures |CreateEmbeddingsBatch([text], resp)| > 0
      ==> CreateEmbedding(text, resp) == CreateEmbeddingsBatch([text], resp)[0]
  {
  }

  /** A batch call yields exactly one vector per text unless the endpoint answers with a
      different number of vectors. */
  lemma BatchCount(texts: seq<String>, resp: Response)
    ensures |CreateEmbeddingsBatch(texts, resp)| == |texts|
      <==> resp.Failed? || |resp.data| == |texts|
  {
  }
}
