/** Retrieval, chunking and grounding settings (their default values). */
module Config {
  const Bm25Weight: real := 0.3
  const DenseWeight: real := 0.5
  const StructuralWeight: real := 0.2

  /** Initial retrieval depth; the keyword and vector searches fetch twice this. */
  const TopKRetrieval: int := 20

  /** Target chunk size in characters. */
  const ChunkSize: int := 512

  const MinGroundingConfidence: real := 0.7
}
