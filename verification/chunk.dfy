/** The unit of composition of the packet decoding pipeline
    (package com.inkapplications.ack.codec.chunk). */
module CodecChunk {

  /** A decoded value together with the input that its chunker did not consume. */
  datatype Chunk<+T> = Chunk(result: T, remainingData: string)
}
