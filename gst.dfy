/** The parts of the GStreamer 0.10 host interface that the encoder element
    sees: flow results of pushing a frame downstream, and input buffers. */
module Gst {
  /** `guint`, the host's unsigned 32-bit integer. */
  const Uint32Modulus: int := 0x1_0000_0000
  type uint32 = n: int | 0 <= n < Uint32Modulus

  /** Storing an integer into a `guint`: it wraps around modulo 2^32. */
  function Wrap32(n: int): uint32
  {
    n % Uint32Modulus
  }

  /** `GstFlowReturn`: what the downstream sink answers to a pushed frame. */
  datatype FlowReturn =
    | CustomSuccess
    | Resend
    | Ok
    | NotLinked
    | WrongState
    | Unexpected
    | NotNegotiated
    | Error
    | NotSupported
    | CustomError

  /** An input buffer of interleaved native-endian 16-bit PCM. Only its byte
      size (`GST_BUFFER_SIZE`) matters to the adapter; the samples themselves
      are identified by their element offset from the start of the buffer. */
  datatype Buffer = Buffer(size: uint32)
}
