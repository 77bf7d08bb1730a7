// What the kernel may answer: the only non-determinism in the model.
module Sockets {
  import opened Bytes

  /** Outcome of recv. */
  datatype Received = Bytes(data: seq<byte>) | EndOfStream | RecvWouldBlock | RecvFailed

  /**
    Outcome of send: there was room for n bytes, so that many of the offered ones or all of them were
    taken; or why none were.
   */
  datatype Sent = Took(n: nat) | SendWouldBlock | SendFailed

  /** recv hands over at least one and at most `max` bytes. */
  predicate Fits(r: Received, max: nat) {
    r.Bytes? ==> 1 <= |r.data| <= max
  }
}
