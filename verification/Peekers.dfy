// The reader that the replay decoders look ahead in (file/w3g/serialization.go, Peeker).

module Peekers {
  import opened Wire

  function Min(a: nat, b: nat): nat {
    if a < b then a else b
  }

  /**
   * A bufio.Reader: what is left of the stream, of which it can show `cap` bytes at a time.
   * Asked for more it shows what fits, with ErrBufferFull.
   */
  class Peeker {
    const cap: nat
    var rest: Bytes

    constructor (cap: nat, stream: Bytes)
      ensures this.cap == cap && rest == stream
    {
      this.cap, rest := cap, stream;
    }

    method Peek(n: nat) returns (b: Bytes, err: Result)
      ensures b == Shown(rest, cap, n)
      ensures err == PeekErr(rest, cap, n)
    {
      b := rest[..Min(Min(n, cap), |rest|)];
      err := if n > cap then Err(ErrBufferFull) else if n > |rest| then Err(ErrEOF) else OK;
    }

    method Discard(n: nat) returns (done: nat, err: Result)
      modifies this
      ensures done == Min(n, old(|rest|)) && rest == old(rest)[done..]
      ensures err == if n <= old(|rest|) then OK else Err(ErrEOF)
    {
      done := Min(n, |rest|);
      err := if n <= |rest| then OK else Err(ErrEOF);
      rest := rest[done..];
    }
  }

  function Shown(rest: Bytes, cap: nat, n: nat): Bytes {
    rest[..Min(Min(n, cap), |rest|)]
  }

  function PeekErr(rest: Bytes, cap: nat, n: nat): Result {
    if n > cap then Err(ErrBufferFull) else if n > |rest| then Err(ErrEOF) else OK
  }
}
