// Byte buffers and little-endian integers (protocol/buffer.go).

module Wire {

  type Byte = b: int | 0 <= b < 0x100
  type UInt16 = v: int | 0 <= v < 0x1_0000
  type UInt32 = v: int | 0 <= v < 0x1_0000_0000

  type Bytes = seq<Byte>

  /** What a decoder answers: a value with the bytes after it, an error, or a Go run-time panic. */
  datatype Outcome<+T> =
    | Done(value: T, rest: Bytes)
    | Failed(err: Error)
    | Panics

  datatype Error =
    | ErrNoProtocolSig
    | ErrInvalidPacketSize
    | ErrInvalidChecksum
    | ErrUnexpectedConst
    | ErrNoCStringTerminatorFound
    | ErrShortBuffer
    | ErrUnexpectedEOF
    | ErrEOF
    | ErrBadFormat
    | ErrUnknownRecord
    | ErrBufferFull

  /** How a Deserialize method ends: it returns, or a read past the buffer panics. */
  datatype Result = OK | Err(err: Error) | Panic

  /** What a method has made of its input: how it ended, the value it left, and the bytes after it. */
  function Answer<T>(err: Result, value: T, rest: Bytes): Outcome<T> {
    match err
    case OK => Done(value, rest)
    case Err(e) => Failed(e)
    case Panic => Panics
  }

  function Lo16(v: int): UInt16 {
    v % 0x1_0000
  }

  function LE16(v: UInt16): (b: Bytes)
    ensures |b| == 2
  {
    [v % 0x100, v / 0x100]
  }

  function LE32(v: UInt32): (b: Bytes)
    ensures |b| == 4
  {
    LE16(v % 0x1_0000) + LE16(v / 0x1_0000)
  }

  lemma Div100(n: nat, q: nat, r: nat)
    requires n == 0x100 * q + r && r < 0x100
    ensures n / 0x100 == q && n % 0x100 == r
  {
  }

  lemma Div1000000(n: nat, q: nat, r: nat)
    requires n == 0x100_0000 * q + r && r < 0x100_0000
    ensures n / 0x100_0000 == q
  {
  }

  lemma LE32ByByte(v: UInt32)
    ensures LE32(v) == [v % 0x100, v / 0x100 % 0x100, v / 0x1_0000 % 0x100, v / 0x100_0000]
  {
    var q, r := v / 0x1_0000, v % 0x1_0000;
    var a, b := r / 0x100, r % 0x100;
    var c, d := q / 0x100, q % 0x100;
    Div100(v, 0x100 * q + a, b);
    Div100(0x100 * q + a, q, a);
    Div1000000(v, c, 0x1_0000 * d + r);
  }

  function Get16(b: Bytes): UInt16
    requires |b| >= 2
  {
    b[0] as int + 0x100 * (b[1] as int)
  }

  function Get32(b: Bytes): UInt32
    requires |b| >= 4
  {
    Get16(b) as int + 0x1_0000 * (Get16(b[2..]) as int)
  }

  lemma Get16OfLE16(v: UInt16, tail: Bytes)
    ensures Get16(LE16(v) + tail) == v && (LE16(v) + tail)[2..] == tail
  {
  }

  lemma LE16OfGet16(b: Bytes)
    requires |b| >= 2
    ensures b[..2] == LE16(Get16(b))
  {
  }

  lemma Get32OfLE32(v: UInt32, tail: Bytes)
    ensures Get32(LE32(v) + tail) == v && (LE32(v) + tail)[4..] == tail
  {
    var b := LE32(v) + tail;
    assert b == LE16(v % 0x1_0000) + (LE16(v / 0x1_0000) + tail);
    Get16OfLE16(v % 0x1_0000, LE16(v / 0x1_0000) + tail);
    Get16OfLE16(v / 0x1_0000, tail);
    assert b[2..][2..] == b[4..];
  }

  /** Little-endian numbers at an offset. */
  function U16(b: Bytes, i: nat): int
    requires i + 2 <= |b|
  {
    b[i] as int + 0x100 * b[i + 1] as int
  }

  function U32(b: Bytes, i: nat): int
    requires i + 4 <= |b|
  {
    b[i] as int + 0x100 * b[i + 1] as int + 0x1_0000 * b[i + 2] as int + 0x100_0000 * b[i + 3] as int
  }

  lemma GetIs16(b: Bytes, i: nat)
    requires i + 2 <= |b|
    ensures Get16(b[i..]) == U16(b, i)
  {
  }

  lemma GetIs32(b: Bytes, i: nat)
    requires i + 4 <= |b|
    ensures Get32(b[i..]) == U32(b, i)
  {
    assert b[i..][2..] == b[i + 2..];
  }

  lemma ModIs(n: int, q: int, r: nat)
    requires n == 0x1_0000_0000 * q + r && r < 0x1_0000_0000
    ensures n % 0x1_0000_0000 == r
  {
  }

  /** A count reduced before something is added, or taken off, and after. */
  lemma ModThenAdd(a: int, n: int)
    ensures (a % 0x1_0000_0000 + n) % 0x1_0000_0000 == (a + n) % 0x1_0000_0000
  {
    var q, r := a / 0x1_0000_0000, a % 0x1_0000_0000;
    var p, s := (r + n) / 0x1_0000_0000, (r + n) % 0x1_0000_0000;
    ModIs(a + n, q + p, s);
  }

  /** Slices of an end of b, seen from b. */
  lemma SliceAt(b: Bytes, k: nat, n: nat)
    requires k + n <= |b|
    ensures b[k..][..n] == b[k..k + n] && b[k..][n..] == b[k + n..]
  {
  }

  function Zeros(n: nat): (z: Bytes)
    ensures |z| == n && forall i | 0 <= i < n :: z[i] == 0
  {
    if n == 0 then [] else [0] + Zeros(n - 1)
  }

  function Concat(parts: seq<Bytes>): Bytes {
    if parts == [] then [] else parts[0] + Concat(parts[1..])
  }

  // ---- Null-terminated strings --------------------------------------------

  predicate NulFree(s: Bytes) {
    forall i | 0 <= i < |s| :: s[i] != 0
  }

  function CString(s: Bytes): Bytes {
    s + [0]
  }

  /** The offset of the first null byte, or the length when there is none. */
  function NulIndex(b: Bytes): (n: nat)
    ensures n <= |b| && NulFree(b[..n])
    ensures n < |b| ==> b[n] == 0
  {
    if b == [] || b[0] == 0 then 0 else
      assert forall n | 0 < n <= |b| :: b[..n] == [b[0]] + b[1..][..n - 1];
      1 + NulIndex(b[1..])
  }

  function TakeCString(b: Bytes): Outcome<Bytes> {
    var n := NulIndex(b);
    if n == |b| then Failed(ErrNoCStringTerminatorFound) else Done(b[..n], b[n + 1..])
  }

  lemma NulIndexIs(b: Bytes, n: nat)
    requires n < |b| && b[n] == 0 && NulFree(b[..n])
    ensures NulIndex(b) == n
  {
  }

  lemma TakeCStringOf(s: Bytes, tail: Bytes)
    requires NulFree(s)
    ensures TakeCString(CString(s) + tail) == Done(s, tail)
  {
    var b := CString(s) + tail;
    assert b[..|s|] == s;
    NulIndexIs(b, |s|);
  }

  // ---- The buffer ---------------------------------------------------------

  /** protocol.Buffer: writes append, reads consume from the front. */
  class Buffer {
    var bytes: Bytes

    constructor (b: Bytes)
      ensures bytes == b
    {
      bytes := b;
    }

    method WriteBlob(v: Bytes)
      modifies this
      ensures bytes == old(bytes) + v
    {
      bytes := bytes + v;
    }

    method WriteUInt8(v: Byte)
      modifies this
      ensures bytes == old(bytes) + [v]
    {
      bytes := bytes + [v];
    }

    method WriteUInt16(v: UInt16)
      modifies this
      ensures bytes == old(bytes) + LE16(v)
    {
      bytes := bytes + [v % 0x100, v / 0x100];
    }

    method WriteUInt32(v: UInt32)
      modifies this
      ensures bytes == old(bytes) + LE32(v)
    {
      LE32ByByte(v);
      bytes := bytes + [v % 0x100, v / 0x100 % 0x100, v / 0x1_0000 % 0x100, v / 0x100_0000];
    }

    method WriteCString(v: Bytes)
      modifies this
      ensures bytes == old(bytes) + CString(v)
    {
      WriteBlob(v);
      WriteUInt8(0);
    }

    method WriteUInt8At(p: nat, v: Byte)
      requires p < |bytes|
      modifies this
      ensures bytes == old(bytes)[p := v]
    {
      bytes := bytes[p := v];
    }

    method WriteUInt16At(p: nat, v: UInt16)
      requires p + 1 < |bytes|
      modifies this
      ensures bytes == old(bytes)[..p] + LE16(v) + old(bytes)[p + 2..]
    {
      bytes := bytes[p + 1 := v / 0x100][p := v % 0x100];
    }

    method WriteUInt32At(p: nat, v: UInt32)
      requires p + 3 < |bytes|
      modifies this
      ensures bytes == old(bytes)[..p] + LE32(v) + old(bytes)[p + 4..]
    {
      LE32ByByte(v);
      bytes := bytes[p := v % 0x100][p + 1 := v / 0x100 % 0x100][p + 2 := v / 0x1_0000 % 0x100][p + 3 := v / 0x100_0000];
    }

    method Skip(n: nat)
      requires n <= |bytes|
      modifies this
      ensures bytes == old(bytes)[n..]
    {
      bytes := bytes[n..];
    }

    method ReadUInt8() returns (v: Byte)
      requires |bytes| >= 1
      modifies this
      ensures v == old(bytes)[0] && bytes == old(bytes)[1..]
    {
      v := bytes[0];
      bytes := bytes[1..];
    }

    method ReadUInt16() returns (v: UInt16)
      requires |bytes| >= 2
      modifies this
      ensures v == Get16(old(bytes)) && bytes == old(bytes)[2..]
    {
      v := (bytes[1] as int) * 0x100 + bytes[0];
      bytes := bytes[2..];
    }

    method ReadUInt32() returns (v: UInt32)
      requires |bytes| >= 4
      modifies this
      ensures v == Get32(old(bytes)) && bytes == old(bytes)[4..]
    {
      v := (bytes[3] as int) * 0x100_0000 + (bytes[2] as int) * 0x1_0000 + (bytes[1] as int) * 0x100 + bytes[0];
      bytes := bytes[4..];
    }

    method ReadBlob(n: nat) returns (v: Bytes)
      requires n <= |bytes|
      modifies this
      ensures v == old(bytes)[..n] && bytes == old(bytes)[n..]
    {
      if n > 0 {
        v := bytes[..n];
        bytes := bytes[n..];
      } else {
        v := [];
      }
    }

    /** Answers false, with the buffer used up, when there is no terminator. */
    method ReadCString() returns (v: Bytes, ok: bool)
      modifies this
      ensures TakeCString(old(bytes)) == if ok then Done(v, bytes) else Failed(ErrNoCStringTerminatorFound)
      ensures !ok ==> bytes == []
    {
      var pos := 0;
      while pos < |bytes| && bytes[pos] != 0
        invariant pos <= |bytes| && NulFree(bytes[..pos])
      {
        pos := pos + 1;
      }
      if pos == |bytes| {
        assert bytes[..pos] == bytes;
        bytes := [];
        return [], false;
      }
      NulIndexIs(bytes, pos);
      v, ok := bytes[..pos], true;
      bytes := bytes[pos + 1..];
    }
  }
}
