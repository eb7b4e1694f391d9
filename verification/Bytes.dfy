/** Big-endian integers and the growable byte buffer the codecs write to. */
module Bytes {
  type byte = b: int | 0 <= b < 256

  type u16 = x: int | 0 <= x < 0x1_0000
  type u32 = x: int | 0 <= x < 0x1_0000_0000
  type i32 = x: int | -0x8000_0000 <= x < 0x8000_0000

  /** What an encoder reports about the value it was given. */
  datatype IsNull = Yes | No

  const I32_MAX := 0x7FFF_FFFF

  /** The unsigned 16-bit big-endian form. */
  function BE16(x: u16): seq<byte> {
    [x / 256, x % 256]
  }

  function FromBE16(s: seq<byte>): (x: u16)
    requires |s| == 2
  {
    s[0] as int * 256 + s[1]
  }

  /** Two's complement: the residue of a signed 16-bit number. */
  function Residue16(x: int): u16 {
    x % 0x1_0000
  }

  function Signed16(x: u16): int {
    if x < 0x8000 then x else x - 0x1_0000
  }

  /** The unsigned 32-bit big-endian form. */
  function BEU32(u: u32): (s: seq<byte>)
    ensures |s| == 4
  {
    [u / 0x100_0000, u / 0x1_0000 % 256, u / 256 % 256, u % 256]
  }

  /** The signed 32-bit big-endian form: two's complement. */
  function BE32(x: i32): (s: seq<byte>)
    ensures |s| == 4
  {
    BEU32(x as int % 0x1_0000_0000)
  }

  /** The unsigned value of four big-endian bytes. */
  function FromBE32U(s: seq<byte>): (x: nat)
    requires |s| == 4
    ensures x < 0x1_0000_0000
  {
    s[0] as int * 0x100_0000 + s[1] as int * 0x1_0000 + s[2] as int * 256 + s[3]
  }

  function FromBE32(s: seq<byte>): (x: i32)
    requires |s| == 4
  {
    var u := FromBE32U(s);
    if u < 0x8000_0000 then u else u - 0x1_0000_0000
  }

  lemma RoundTrip16(x: u16)
    ensures FromBE16(BE16(x)) == x
  {}

  lemma RoundTripSigned16(x: int)
    requires -0x8000 <= x < 0x8000
    ensures Signed16(Residue16(x)) == x
  {}

  lemma RoundTripU32(x: u32)
    ensures FromBE32U(BEU32(x)) == x
  {
    Base256(x);
  }

  lemma RoundTrip32(x: i32)
    ensures FromBE32(BE32(x)) == x
  {
    Base256(x % 0x1_0000_0000);
  }

  lemma RoundTrip32Back(s: seq<byte>)
    requires |s| == 4
    ensures BE32(FromBE32(s)) == s
  {
    var u := FromBE32U(s);
    var x: int := FromBE32(s);
    assert x % 0x1_0000_0000 == u;
    Digits256(s[0], s[1], s[2], s[3]);
  }

  lemma Digits256(a: byte, b: byte, c: byte, d: byte)
    ensures var u := a * 0x100_0000 + b * 0x1_0000 + c * 256 + d;
            u / 0x100_0000 == a && u / 0x1_0000 % 256 == b && u / 256 % 256 == c && u % 256 == d
  {
    var u := a * 0x100_0000 + b * 0x1_0000 + c * 256 + d;
    assert u / 256 == a * 0x1_0000 + b * 256 + c;
    assert u / 0x1_0000 == a * 256 + b;
  }

  lemma Base256(u: nat)
    ensures u == u / 0x100_0000 * 0x100_0000 + u / 0x1_0000 % 256 * 0x1_0000 + u / 256 % 256 * 256 + u % 256
  {
    var a, b := u / 256, u / 0x1_0000;
    assert u == 256 * a + u % 256 && a == 256 * b + a % 256 && b == 256 * (u / 0x100_0000) + b % 256;
  }

  /** The most significant byte comes first. */
  lemma NetworkOrder(x: u32, y: u16)
    ensures var s := BEU32(x);
            s[0] as int * 0x100_0000 + s[1] as int * 0x1_0000 + s[2] as int * 0x100 + s[3] == x
    ensures |BE16(y)| == 2 && BE16(y)[0] as int * 0x100 + BE16(y)[1] == y
  {
    Base256(x);
  }

  /** Negative numbers are in two's complement. */
  lemma TwosComplement(x: i32)
    ensures BE32(x) == BEU32(if x >= 0 then x else x as int + 0x1_0000_0000)
  {}

  /** A growable byte buffer that callers append to, patch and split. */
  class BytesMut {
    var bytes: seq<byte>

    constructor ()
      ensures bytes == []
    {
      bytes := [];
    }

    method Extend(s: seq<byte>)
      modifies this
      ensures bytes == old(bytes) + s
    {
      bytes := bytes + s;
    }

    /** Overwrites the four bytes at `at`; everything else stays. */
    method Patch32(at: nat, x: i32)
      requires at + 4 <= |bytes|
      modifies this
      ensures bytes == old(bytes)[..at] + BE32(x) + old(bytes)[at + 4..]
    {
      bytes := bytes[..at] + BE32(x) + bytes[at + 4..];
    }

    /** Removes and returns the first `n` bytes. */
    method SplitTo(n: nat) returns (head: seq<byte>)
      requires n <= |bytes|
      modifies this
      ensures head == old(bytes)[..n] && bytes == old(bytes)[n..]
    {
      head, bytes := bytes[..n], bytes[n..];
    }

    /** Removes and returns everything. */
    method Split() returns (all: seq<byte>)
      modifies this
      ensures all == old(bytes) && bytes == []
    {
      all, bytes := bytes, [];
    }
  }
}
