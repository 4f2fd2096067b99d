/** Memory streams with a cursor (src/fileutils.c, src/fmcmb.h): big-endian words over a buffer
    that grows in steps of 4096 bytes. */
module Streams {

  const P: nat := 4096

  type Byte = b: int | 0 <= b < 0x100

  type U32 = v: int | 0 <= v < 0x1_0000_0000

  type U16 = v: int | 0 <= v < 0x1_0000

  /** How a signed word is stored, and how an unsigned one is read back. */
  function ToU32(v: int): U32 { v % 0x1_0000_0000 }

  function ToI32(v: U32): int { if v < 0x8000_0000 then v else v - 0x1_0000_0000 }

  predicate IsI32(v: int) { -0x8000_0000 <= v < 0x8000_0000 }

  function ToU16(v: int): U16 { v % 0x1_0000 }

  function ToI16(v: U16): int { if v < 0x8000 then v else v - 0x1_0000 }

  /** The last n base-256 digits of v, most significant first. */
  function Digits(v: nat, n: nat): (r: seq<Byte>)
    ensures |r| == n
  {
    if n == 0 then [] else Digits(v / 0x100, n - 1) + [v % 0x100]
  }

  /** The number a sequence of base-256 digits stands for. */
  function Number(b: seq<Byte>): nat {
    if b == [] then 0 else Number(b[..|b| - 1]) * 0x100 + b[|b| - 1] as nat
  }

  function Bound(n: nat): nat {
    if n == 0 then 1 else 0x100 * Bound(n - 1)
  }

  lemma {:induction false} NumberOfDigits(v: nat, n: nat)
    requires v < Bound(n)
    ensures Number(Digits(v, n)) == v
  {
    if n > 0 {
      NumberOfDigits(v / 0x100, n - 1);
      assert Digits(v, n)[..n - 1] == Digits(v / 0x100, n - 1);
    }
  }

  lemma {:induction false} NumberIsSmall(b: seq<Byte>)
    ensures Number(b) < Bound(|b|)
  {
    if b != [] {
      NumberIsSmall(b[..|b| - 1]);
    }
  }

  function Bytes32(v: U32): (r: seq<Byte>) { Digits(v, 4) }

  function Word32(b: seq<Byte>): U32
    requires |b| == 4
  {
    NumberIsSmall(b);
    assert Bound(4) == 0x1_0000_0000;
    Number(b)
  }

  function Bytes16(v: U16): (r: seq<Byte>) { Digits(v, 2) }

  function Word16(b: seq<Byte>): U16
    requires |b| == 2
  {
    NumberIsSmall(b);
    assert Bound(2) == 0x1_0000;
    Number(b)
  }

  /** Words are stored with their most significant byte first. */
  lemma BigEndian32(v: U32)
    ensures var b := Bytes32(v);
            b[0] == v / 0x100_0000 && b[1] == v / 0x1_0000 % 0x100 && b[2] == v / 0x100 % 0x100 && b[3] == v % 0x100
  {
    var w := v / 0x100 / 0x100;
    assert Digits(w, 2) == [w / 0x100 % 0x100, w % 0x100] by { TwoDigits(w); }
    assert Digits(v, 4) == Digits(w, 2) + [v / 0x100 % 0x100] + [v % 0x100];
    assert w == v / 0x1_0000 && w / 0x100 == v / 0x100_0000;
  }

  lemma TwoDigits(v: nat)
    ensures Digits(v, 2) == [v / 0x100 % 0x100, v % 0x100]
  {
    assert Digits(v / 0x100 / 0x100, 0) == [];
    assert Digits(v / 0x100, 1) == [] + [v / 0x100 % 0x100];
  }

  lemma BigEndian16(v: U16)
    ensures Bytes16(v)[0] == v / 0x100 && Bytes16(v)[1] == v % 0x100
  {
    TwoDigits(v);
  }

  lemma Word32RoundTrip(v: int)
    requires IsI32(v)
    ensures ToI32(Word32(Bytes32(ToU32(v)))) == v
  {
    assert Bound(4) == 0x1_0000_0000;
    NumberOfDigits(ToU32(v), 4);
  }

  lemma Word16RoundTrip(v: U16)
    ensures Word16(Bytes16(v)) == v
  {
    assert Bound(2) == 0x1_0000;
    NumberOfDigits(v, 2);
  }

  class Stream {
    var mem: seq<Byte>
    var pos: nat

    ghost predicate Valid()
      reads this
    {
      0 < |mem| && pos <= |mem|
    }

    /** What lies before the cursor. */
    ghost function Written(): seq<Byte>
      requires Valid()
      reads this
    {
      mem[..pos]
    }

    /** What lies behind it. */
    ghost function Unread(): seq<Byte>
      requires Valid()
      reads this
    {
      mem[pos..]
    }

    constructor (mem: seq<Byte>)
      requires |mem| > 0
      ensures Valid() && this.mem == mem && pos == 0
    {
      this.mem := mem;
      pos := 0;
    }

    /** fmwrite: makes room if need be, then copies. */
    method Write(data: seq<Byte>)
      requires Valid()
      modifies this
      ensures Valid() && Written() == old(Written()) + data
    {
      var left := |mem| - pos;
      if |data| > left {
        var needed := (|data| - left) / P;
        var newSize := P + P * needed + |mem|;
        // the grown part of a reallocated buffer is arbitrary, here zeros
        mem := mem + seq(newSize - |mem|, _ => 0);
      }
      mem := mem[..pos] + data + mem[pos + |data|..];
      pos := pos + |data|;
    }

    /** fmread of count items of the given size: reads as many whole items as there are. */
    method Read(size: nat, count: nat) returns (data: seq<Byte>, items: nat)
      requires Valid() && size > 0
      modifies this`pos
      ensures Valid()
      ensures items == if size * count > |old(Unread())| then |old(Unread())| / size else count
      ensures size * items <= |old(Unread())|
      ensures data == old(Unread())[..size * items] && Unread() == old(Unread())[size * items..]
    {
      var left := |mem| - pos;
      items := count;
      if size * count > left {
        items := left / size;
      }
      assert size * items <= left;
      data := mem[pos..pos + size * items];
      pos := pos + size * items;
    }

    method WriteU32(v: U32)
      requires Valid()
      modifies this
      ensures Valid() && Written() == old(Written()) + Bytes32(v)
    {
      Write(Bytes32(v));
    }

    method ReadU32() returns (ok: bool, v: U32)
      requires Valid()
      modifies this`pos
      ensures Valid()
      ensures ok <==> 4 <= |old(Unread())|
      ensures ok ==> v == Word32(old(Unread())[..4]) && Unread() == old(Unread())[4..]
    {
      var data, n := Read(4, 1);
      ok := n == 1;
      v := if ok then Word32(data) else 0;
    }

    method WriteU16(v: U16)
      requires Valid()
      modifies this
      ensures Valid() && Written() == old(Written()) + Bytes16(v)
    {
      Write(Bytes16(v));
    }

    method ReadU16() returns (ok: bool, v: U16)
      requires Valid()
      modifies this`pos
      ensures Valid()
      ensures ok <==> 2 <= |old(Unread())|
      ensures ok ==> v == Word16(old(Unread())[..2]) && Unread() == old(Unread())[2..]
    {
      var data, n := Read(2, 1);
      ok := n == 1;
      v := if ok then Word16(data) else 0;
    }

    method ReadChars(len: nat) returns (ok: bool, data: seq<Byte>)
      requires Valid()
      modifies this`pos
      ensures Valid()
      ensures ok <==> len <= |old(Unread())|
      ensures ok ==> data == old(Unread())[..len] && Unread() == old(Unread())[len..]
    {
      var n;
      data, n := Read(1, len);
      ok := n == len;
    }
  }
}
