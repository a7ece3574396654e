/** Big-endian numbers, lists of items, and readers that return a zero value when the input is too short. */
module Codec {
  import opened Lists

  newtype byte = x: int | 0 <= x < 256
  type u64 = x: int | 0 <= x < 0x1_0000_0000_0000_0000
  type u32 = x: int | 0 <= x < 0x1_0000_0000

  const TWO32 := 0x1_0000_0000
  const TWO64 := 0x1_0000_0000_0000_0000

  datatype Option<+T> = None | Some(value: T)

  /** A value and the input behind it. */
  datatype Read<+T> = Read(value: T, rest: seq<byte>)

  function BigEndian(x: nat, n: nat): (bytes: seq<byte>)
    ensures |bytes| == n
    decreases n, x
  {
    if n == 0 then [] else BigEndian(x / 256, n - 1) + [(x % 256) as byte]
  }

  function Value(bytes: seq<byte>): nat
  {
    if bytes == [] then 0 else Value(bytes[..|bytes| - 1]) * 256 + bytes[|bytes| - 1] as nat
  }

  function Pow256(n: nat): nat
  {
    if n == 0 then 1 else Pow256(n - 1) * 256
  }

  lemma {:induction false} ValueBelow(bytes: seq<byte>)
    ensures Value(bytes) < Pow256(|bytes|)
  {
    if bytes != [] { ValueBelow(bytes[..|bytes| - 1]); }
  }

  lemma {:induction false} ValueOfBigEndian(x: nat, n: nat)
    requires x < Pow256(n)
    ensures Value(BigEndian(x, n)) == x
    decreases n
  {
    if n > 0 {
      ValueOfBigEndian(x / 256, n - 1);
      var bytes := BigEndian(x, n);
      assert bytes[..n - 1] == BigEndian(x / 256, n - 1);
    }
  }

  /** The first byte is the most significant one. */
  lemma FourBytes(x: nat)
    ensures BigEndian(x, 4) ==
      [(x / 256 / 256 / 256 % 256) as byte, (x / 256 / 256 % 256) as byte, (x / 256 % 256) as byte, (x % 256) as byte]
  {
    var y := x / 256;
    var z := y / 256;
    assert BigEndian(z / 256, 1) == [] + [(z / 256 % 256) as byte];
    assert BigEndian(z, 2) == BigEndian(z / 256, 1) + [(z % 256) as byte];
    assert BigEndian(y, 3) == BigEndian(z, 2) + [(y % 256) as byte];
    assert BigEndian(x, 4) == BigEndian(y, 3) + [(x % 256) as byte];
  }

  lemma EightBytes(x: nat)
    ensures BigEndian(x, 8) == BigEndian(x / 256 / 256 / 256 / 256, 4) + BigEndian(x, 4)
  {
    FourBytes(x);
    var y := x / 256;
    var z := y / 256;
    var u := z / 256;
    assert BigEndian(u, 5) == BigEndian(u / 256, 4) + [(u % 256) as byte];
    assert BigEndian(z, 6) == BigEndian(u, 5) + [(z % 256) as byte];
    assert BigEndian(y, 7) == BigEndian(z, 6) + [(y % 256) as byte];
    assert BigEndian(x, 8) == BigEndian(y, 7) + [(x % 256) as byte];
  }

  lemma Widths()
    ensures Pow256(4) == TWO32 && Pow256(8) == TWO64
  {
  }

  /** Too few bytes leave the number at zero and use up what is there. */
  function ReadNumber(r: seq<byte>, n: nat): Read<nat>
  {
    if |r| < n then Read(0, []) else Read(Value(r[..n]), r[n..])
  }

  lemma NumberRead(x: nat, n: nat, rest: seq<byte>)
    requires x < Pow256(n)
    ensures ReadNumber(BigEndian(x, n) + rest, n) == Read(x, rest)
  {
    ValueOfBigEndian(x, n);
    assert (BigEndian(x, n) + rest)[..n] == BigEndian(x, n);
    assert (BigEndian(x, n) + rest)[n..] == rest;
  }

  function U32(x: u32): seq<byte>
  {
    BigEndian(x, 4)
  }

  function U64(x: u64): seq<byte>
  {
    BigEndian(x, 8)
  }

  function ReadU32(r: seq<byte>): Read<u32>
  {
    var read := ReadNumber(r, 4);
    if |r| < 4 then Read(0, read.rest)
    else
      ValueBelow(r[..4]);
      Widths();
      Read(read.value, read.rest)
  }

  function ReadU64(r: seq<byte>): Read<u64>
  {
    var read := ReadNumber(r, 8);
    if |r| < 8 then Read(0, read.rest)
    else
      ValueBelow(r[..8]);
      Widths();
      Read(read.value, read.rest)
  }

  lemma U32Read(x: u32, rest: seq<byte>)
    ensures ReadU32(U32(x) + rest) == Read(x, rest)
  {
    Widths();
    NumberRead(x, 4, rest);
  }

  lemma U64Read(x: u64, rest: seq<byte>)
    ensures ReadU64(U64(x) + rest) == Read(x, rest)
  {
    Widths();
    NumberRead(x, 8, rest);
  }

  lemma {:induction false} BigEndianOfValue(bytes: seq<byte>)
    ensures BigEndian(Value(bytes), |bytes|) == bytes
  {
    if bytes != [] {
      var front, last := bytes[..|bytes| - 1], bytes[|bytes| - 1];
      BigEndianOfValue(front);
      assert Value(bytes) / 256 == Value(front) && Value(bytes) % 256 == last as nat;
      assert bytes == front + [last];
    }
  }

  /** Four bytes are read as `x` exactly when they are those of `x`. */
  lemma FourBytesAre(r: seq<byte>, x: u32)
    requires |r| >= 4
    ensures ReadU32(r).value == x <==> r[..4] == U32(x)
    ensures ReadU32(r).rest == r[4..]
  {
    BigEndianOfValue(r[..4]);
    U32Read(x, r[4..]);
    assert r == r[..4] + r[4..];
  }

  // ---------- Lists ----------

  function Many<T(!new)>(write: T -> seq<byte>, items: seq<T>): seq<byte>
  {
    if items == [] then [] else write(items[0]) + Many(write, items[1..])
  }

  /** Reads `n` items; an item that does not make sense spoils the list. */
  function ReadMany<T(!new)>(read: seq<byte> -> Read<Option<T>>, r: seq<byte>, n: nat): Read<Option<seq<T>>>
    decreases n, r
  {
    if n == 0 then Read(Some([]), r)
    else
      var first := read(r);
      var others := ReadMany(read, first.rest, n - 1);
      if first.value.Some? && others.value.Some? then Read(Some([first.value.value] + others.value.value), others.rest)
      else Read(None, others.rest)
  }

  /** A reader that undoes the writer on every item undoes the writing of the whole list. */
  lemma {:induction false} ManyRead<T(!new)>(write: T -> seq<byte>, read: seq<byte> -> Read<Option<T>>, items: seq<T>, rest: seq<byte>)
    requires forall x, more | x in items :: read(write(x) + more) == Read(Some(x), more)
    ensures ReadMany(read, Many(write, items) + rest, |items|) == Read(Some(items), rest)
    decreases |items|
  {
    if items == [] {
      assert [] + rest == rest;
    } else {
      var first, others := write(items[0]), Many(write, items[1..]);
      Regroup(first, others, rest);
      assert items == [items[0]] + items[1..];
      assert read(write(items[0]) + (others + rest)) == Read(Some(items[0]), others + rest);
      ManyRead(write, read, items[1..], rest);
    }
  }
}
