/** Octets, fixed-width unsigned integers and big-endian fields.

    Bit operations on a `u8` are written as arithmetic on 0..255; a lemma beside each such function
    proves that it is the shift-and-mask expression the program evaluates. */
module Octets {

  type byte = x: int | 0 <= x < 0x100
  type u16 = x: int | 0 <= x < 0x1_0000
  type u32 = x: int | 0 <= x < 0x1_0000_0000
  type u64 = x: int | 0 <= x < 0x1_0000_0000_0000_0000

  datatype Option<+T> = None | Some(value: T)

  /** `(n as u16).to_be_bytes()`: the cast keeps the low 16 bits. */
  function Be16(n: nat): (r: seq<byte>)
    ensures |r| == 2
  {
    [n / 0x100 % 0x100, n % 0x100]
  }

  /** `(n as u32).to_be_bytes()`: the cast keeps the low 32 bits. */
  function Be32(n: nat): (r: seq<byte>)
    ensures |r| == 4
  {
    [n / 0x100_0000 % 0x100, n / 0x1_0000 % 0x100, n / 0x100 % 0x100, n % 0x100]
  }

  /** `(n as u64).to_be_bytes()`. */
  function Be64(n: nat): (r: seq<byte>)
    ensures |r| == 8
  {
    Be32(n / 0x1_0000_0000) + Be32(n)
  }

  function U16At(s: seq<byte>, i: nat): u16
    requires i + 2 <= |s|
  {
    s[i] as int * 0x100 + s[i + 1]
  }

  function U32At(s: seq<byte>, i: nat): u32
    requires i + 4 <= |s|
  {
    s[i] as int * 0x100_0000 + s[i + 1] as int * 0x1_0000 + s[i + 2] as int * 0x100 + s[i + 3]
  }

  function U64At(s: seq<byte>, i: nat): u64
    requires i + 8 <= |s|
  {
    U32At(s, i) * 0x1_0000_0000 + U32At(s, i + 4)
  }

  /** The octets are the characters of `name`. */
  predicate Spells(b: seq<byte>, name: string) {
    |b| == |name| && forall i :: 0 <= i < |b| ==> b[i] == name[i] as int
  }

  /** `wrapping_add(1)` on a `u16` */
  function WrappingNext(n: u16): u16 {
    if n == 0xFFFF then 0 else n + 1
  }

  lemma Rem16(n: nat, h: nat, x: nat)
    requires n == h * 0x1_0000 + x && x < 0x1_0000
    ensures n % 0x1_0000 == x
  {
  }

  lemma Rem24(n: nat, h: nat, x: nat)
    requires n == h * 0x100_0000 + x && x < 0x100_0000
    ensures n % 0x100_0000 == x
  {
  }

  lemma Rem32(n: nat, h: nat, x: nat)
    requires n == h * 0x1_0000_0000 + x && x < 0x1_0000_0000
    ensures n % 0x1_0000_0000 == x
  {
  }

  /** One more octet of a number. */
  lemma Low16(n: nat)
    ensures n / 0x100 % 0x100 * 0x100 + n % 0x100 == n % 0x1_0000
  {
    var q, r := n / 0x100, n % 0x100;
    var h, l := q / 0x100, q % 0x100;
    Rem16(n, h, l * 0x100 + r);
  }

  lemma Low24(n: nat)
    ensures n / 0x1_0000 % 0x100 * 0x1_0000 + n % 0x1_0000 == n % 0x100_0000
  {
    var q, r := n / 0x1_0000, n % 0x1_0000;
    var h, l := q / 0x100, q % 0x100;
    Rem24(n, h, l * 0x1_0000 + r);
  }

  lemma Low32(n: nat)
    ensures n / 0x100_0000 % 0x100 * 0x100_0000 + n % 0x100_0000 == n % 0x1_0000_0000
  {
    var q, r := n / 0x100_0000, n % 0x100_0000;
    var h, l := q / 0x100, q % 0x100;
    Rem32(n, h, l * 0x100_0000 + r);
  }

  /** Reading back a written field gives the value modulo the field's width. */
  lemma Be16RoundTrip(n: nat)
    ensures U16At(Be16(n), 0) == n % 0x1_0000
  {
    Low16(n);
  }

  lemma Be32RoundTrip(n: nat)
    ensures U32At(Be32(n), 0) == n % 0x1_0000_0000
  {
    Low16(n);
    Low24(n);
    Low32(n);
    FourOctets(n / 0x100_0000 % 0x100, n / 0x1_0000 % 0x100, n / 0x100 % 0x100, n % 0x100);
  }

  lemma FourOctets(a: byte, b: byte, c: byte, d: byte)
    ensures U32At([a, b, c, d], 0) == a as int * 0x100_0000 + b as int * 0x1_0000 + c as int * 0x100 + d
  {
  }

  lemma Be32Exact(n: u32)
    ensures U32At(Be32(n), 0) == n
  {
    hide U32At, Be32;
    Be32RoundTrip(n);
  }

  lemma TwoWords(a: seq<byte>, b: seq<byte>)
    requires |a| == 4 && |b| == 4
    ensures U64At(a + b, 0) == U32At(a, 0) as int * 0x1_0000_0000 + U32At(b, 0)
  {
    WordsApart(a, b);
    hide U32At;
  }

  lemma WordsApart(a: seq<byte>, b: seq<byte>)
    requires |a| == 4 && |b| == 4
    ensures U32At(a + b, 0) == U32At(a, 0) && U32At(a + b, 4) == U32At(b, 0)
  {
  }

  lemma Be64RoundTrip(n: u64)
    ensures U64At(Be64(n), 0) == n
  {
    hide U32At, Be32, U64At;
    Be32RoundTrip(n / 0x1_0000_0000);
    Be32RoundTrip(n);
    TwoWords(Be32(n / 0x1_0000_0000), Be32(n));
  }

  function Flatten<T>(ss: seq<seq<T>>): seq<T> {
    if ss == [] then [] else ss[0] + Flatten(ss[1..])
  }

  lemma {:induction false} FlattenConcat<T>(a: seq<seq<T>>, b: seq<seq<T>>)
    ensures Flatten(a + b) == Flatten(a) + Flatten(b)
  {
    if a == [] {
      assert a + b == b;
    } else {
      assert (a + b)[1..] == a[1..] + b;
      FlattenConcat(a[1..], b);
    }
  }

  /** `(b & 0x81) | (t << 1)` for a six-bit `t`: the outer bits are kept, the others replaced. */
  lemma OuterBitsWithType(b: bv8, t: bv8)
    requires t < 64
    ensures ((b & 0x81) | (t << 1)) as int == b as int / 128 * 128 + b as int % 2 + t as int * 2
  {
  }

  /** `(b >> 1) & 0x3F` in two steps */
  lemma ShiftAndMask(b: bv8)
    ensures ((b >> 1) & 0x3F) as int == b as int / 2 % 64
  {
    var h := b >> 1;
    assert h as int == b as int / 2;
    assert (h & 0x3F) as int == h as int % 64;
  }
}
