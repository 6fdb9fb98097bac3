/** Machine integers, the Option type and big-endian fields shared by the models. */
module Common {

  type Byte = x: int | 0 <= x < 0x100
  type U16 = x: int | 0 <= x < 0x1_0000
  type U32 = x: int | 0 <= x < 0x1_0000_0000

  datatype Option<+T> = None | Some(value: T)

  function Be16(hi: Byte, lo: Byte): U16 {
    hi * 0x100 + lo
  }

  function Be32(b0: Byte, b1: Byte, b2: Byte, b3: Byte): U32 {
    Be16(b0, b1) * 0x1_0000 + Be16(b2, b3)
  }

  function ToBe16(x: U16): (bytes: seq<Byte>)
    ensures |bytes| == 2
    ensures Be16(bytes[0], bytes[1]) == x
  {
    [x / 0x100, x % 0x100]
  }

  function ToBe32(x: U32): (bytes: seq<Byte>)
    ensures |bytes| == 4
    ensures Be32(bytes[0], bytes[1], bytes[2], bytes[3]) == x
  {
    ToBe16(x / 0x1_0000) + ToBe16(x % 0x1_0000)
  }

  lemma {:induction false} Be16RoundTrip(hi: Byte, lo: Byte)
    ensures ToBe16(Be16(hi, lo)) == [hi, lo]
  {
    var bytes := ToBe16(Be16(hi, lo));
    var x: int, y: int := bytes[0], bytes[1];
    assert x * 0x100 + y == hi * 0x100 + lo;
  }

  lemma {:induction false} Be32RoundTrip(b0: Byte, b1: Byte, b2: Byte, b3: Byte)
    ensures ToBe32(Be32(b0, b1, b2, b3)) == [b0, b1, b2, b3]
  {
    var x := Be32(b0, b1, b2, b3);
    var hi: U16, lo: U16 := Be16(b0, b1), Be16(b2, b3);
    hide Be16, ToBe16;
    assert x / 0x1_0000 == hi && x % 0x1_0000 == lo;
    Be16RoundTrip(b0, b1);
    Be16RoundTrip(b2, b3);
  }

  function Min(a: int, b: int): int {
    if a <= b then a else b
  }

  function Max(a: int, b: int): int {
    if a >= b then a else b
  }

  lemma {:induction false} MulMono(a: int, b: int, c: nat)
    requires a <= b
    ensures a * c <= b * c
  {
    assert (b - a) * c >= 0;
  }
}
