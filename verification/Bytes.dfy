/**
 Raw bytes, the fixed-width unsigned integers of the source, and their little-endian memory image.
 The source copies integers in and out of buffers with memcpy; every Android target is little-endian.
 */
module Bytes {
  type byte = x: int | 0 <= x < 0x100
  type uint32 = x: int | 0 <= x < 0x1_0000_0000
  type uint64 = x: int | 0 <= x < 0x1_0000_0000_0000_0000

  // The contents of a C++ std::string.
  type Text = seq<byte>

  // 256 to the power `width`: how many values `width` bytes can hold.
  function Span(width: nat): nat {
    if width == 0 then 1 else 0x100 * Span(width - 1)
  }

  // The low `width` bytes of `value`, least significant byte first.
  function LittleEndian(value: nat, width: nat): (image: Text)
    ensures |image| == width
  {
    if width == 0 then [] else [value % 0x100] + LittleEndian(value / 0x100, width - 1)
  }

  function FromLittleEndian(image: Text): nat {
    if image == [] then 0 else image[0] + 0x100 * FromLittleEndian(image[1..])
  }

  lemma {:induction false} FromLittleEndianBound(image: Text)
    ensures FromLittleEndian(image) < Span(|image|)
  {
    if image != [] {
      FromLittleEndianBound(image[1..]);
    }
  }

  // Reading an image back gives the value exactly when the value fits the width.
  lemma {:induction false} LittleEndianRoundTrip(value: nat, width: nat)
    ensures FromLittleEndian(LittleEndian(value, width)) == value <==> value < Span(width)
  {
    if width == 0 {
    } else {
      LittleEndianRoundTrip(value / 0x100, width - 1);
      assert LittleEndian(value, width)[1..] == LittleEndian(value / 0x100, width - 1);
      FromLittleEndianBound(LittleEndian(value / 0x100, width - 1));
    }
  }

  lemma LowByte(low: byte, high: nat)
    ensures (low + 0x100 * high) % 0x100 == low && (low + 0x100 * high) / 0x100 == high
  {
  }

  lemma {:induction false} ImageRoundTrip(image: Text)
    ensures LittleEndian(FromLittleEndian(image), |image|) == image
  {
    if image != [] {
      var high := FromLittleEndian(image[1..]);
      ImageRoundTrip(image[1..]);
      LowByte(image[0], high);
      assert LittleEndian(FromLittleEndian(image), |image|) == [image[0]] + LittleEndian(high, |image| - 1);
    }
  }

  // The widths the command format uses.
  lemma SpanOfWords()
    ensures Span(4) == 0x1_0000_0000
    ensures Span(8) == 0x1_0000_0000_0000_0000
  {
    assert Span(4) == 0x100 * (0x100 * (0x100 * (0x100 * Span(0))));
    assert Span(8) == 0x100 * (0x100 * (0x100 * (0x100 * Span(4))));
  }
}
