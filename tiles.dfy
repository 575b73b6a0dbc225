/** TilePixel, Tile and Tiles of src/core/Tiles.ts: the 2bpp planar tile codec
    (Pan Docs, "Tile Data"), rendering through a palette, and slicing a palette-
    quantised RGBA image into tiles. */
module TileData {
  import opened Results
  import opened Palettes

  /** `new TilePixel(color)`: a colour index, checked to lie in 0..3. */
  datatype TilePixel = TilePixel(color: ColorIndex)
  {
    static function Create(color: int): (r: Result<TilePixel>)
      ensures r.Ok? <==> 0 <= color <= 3
      ensures r.Ok? ==> r.value.color == color
      ensures r.Err? ==> r.error == ColorOutOfRange
    {
      if color < 0 || color > 3 then Err(ColorOutOfRange) else Ok(TilePixel(color))
    }
  }

  /** An 8x8 grid of pixels, rows first. */
  datatype Tile = Tile(pixels: seq<seq<TilePixel>>)
  {
    /** The shape the constructor enforces: 8 rows of 8 pixels. */
    predicate Valid() {
      |pixels| == 8 && forall y :: 0 <= y < 8 ==> |pixels[y]| == 8
    }

    /** `new Tile(pixels)`: the row count is checked first, then each row's length. */
    static method Create(pixels: seq<seq<TilePixel>>) returns (r: Result<Tile>)
      ensures r.Ok? <==> Tile(pixels).Valid()
      ensures r.Ok? ==> r.value.pixels == pixels
      ensures r.Err? && |pixels| != 8 ==> r.error == TileRowCount
      ensures r.Err? && |pixels| == 8 ==> r.error == TileColumnCount
    {
      if |pixels| != 8 {
        return Err(TileRowCount);
      }
      for y := 0 to 8
        invariant forall y' :: 0 <= y' < y ==> |pixels[y']| == 8
      {
        if |pixels[y]| != 8 {
          return Err(TileColumnCount);
        }
      }
      return Ok(Tile(pixels));
    }

    /** Equal colour values at all 64 positions. */
    predicate SamePixels(other: Tile)
      requires Valid() && other.Valid()
    {
      forall y, x :: 0 <= y < 8 && 0 <= x < 8 ==> pixels[y][x].color == other.pixels[y][x].color
    }

    /** `equals(tile)`: a double loop that stops at the first differing pixel. */
    method Equals(other: Tile) returns (r: bool)
      requires Valid() && other.Valid()
      ensures r <==> SamePixels(other)
    {
      for y := 0 to 8
        invariant forall y', x :: 0 <= y' < y && 0 <= x < 8 ==> pixels[y'][x].color == other.pixels[y'][x].color
      {
        for x := 0 to 8
          invariant forall x' :: 0 <= x' < x ==> pixels[y][x'].color == other.pixels[y][x'].color
        {
          if pixels[y][x].color != other.pixels[y][x].color {
            return false;
          }
        }
      }
      return true;
    }

    /** `toGBDKBytes()`: per row, the low-plane byte then the high-plane byte. */
    method ToGBDKBytes() returns (bytes: seq<bv8>)
      requires Valid()
      ensures bytes == Encode(this)
    {
      bytes := [];
      for y := 0 to 8
        invariant bytes == Encode(this)[..2 * y]
      {
        var lowByte, highByte := PackRow(pixels[y]);
        assert (2 * y) / 2 == y && (2 * y) % 2 == 0 && (2 * y + 1) / 2 == y && (2 * y + 1) % 2 == 1;
        assert Encode(this)[..2 * y + 2] == Encode(this)[..2 * y] + [lowByte, highByte];
        bytes := bytes + [lowByte, highByte];
      }
    }

    /** `Tile.fromGBDKBytes(bytes)`: exactly 16 bytes, or an error. */
    static method FromGBDKBytes(bytes: seq<bv8>) returns (r: Result<Tile>)
      ensures r.Ok? <==> |bytes| == 16
      ensures r.Ok? ==> r.value == Decode(bytes)
      ensures r.Err? ==> r.error == TileByteCount
    {
      if |bytes| != 16 {
        return Err(TileByteCount);
      }
      ghost var decoded := Decode(bytes).pixels;
      var pixels: seq<seq<TilePixel>> := [];
      var i := 0;
      while i < 16
        invariant 0 <= i <= 16 && i == 2 * |pixels|
        invariant pixels == decoded[..|pixels|]
      {
        ghost var y := |pixels|;
        var lowByte := bytes[i];
        var highByte := bytes[i + 1];
        var row: seq<TilePixel> := [];
        for x := 0 to 8
          invariant row == decoded[y][..x]
        {
          var color := ((highByte >> (7 - x)) & 1) << 1;
          color := color | ((lowByte >> (7 - x)) & 1);
          assert color as int == DecodePixel(lowByte, highByte, x) as int;
          var pixel := TilePixel.Create(color as int);
          assert pixel.Ok?;  // two bits never exceed 3
          assert decoded[y][..x + 1] == decoded[y][..x] + [pixel.value];
          row := row + [pixel.value];
        }
        assert row == decoded[y];
        assert decoded[..y + 1] == decoded[..y] + [row];
        pixels := pixels + [row];
        i := i + 2;
      }
      assert pixels == decoded;
      r := Create(pixels);
      assert r.Ok?;  // eight rows of eight were built
    }

    /** `toUint8Array(palette)`: 64 RGBA pixels, row-major, alpha 255. */
    method ToUint8Array(palette: Palette) returns (image: array<Uint8>)
      requires Valid()
      ensures fresh(image) && image.Length == 256
      ensures forall y, x, c :: 0 <= y < 8 && 0 <= x < 8 && 0 <= c < 4 ==>
        image[PixelByte(y, x, c)] == Channel(palette.Colors()[pixels[y][x].color], c)
    {
      ghost var colors := palette.Colors();
      image := new Uint8[8 * 8 * 4];
      for y := 0 to 8
        invariant forall y', x', c :: 0 <= y' < y && 0 <= x' < 8 && 0 <= c < 4 ==>
          image[PixelByte(y', x', c)] == Channel(colors[pixels[y'][x'].color], c)
      {
        for x := 0 to 8
          invariant forall y', x', c :: 0 <= y' < y && 0 <= x' < 8 && 0 <= c < 4 ==>
            image[PixelByte(y', x', c)] == Channel(colors[pixels[y'][x'].color], c)
          invariant forall x', c :: 0 <= x' < x && 0 <= c < 4 ==>
            image[PixelByte(y, x', c)] == Channel(colors[pixels[y][x'].color], c)
        {
          var color := palette.Get(pixels[y][x].color);
          assert color.Ok?;  // a pixel colour is always a slot index
          var i := (y * 8 + x) * 4;
          assert i == PixelByte(y, x, 0);
          StoreRgba(image, i, color.value);
        }
      }
    }
  }

  /** The four stores of one pixel: red, green and blue as `Uint8Array` stores, then
      an opaque alpha. */
  method StoreRgba(image: array<Uint8>, i: int, color: PaletteColor)
    requires 0 <= i && i + 4 <= image.Length
    modifies image
    ensures image[i] == Channel(color, 0) && image[i + 1] == Channel(color, 1)
    ensures image[i + 2] == Channel(color, 2) && image[i + 3] == Channel(color, 3)
    ensures forall j :: 0 <= j < image.Length && !(i <= j < i + 4) ==> image[j] == old(image[j])
  {
    image[i] := ToUint8(color.red);
    image[i + 1] := ToUint8(color.green);
    image[i + 2] := ToUint8(color.blue);
    image[i + 3] := 255;
  }

  /** The inner loop of `toGBDKBytes`: the low-plane and high-plane bytes of a row,
      the leftmost pixel in the most significant bit. */
  method PackRow(row: seq<TilePixel>) returns (lowByte: bv8, highByte: bv8)
    requires |row| == 8
    ensures lowByte == PackBits(LowBits(row), 8) && highByte == PackBits(HighBits(row), 8)
  {
    lowByte, highByte := 0, 0;
    ghost var low, high := LowBits(row), HighBits(row);
    for x := 0 to 8
      invariant lowByte == PackBits(low, x)
      invariant highByte == PackBits(high, x)
    {
      var color := row[x].color as bv8;
      assert low[x] == color & 1 && high[x] == (color >> 1) & 1;
      lowByte := SetColumn(lowByte, color & 1, x);
      highByte := SetColumn(highByte, (color >> 1) & 1, x);
    }
  }

  /** The position in the rendered image of channel c (red, green, blue, alpha) of
      pixel (y, x). */
  function PixelByte(y: int, x: int, c: int): (i: int)
    ensures 0 <= y < 8 && 0 <= x < 8 && 0 <= c < 4 ==> 0 <= i < 256
  {
    (y * 8 + x) * 4 + c
  }

  /** Channel c of a palette colour as a rendered byte; the alpha channel is opaque. */
  function Channel(color: PaletteColor, c: int): Uint8 {
    if c == 0 then ToUint8(color.red)
    else if c == 1 then ToUint8(color.green)
    else if c == 2 then ToUint8(color.blue)
    else 255
  }

  /** The rendered image is laid out without gaps or overlaps: every byte is one
      channel of one pixel, and distinct channels of distinct pixels are distinct
      bytes. */
  lemma PixelBytesCover(i: int)
    requires 0 <= i < 256
    ensures var k := i / 4; i == PixelByte(k / 8, k % 8, i % 4)
    ensures forall y, x, c :: 0 <= y < 8 && 0 <= x < 8 && 0 <= c < 4 && PixelByte(y, x, c) == i ==>
      y == i / 32 && x == (i / 4) % 8 && c == i % 4
  {
    var k := i / 4;
    assert i == 4 * k + i % 4;
    assert k == 8 * (k / 8) + k % 8;
    forall y, x, c | 0 <= y < 8 && 0 <= x < 8 && 0 <= c < 4 && PixelByte(y, x, c) == i
      ensures y == i / 32 && x == (i / 4) % 8 && c == i % 4
    {
      assert i == 4 * (8 * y + x) + c;
      assert i / 4 == 8 * y + x;
      assert i / 32 == y;
    }
  }

  /** Storing a number into a `Uint8Array` keeps it modulo 256. */
  function ToUint8(v: int): (b: Uint8)
    ensures 0 <= v < 256 ==> b == v
  {
    v % 256
  }

  // ---------------------------------------------------------------------------
  // The 2bpp planar format as functions

  /** `color & 1`, the low-plane bit of a colour index. */
  function LowBit(c: ColorIndex): bv8 {
    (c as bv8) & 1
  }

  /** `(color >> 1) & 1`, the high-plane bit of a colour index. */
  function HighBit(c: ColorIndex): bv8 {
    ((c as bv8) >> 1) & 1
  }

  function LowBits(row: seq<TilePixel>): (bits: seq<bv8>)
    ensures |bits| == |row|
  {
    seq(|row|, x requires 0 <= x < |row| => LowBit(row[x].color))
  }

  function HighBits(row: seq<TilePixel>): (bits: seq<bv8>)
    ensures |bits| == |row|
  {
    seq(|row|, x requires 0 <= x < |row| => HighBit(row[x].color))
  }

  /** The OR of `bits[x] << (7 - x)` over the first n columns: the accumulator of
      `toGBDKBytes` after n steps. */
  function PackBits(bits: seq<bv8>, n: nat): bv8
    requires n <= |bits| <= 8
  {
    if n == 0 then 0 else SetColumn(PackBits(bits, n - 1), bits[n - 1], n - 1)
  }

  /** `acc | (bit << (7 - x))`: the accumulator with a bit ORed in at column x. */
  function SetColumn(acc: bv8, bit: bv8, x: nat): bv8
    requires x < 8
  {
    acc | (bit << (7 - x))
  }

  /** Bit (7 - x) of a byte: the bit of column x, the leftmost pixel being the MSB. */
  function BitAt(b: bv8, x: nat): (r: bv8)
    requires x < 8
    ensures r <= 1
  {
    (b >> (7 - x)) & 1
  }

  /** The 16-byte encoding of a tile. */
  function Encode(t: Tile): (bytes: seq<bv8>)
    requires t.Valid()
    ensures |bytes| == 16
  {
    seq(16, i requires 0 <= i < 16 =>
      if i % 2 == 0 then PackBits(LowBits(t.pixels[i / 2]), 8)
      else PackBits(HighBits(t.pixels[i / 2]), 8))
  }

  /** The colour of column x read from a row's low and high bytes. */
  function DecodePixel(low: bv8, high: bv8, x: nat): (c: ColorIndex)
    requires x < 8
    ensures c == 2 * (BitAt(high, x) as int) + BitAt(low, x) as int
  {
    var v := (((high >> (7 - x)) & 1) << 1) | ((low >> (7 - x)) & 1);
    assert v <= 3 && v as int == 2 * (BitAt(high, x) as int) + BitAt(low, x) as int;
    v as int
  }

  /** The tile described by 16 bytes. */
  function Decode(bytes: seq<bv8>): (t: Tile)
    requires |bytes| == 16
    ensures t.Valid()
  {
    Tile(seq(8, y requires 0 <= y < 8 =>
      seq(8, x requires 0 <= x < 8 => TilePixel(DecodePixel(bytes[2 * y], bytes[2 * y + 1], x)))))
  }

  // ---------------------------------------------------------------------------
  // Properties of the codec

  /** A one-bit value shifted to column k shows up at column k only. */
  lemma BitOfShifted(b: bv8, k: nat, x: nat)
    requires b <= 1 && k < 8 && x < 8
    ensures BitAt(b << (7 - k), x) == if x == k then b else 0
  {
  }

  lemma BitAtOr(a: bv8, b: bv8, x: nat)
    requires x < 8
    ensures BitAt(a | b, x) == BitAt(a, x) | BitAt(b, x)
  {
  }

  /** After n columns, the accumulator holds bits[x] at column x for x < n and
      nothing at the other columns. */
  lemma {:induction false} PackBitsAt(bits: seq<bv8>, n: nat, x: nat)
    requires |bits| == 8 && n <= 8 && x < 8
    requires forall i :: 0 <= i < 8 ==> bits[i] <= 1
    ensures BitAt(PackBits(bits, n), x) == if x < n then bits[x] else 0
  {
    if n > 0 {
      PackBitsAt(bits, n - 1, x);
      BitAtOr(PackBits(bits, n - 1), bits[n - 1] << (7 - (n - 1)), x);
      BitOfShifted(bits[n - 1], n - 1, x);
    }
  }

  /** A byte is determined by its eight column bits. */
  lemma ByteFromBits(a: bv8, b: bv8)
    requires forall x :: 0 <= x < 8 ==> BitAt(a, x) == BitAt(b, x)
    ensures a == b
  {
    assert BitAt(a, 0) == BitAt(b, 0) && BitAt(a, 1) == BitAt(b, 1);
    assert BitAt(a, 2) == BitAt(b, 2) && BitAt(a, 3) == BitAt(b, 3);
    assert BitAt(a, 4) == BitAt(b, 4) && BitAt(a, 5) == BitAt(b, 5);
    assert BitAt(a, 6) == BitAt(b, 6) && BitAt(a, 7) == BitAt(b, 7);
  }

  lemma PlaneBitsAreBits(row: seq<TilePixel>)
    requires |row| == 8
    ensures forall i :: 0 <= i < 8 ==> LowBits(row)[i] <= 1 && HighBits(row)[i] <= 1
  {
  }

  /** The format: bit (7 - x) of byte 2y is `color & 1` of pixel (y, x), and bit
      (7 - x) of byte 2y + 1 is `(color >> 1) & 1`. */
  lemma EncodeBits(t: Tile, y: nat, x: nat)
    requires t.Valid() && y < 8 && x < 8
    ensures BitAt(Encode(t)[2 * y], x) == LowBit(t.pixels[y][x].color)
    ensures BitAt(Encode(t)[2 * y + 1], x) == HighBit(t.pixels[y][x].color)
  {
    var row := t.pixels[y];
    PlaneBitsAreBits(row);
    PackBitsAt(LowBits(row), 8, x);
    PackBitsAt(HighBits(row), 8, x);
    assert (2 * y) / 2 == y && (2 * y + 1) / 2 == y;
  }

  /** A colour index is recovered from its two plane bits. */
  lemma ColorFromPlaneBits(c: ColorIndex)
    ensures 2 * (HighBit(c) as int) + LowBit(c) as int == c
  {
  }

  /** Decoding the encoding of a tile gives the tile back. */
  lemma DecodeEncode(t: Tile)
    requires t.Valid()
    ensures Decode(Encode(t)) == t
  {
    var d := Decode(Encode(t));
    forall y | 0 <= y < 8
      ensures d.pixels[y] == t.pixels[y]
    {
      forall x | 0 <= x < 8
        ensures d.pixels[y][x] == t.pixels[y][x]
      {
        EncodeBits(t, y, x);
        ColorFromPlaneBits(t.pixels[y][x].color);
      }
    }
  }

  /** The column bits of a byte, leftmost first. */
  function BitsOf(b: bv8): (bits: seq<bv8>)
    ensures |bits| == 8
  {
    seq(8, x requires 0 <= x < 8 => BitAt(b, x))
  }

  lemma PackBitsOf(b: bv8)
    ensures PackBits(BitsOf(b), 8) == b
  {
    forall x | 0 <= x < 8
      ensures BitAt(PackBits(BitsOf(b), 8), x) == BitAt(b, x)
    {
      PackBitsAt(BitsOf(b), 8, x);
    }
    ByteFromBits(PackBits(BitsOf(b), 8), b);
  }

  /** The plane bits of a decoded pixel are the column bits of its two bytes. */
  lemma PlaneBitsOfDecoded(low: bv8, high: bv8, x: nat)
    requires x < 8
    ensures LowBit(DecodePixel(low, high, x)) == BitAt(low, x)
    ensures HighBit(DecodePixel(low, high, x)) == BitAt(high, x)
  {
    var l, h := BitAt(low, x), BitAt(high, x);
    assert DecodePixel(low, high, x) as bv8 == (h << 1) | l;
  }

  /** Encoding the tile decoded from 16 bytes gives the bytes back. */
  lemma EncodeDecode(bytes: seq<bv8>)
    requires |bytes| == 16
    ensures Encode(Decode(bytes)) == bytes
  {
    var t := Decode(bytes);
    forall i | 0 <= i < 16
      ensures Encode(t)[i] == bytes[i]
    {
      var y := i / 2;
      var row := t.pixels[y];
      forall x | 0 <= x < 8
        ensures LowBits(row)[x] == BitsOf(bytes[2 * y])[x]
        ensures HighBits(row)[x] == BitsOf(bytes[2 * y + 1])[x]
      {
        PlaneBitsOfDecoded(bytes[2 * y], bytes[2 * y + 1], x);
      }
      assert LowBits(row) == BitsOf(bytes[2 * y]);
      assert HighBits(row) == BitsOf(bytes[2 * y + 1]);
      PackBitsOf(bytes[2 * y]);
      PackBitsOf(bytes[2 * y + 1]);
    }
  }

  /** Two valid tiles are `equals` exactly when they are the same value, so `equals`
      is reflexive, symmetric and transitive. */
  lemma SamePixelsIffEqual(a: Tile, b: Tile)
    requires a.Valid() && b.Valid()
    ensures a.SamePixels(b) <==> a == b
  {
    if a.SamePixels(b) {
      forall y | 0 <= y < 8
        ensures a.pixels[y] == b.pixels[y]
      {
        assert forall x :: 0 <= x < 8 ==> a.pixels[y][x] == b.pixels[y][x];
      }
    }
  }

  /** A row of pixels from a list of colour indices. */
  function Row(colors: seq<ColorIndex>): (row: seq<TilePixel>)
    ensures |row| == |colors|
  {
    seq(|colors|, i requires 0 <= i < |colors| => TilePixel(colors[i]))
  }

  /** The tile of the repository's encoding test. */
  function TestTile(): (t: Tile)
    ensures t.Valid()
  {
    Tile([
      Row([0, 2, 3, 3, 3, 3, 2, 0]),
      Row([0, 3, 0, 0, 0, 0, 3, 0]),
      Row([0, 3, 0, 0, 0, 0, 3, 0]),
      Row([0, 3, 0, 0, 0, 0, 3, 0]),
      Row([0, 3, 1, 3, 3, 3, 3, 0]),
      Row([0, 1, 1, 1, 3, 1, 3, 0]),
      Row([0, 3, 1, 3, 1, 3, 2, 0]),
      Row([0, 2, 3, 3, 3, 2, 0, 0])])
  }

  /** The eight columns of a row as one OR of shifted bits. */
  lemma PackBitsClosedForm(bits: seq<bv8>)
    requires |bits| == 8
    ensures PackBits(bits, 8) ==
      (bits[0] << 7) | (bits[1] << 6) | (bits[2] << 5) | (bits[3] << 4) |
      (bits[4] << 3) | (bits[5] << 2) | (bits[6] << 1) | bits[7]
  {
    assert PackBits(bits, 1) == bits[0] << 7;
    assert PackBits(bits, 2) == (bits[0] << 7) | (bits[1] << 6);
    assert PackBits(bits, 4) == (bits[0] << 7) | (bits[1] << 6) | (bits[2] << 5) | (bits[3] << 4);
    assert PackBits(bits, 6) == (bits[0] << 7) | (bits[1] << 6) | (bits[2] << 5) | (bits[3] << 4) |
      (bits[4] << 3) | (bits[5] << 2);
  }

  /** The two bytes of row y of a tile. */
  lemma EncodeRow(t: Tile, y: nat, low: bv8, high: bv8)
    requires t.Valid() && y < 8
    requires var c := t.pixels[y];
      && low == (LowBit(c[0].color) << 7) | (LowBit(c[1].color) << 6) | (LowBit(c[2].color) << 5)
         | (LowBit(c[3].color) << 4) | (LowBit(c[4].color) << 3) | (LowBit(c[5].color) << 2)
         | (LowBit(c[6].color) << 1) | LowBit(c[7].color)
      && high == (HighBit(c[0].color) << 7) | (HighBit(c[1].color) << 6) | (HighBit(c[2].color) << 5)
         | (HighBit(c[3].color) << 4) | (HighBit(c[4].color) << 3) | (HighBit(c[5].color) << 2)
         | (HighBit(c[6].color) << 1) | HighBit(c[7].color)
    ensures Encode(t)[2 * y] == low && Encode(t)[2 * y + 1] == high
  {
    PackBitsClosedForm(LowBits(t.pixels[y]));
    PackBitsClosedForm(HighBits(t.pixels[y]));
    assert (2 * y) / 2 == y && (2 * y + 1) / 2 == y;
  }

  /** The two bytes of a row given by its eight colour indices. */
  lemma EncodeRowOf(t: Tile, y: nat, c0: ColorIndex, c1: ColorIndex, c2: ColorIndex, c3: ColorIndex,
                    c4: ColorIndex, c5: ColorIndex, c6: ColorIndex, c7: ColorIndex, low: bv8, high: bv8)
    requires t.Valid() && y < 8 && t.pixels[y] == Row([c0, c1, c2, c3, c4, c5, c6, c7])
    requires low == (LowBit(c0) << 7) | (LowBit(c1) << 6) | (LowBit(c2) << 5) | (LowBit(c3) << 4)
      | (LowBit(c4) << 3) | (LowBit(c5) << 2) | (LowBit(c6) << 1) | LowBit(c7)
    requires high == (HighBit(c0) << 7) | (HighBit(c1) << 6) | (HighBit(c2) << 5) | (HighBit(c3) << 4)
      | (HighBit(c4) << 3) | (HighBit(c5) << 2) | (HighBit(c6) << 1) | HighBit(c7)
    ensures Encode(t)[2 * y] == low && Encode(t)[2 * y + 1] == high
  {
    EncodeRow(t, y, low, high);
  }

  /** The repository's test vector. */
  lemma EncodeTestTile()
    ensures Encode(TestTile()) == [
      0x3c, 0x7e, 0x42, 0x42, 0x42, 0x42, 0x42, 0x42,
      0x7e, 0x5e, 0x7e, 0x0a, 0x7c, 0x56, 0x38, 0x7c]
  {
    var e := Encode(TestTile());
    EncodeTestTileTop();
    EncodeTestTileBottom();
    assert e == e[..8] + e[8..];
  }

  /** Rows 0 to 3 of the test vector. */
  lemma EncodeTestTileTop()
    ensures Encode(TestTile())[..8] == [0x3c, 0x7e, 0x42, 0x42, 0x42, 0x42, 0x42, 0x42]
  {
    var t := TestTile();
    EncodeRowOf(t, 0, 0, 2, 3, 3, 3, 3, 2, 0, 0x3c, 0x7e);
    EncodeRowOf(t, 1, 0, 3, 0, 0, 0, 0, 3, 0, 0x42, 0x42);
    EncodeRowOf(t, 2, 0, 3, 0, 0, 0, 0, 3, 0, 0x42, 0x42);
    EncodeRowOf(t, 3, 0, 3, 0, 0, 0, 0, 3, 0, 0x42, 0x42);
  }

  /** Rows 4 to 7 of the test vector. */
  lemma EncodeTestTileBottom()
    ensures Encode(TestTile())[8..] == [0x7e, 0x5e, 0x7e, 0x0a, 0x7c, 0x56, 0x38, 0x7c]
  {
    var t := TestTile();
    EncodeRowOf(t, 4, 0, 3, 1, 3, 3, 3, 3, 0, 0x7e, 0x5e);
    EncodeRowOf(t, 5, 0, 1, 1, 1, 3, 1, 3, 0, 0x7e, 0x0a);
    EncodeRowOf(t, 6, 0, 3, 1, 3, 1, 3, 2, 0, 0x7c, 0x56);
    EncodeRowOf(t, 7, 0, 2, 3, 3, 3, 2, 0, 0, 0x38, 0x7c);
  }

  /** A tile whose every pixel is colour 1 encodes to 0xff, 0x00 per row. */
  lemma EncodeAllOnes()
    ensures Encode(Tile(seq(8, _ => Row(seq(8, _ => 1))))) ==
      [0xff, 0x00, 0xff, 0x00, 0xff, 0x00, 0xff, 0x00, 0xff, 0x00, 0xff, 0x00, 0xff, 0x00, 0xff, 0x00]
  {
    var t := Tile(seq(8, _ => Row(seq(8, _ => 1))));
    forall y | 0 <= y < 8
      ensures Encode(t)[2 * y] == 0xff && Encode(t)[2 * y + 1] == 0x00
    {
      EncodeRow(t, y, 0xff, 0x00);
    }
    forall i | 0 <= i < 16
      ensures Encode(t)[i] == if i % 2 == 0 then 0xff else 0x00
    {
      assert i == 2 * (i / 2) + i % 2;
    }
  }

  // ---------------------------------------------------------------------------
  // From a palette-quantised RGBA image to tiles

  /** The RGB of pixel k of an RGBA buffer; the alpha byte is not read. */
  function RgbAt(image: seq<Uint8>, k: nat): PaletteColor
    requires 4 * k + 2 < |image|
  {
    PaletteColor.Create(image[4 * k], image[4 * k + 1], image[4 * k + 2])
  }

  /** Every round of the conversion loop finds its three colour bytes: the length is
      a multiple of 4, or one byte (an alpha) short of one. */
  predicate RgbComplete(image: seq<Uint8>) {
    |image| % 4 == 0 || |image| % 4 == 3
  }

  /** The conversion succeeds: every pixel the loop visits has a palette slot. */
  predicate InPalette(image: seq<Uint8>, palette: Palette)
    reads palette
  {
    && RgbComplete(image)
    && forall k :: 0 <= k < (|image| + 1) / 4 ==> palette.IndexOf(RgbAt(image, k)).Ok?
  }

  /** The palette slot of each whole pixel. */
  function PaletteIndices(image: seq<Uint8>, palette: Palette): (idx: seq<ColorIndex>)
    reads palette
    requires InPalette(image, palette)
    ensures |idx| == |image| / 4
  {
    seq(|image| / 4, k requires 0 <= k < |image| / 4 && palette.IndexOf(RgbAt(image, k)).Ok? reads palette =>
      palette.IndexOf(RgbAt(image, k)).value)
  }

  /** `imageUint8ArrayToImageInPaletteUint8Array(image, palette)`: entry k is the slot
      of the RGB of pixel k. A pixel absent from the palette throws; so does a
      trailing pixel with a missing colour byte, because `undefined` matches no
      channel. A trailing pixel missing only its alpha is looked up, and its slot is
      stored past the end of the result, which a typed array drops. */
  method ImageToPaletteIndices(image: seq<Uint8>, palette: Palette) returns (r: Result<seq<ColorIndex>>)
    ensures r.Ok? <==> InPalette(image, palette)
    ensures r.Ok? ==> |r.value| == |image| / 4
    ensures r.Ok? ==> forall k :: 0 <= k < |r.value| ==> palette.IndexOf(RgbAt(image, k)) == Ok(r.value[k])
    ensures r.Err? ==> r.error == ColorNotFound
  {
    var imageInPalette := new ColorIndex[|image| / 4];
    var i := 0;
    while i < |image|
      invariant 0 <= i <= |image| + 1 && i % 4 == 0
      invariant forall k :: 0 <= k < i / 4 ==> 4 * k + 2 < |image| && palette.IndexOf(RgbAt(image, k)).Ok?
      invariant forall k :: 0 <= k < i / 4 && k < imageInPalette.Length ==>
        palette.IndexOf(RgbAt(image, k)) == Ok(imageInPalette[k])
    {
      if i + 2 >= |image| {
        return Err(ColorNotFound);
      }
      var color := PaletteColor.Create(image[i], image[i + 1], image[i + 2]);
      assert color == RgbAt(image, i / 4);
      var colorIndex := palette.IndexOf(color);
      if colorIndex.Err? {
        return Err(colorIndex.error);
      }
      if i / 4 < imageInPalette.Length {
        imageInPalette[i / 4] := colorIndex.value;
      }
      i := i + 4;
    }
    return Ok(imageInPalette[..]);
  }

  /** The position in the index buffer of pixel (ty, tx) of the block at (y, x). */
  function BlockPixelIndex(width: int, y: int, x: int, ty: int, tx: int): int {
    (y + ty) * width + x + tx
  }

  /** The 8x8 block at image row y, column x lies inside an image of `count` pixels
      and `width` columns. */
  predicate BlockInImage(count: nat, width: int, y: int, x: int) {
    width > 0 && 0 <= x && x + 8 <= width && 0 <= y && y + 8 <= count / width
  }

  lemma MulLe(a: int, b: int, c: int)
    requires 0 <= a <= b && 0 <= c
    ensures a * c <= b * c
  {
  }

  lemma BlockIndices(count: nat, width: int, y: int, x: int)
    requires BlockInImage(count, width, y, x)
    ensures forall ty, tx :: 0 <= ty < 8 && 0 <= tx < 8 ==> 0 <= BlockPixelIndex(width, y, x, ty, tx) < count
  {
    forall ty, tx | 0 <= ty < 8 && 0 <= tx < 8
      ensures 0 <= BlockPixelIndex(width, y, x, ty, tx) < count
    {
      var r, q := y + ty, count / width;
      MulLe(r + 1, q, width);
      assert (r + 1) * width == r * width + width;
      assert q * width + count % width == count;
      assert BlockPixelIndex(width, y, x, ty, tx) == r * width + (x + tx);
      MulLe(0, r, width);
    }
  }

  /** The tile cut from the block at image row y, column x. */
  function BlockTile(idx: seq<ColorIndex>, width: int, y: int, x: int): (t: Tile)
    requires BlockInImage(|idx|, width, y, x)
    ensures t.Valid()
  {
    BlockIndices(|idx|, width, y, x);
    Tile(seq(8, ty requires 0 <= ty < 8 =>
      seq(8, tx requires 0 <= tx < 8 => TilePixel(idx[BlockPixelIndex(width, y, x, ty, tx)]))))
  }

  /** The tiles of image rows y..y+7, left to right. */
  function BlockRow(idx: seq<ColorIndex>, width: int, y: int): (row: seq<Tile>)
    requires width > 0 && width % 8 == 0 && 0 <= y && y + 8 <= |idx| / width
    ensures |row| == width / 8
  {
    seq(width / 8, blockX requires 0 <= blockX < width / 8 => BlockTile(idx, width, y, 8 * blockX))
  }

  /** The tiles of the first `rows` block rows, top to bottom. */
  function SliceRows(idx: seq<ColorIndex>, width: int, rows: nat): (tiles: seq<Tile>)
    requires width > 0 && width % 8 == 0 && 8 * rows <= |idx| / width
    ensures |tiles| == rows * (width / 8)
  {
    if rows == 0 then [] else SliceRows(idx, width, rows - 1) + BlockRow(idx, width, 8 * (rows - 1))
  }

  /** An image of `count` pixels whose width and height are multiples of 8. */
  predicate TileAligned(count: nat, width: int) {
    width > 0 && width % 8 == 0 && count % width == 0 && (count / width) % 8 == 0
  }

  /** The whole image cut into tiles in row-major block order. */
  function SliceImage(idx: seq<ColorIndex>, width: int): seq<Tile>
    requires TileAligned(|idx|, width)
  {
    SliceRows(idx, width, |idx| / width / 8)
  }

  lemma {:induction false} SliceRowsAt(idx: seq<ColorIndex>, width: int, rows: nat, blockY: nat, blockX: nat)
    requires width > 0 && width % 8 == 0 && 8 * rows <= |idx| / width
    requires blockY < rows && blockX < width / 8
    ensures blockY * (width / 8) + blockX < |SliceRows(idx, width, rows)|
    ensures SliceRows(idx, width, rows)[blockY * (width / 8) + blockX] == BlockTile(idx, width, 8 * blockY, 8 * blockX)
  {
    var bw := width / 8;
    MulLe(blockY + 1, rows, bw);
    if blockY < rows - 1 {
      SliceRowsAt(idx, width, rows - 1, blockY, blockX);
    } else {
      assert |SliceRows(idx, width, rows - 1)| == blockY * bw;
    }
  }

  /** In an image W pixels wide and H high there are (H / 8)(W / 8) tiles, and tile
      blockY * (W / 8) + blockX holds, at (ty, tx), index entry
      (8 blockY + ty) W + 8 blockX + tx. */
  lemma SliceImageAt(idx: seq<ColorIndex>, width: int, blockY: nat, blockX: nat, ty: nat, tx: nat)
    requires TileAligned(|idx|, width)
    requires blockY < |idx| / width / 8 && blockX < width / 8 && ty < 8 && tx < 8
    ensures |SliceImage(idx, width)| == (|idx| / width / 8) * (width / 8)
    ensures blockY * (width / 8) + blockX < |SliceImage(idx, width)|
    ensures SliceImage(idx, width)[blockY * (width / 8) + blockX] == BlockTile(idx, width, 8 * blockY, 8 * blockX)
    ensures 0 <= (8 * blockY + ty) * width + 8 * blockX + tx < |idx|
    ensures SliceImage(idx, width)[blockY * (width / 8) + blockX].pixels[ty][tx].color
         == idx[(8 * blockY + ty) * width + 8 * blockX + tx]
  {
    SliceRowsAt(idx, width, |idx| / width / 8, blockY, blockX);
    BlockIndices(|idx|, width, 8 * blockY, 8 * blockX);
    var t := BlockTile(idx, width, 8 * blockY, 8 * blockX);
    assert t.pixels[ty][tx].color == idx[BlockPixelIndex(width, 8 * blockY, 8 * blockX, ty, tx)];
  }

  /** A collection of tiles in the order they were cut from an image. */
  datatype Tiles = Tiles(tiles: seq<Tile>)
  {
    /** `Tiles.fromImageAndPalette(image, palette, width)`: convert to palette slots,
        then cut 8x8 blocks, block rows top to bottom, each left to right. */
    static method FromImageAndPalette(image: seq<Uint8>, palette: Palette, width: int) returns (r: Result<Tiles>)
      requires TileAligned(|image| / 4, width)
      ensures r.Ok? <==> InPalette(image, palette)
      ensures r.Ok? ==> r.value.tiles == SliceImage(PaletteIndices(image, palette), width)
      ensures r.Err? ==> r.error == ColorNotFound
    {
      var converted := ImageToPaletteIndices(image, palette);
      if converted.Err? {
        return Err(converted.error);
      }
      var imageInPalette := converted.value;
      assert imageInPalette == PaletteIndices(image, palette);
      var height := |imageInPalette| / width;
      ghost var blockRows := height / 8;
      assert height == 8 * blockRows;
      var tiles: seq<Tile> := [];
      var y := 0;
      ghost var row := 0;
      while y < height
        invariant 0 <= row <= blockRows && y == 8 * row
        invariant tiles == SliceRows(imageInPalette, width, row)
      {
        ghost var blocks := BlockRow(imageInPalette, width, y);
        var x := 0;
        ghost var column := 0;
        while x < width
          invariant 0 <= column <= width / 8 && x == 8 * column
          invariant tiles == SliceRows(imageInPalette, width, row) + blocks[..column]
        {
          var tile := SliceBlock(imageInPalette, width, y, x);
          assert blocks[..column + 1] == blocks[..column] + [tile];
          tiles := tiles + [tile];
          x := x + 8;
          column := column + 1;
        }
        assert blocks[..column] == blocks;
        y := y + 8;
        row := row + 1;
      }
      return Ok(Tiles(tiles));
    }
  }

  /** The two innermost loops of `fromImageAndPalette`: one 8x8 block, row by row. */
  method SliceBlock(imageInPalette: seq<ColorIndex>, width: int, y: int, x: int) returns (tile: Tile)
    requires BlockInImage(|imageInPalette|, width, y, x)
    ensures tile == BlockTile(imageInPalette, width, y, x)
  {
    BlockIndices(|imageInPalette|, width, y, x);
    ghost var block := BlockTile(imageInPalette, width, y, x);
    var pixels: seq<seq<TilePixel>> := [];
    for tileY := 0 to 8
      invariant pixels == block.pixels[..tileY]
    {
      var row: seq<TilePixel> := [];
      for tileX := 0 to 8
        invariant row == block.pixels[tileY][..tileX]
      {
        var pixelIndex := (y + tileY) * width + x + tileX;
        assert pixelIndex == BlockPixelIndex(width, y, x, tileY, tileX);
        var pixel := TilePixel.Create(imageInPalette[pixelIndex]);
        assert pixel.Ok?;  // every entry is a palette slot
        row := row + [pixel.value];
      }
      assert row == block.pixels[tileY];
      assert block.pixels[..tileY + 1] == block.pixels[..tileY] + [row];
      pixels := pixels + [row];
    }
    var created := Tile.Create(pixels);
    assert created.Ok?;  // eight rows of eight
    tile := created.value;
  }
}
