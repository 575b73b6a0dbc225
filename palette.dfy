/** PaletteColor and Palette of src/core/Palette.ts. */
module Palettes {
  import opened Results
  import opened Helpers

  /** A palette slot, and so a colour index of a tile pixel: 0..3. */
  type ColorIndex = i: int | 0 <= i <= 3

  /** `Math.max(0, Math.min(255, v))`: computed by the constructor and then dropped. */
  function Clamp(v: int): (r: int)
    ensures 0 <= r <= 255
    ensures 0 <= v <= 255 ==> r == v
  {
    if v < 0 then 0 else if v > 255 then 255 else v
  }

  /** An element of a `Uint8Array` or `Uint8ClampedArray`. */
  type Uint8 = b: int | 0 <= b < 256

  /** The argument of `PaletteColor.equals`: another colour, a hex string or a byte array. */
  datatype ColorLike =
    | AColor(color: PaletteColor)
    | AHex(hex: string)
    | ABytes(bytes: seq<Uint8>)

  /** What `fromHex` reads: the string after an optional leading '#'. */
  function HexBody(hex: string): string
  {
    if |hex| > 0 && hex[0] == '#' then hex[1..] else hex
  }

  /** Input on which every `parseInt` of `fromHex` reads two digits: after an optional
      '#', at least six hex digits (further characters are ignored). */
  predicate WellFormedHex(hex: string)
  {
    var body := HexBody(hex);
    |body| >= 6 && forall i :: 0 <= i < 6 ==> IsHexDigit(body[i])
  }

  /** An RGB triple. Channels are plain integers: the constructor does not clamp. */
  datatype PaletteColor = PaletteColor(red: int, green: int, blue: int)
  {
    /** `new PaletteColor(red, green, blue)`, src/core/Palette.ts:12-20. The parameter
        properties store the arguments first; the three clamping assignments only
        rebind the parameters, so the stored channels are the arguments unchanged. */
    static function Create(red: int, green: int, blue: int): (c: PaletteColor)
      ensures c.red == red && c.green == green && c.blue == blue
      ensures red > 255 ==> c.red != Clamp(red)
    {
      PaletteColor(red, green, blue)
    }

    /** `copy({red, green, blue})`: a channel given (0 included) replaces the
        receiver's, an omitted one is kept. */
    function Copy(red: Option<int>, green: Option<int>, blue: Option<int>): (c: PaletteColor)
      ensures red.Some? ==> c.red == red.value
      ensures red.None? ==> c.red == this.red
      ensures green.Some? ==> c.green == green.value
      ensures green.None? ==> c.green == this.green
      ensures blue.Some? ==> c.blue == blue.value
      ensures blue.None? ==> c.blue == this.blue
    {
      Create(
        match red case Some(v) => v case None => this.red,
        match green case Some(v) => v case None => this.green,
        match blue case Some(v) => v case None => this.blue)
    }

    /** `toHex()`: '#' and two lowercase hex digits per channel (for byte channels). */
    function ToHex(): (s: string)
      requires red >= 0 && green >= 0 && blue >= 0
      ensures |s| >= 7 && s[0] == '#'
      ensures AllLowerHex(s[1..])
      ensures red < 256 && green < 256 && blue < 256 ==> |s| == 7
    {
      var r, g, b := ToHexString(red, false), ToHexString(green, false), ToHexString(blue, false);
      AllLowerHexConcat(r, g);
      AllLowerHexConcat(r + g, b);
      if red < 256 && green < 256 && blue < 256 then
        ToHexStringOfByte(red);
        ToHexStringOfByte(green);
        ToHexStringOfByte(blue);
        "#" + (r + g + b)
      else
        "#" + (r + g + b)
    }

    /** `PaletteColor.fromHex(hex)` on well-formed input: each channel is one pair of
        hex digits read in base 16, either case. */
    static function FromHex(hex: string): (c: PaletteColor)
      requires WellFormedHex(hex)
      ensures var body := HexBody(hex);
        && c.red == 16 * HexDigitValue(body[0]) + HexDigitValue(body[1])
        && c.green == 16 * HexDigitValue(body[2]) + HexDigitValue(body[3])
        && c.blue == 16 * HexDigitValue(body[4]) + HexDigitValue(body[5])
      ensures 0 <= c.red < 256 && 0 <= c.green < 256 && 0 <= c.blue < 256
    {
      var body := HexBody(hex);
      ParseTwo(body[0..2]);
      ParseTwo(body[2..4]);
      ParseTwo(body[4..6]);
      Create(ParseHex(body[0..2]), ParseHex(body[2..4]), ParseHex(body[4..6]))
    }

    /** `equals(color)`: the argument is first turned into a colour (a string through
        `fromHex`, a byte array from its first three bytes; a missing byte reads as
        `undefined` and matches no channel), then the three channels are compared. */
    function Equals(other: ColorLike): (r: bool)
      requires other.AHex? ==> WellFormedHex(other.hex)
      ensures other.AColor? ==> (r <==> red == other.color.red && green == other.color.green && blue == other.color.blue)
      ensures other.AHex? ==> (r <==> this == FromHex(other.hex))
      ensures other.ABytes? ==>
        (r <==> |other.bytes| >= 3 && red == other.bytes[0]
                && green == other.bytes[1] && blue == other.bytes[2])
    {
      match other
      case AColor(c) => red == c.red && green == c.green && blue == c.blue
      case AHex(s) =>
        var c := FromHex(s);
        red == c.red && green == c.green && blue == c.blue
      case ABytes(b) =>
        if |b| < 3 then false
        else
          var c := Create(b[0], b[1], b[2]);
          red == c.red && green == c.green && blue == c.blue
    }
  }

  lemma ParseTwo(s: string)
    requires |s| == 2
    ensures ParseHex(s) == 16 * HexDigitValue(s[0]) + HexDigitValue(s[1])
  {
    assert s[..|s| - 1] == [s[0]];
    assert [s[0]][..0] == [];
    assert ParseHex([s[0]]) == ParseHex([]) * 16 + HexDigitValue(s[0]);
  }

  /** Colour equality is exact: `equals` on a colour is datatype equality, hence an
      equivalence relation. */
  lemma EqualsIsIdentity(a: PaletteColor, b: PaletteColor)
    ensures a.Equals(AColor(b)) <==> a == b
  {
  }

  /** The alpha byte of an RGBA quadruple is ignored. */
  lemma EqualsIgnoresAlpha(c: PaletteColor, r: Uint8, g: Uint8, b: Uint8, a: Uint8)
    ensures c.Equals(ABytes([r, g, b, a])) == c.Equals(ABytes([r, g, b]))
    ensures c.Equals(ABytes([r, g, b])) <==> c == PaletteColor(r, g, b)
  {
  }

  /** `fromHex` on a string whose body is three two-digit lowercase groups reads
      each group in base 16. */
  lemma FromHexOfGroups(hex: string, r: string, g: string, b: string)
    requires |r| == 2 && |g| == 2 && |b| == 2
    requires AllLowerHex(r) && AllLowerHex(g) && AllLowerHex(b)
    requires HexBody(hex) == r + g + b
    ensures WellFormedHex(hex)
    ensures PaletteColor.FromHex(hex) == PaletteColor(ParseHex(r), ParseHex(g), ParseHex(b))
  {
    var body := r + g + b;
    assert body[0] == r[0] && body[1] == r[1];
    assert body[2] == g[0] && body[3] == g[1];
    assert body[4] == b[0] && body[5] == b[1];
    assert forall i :: 0 <= i < 6 ==> IsHexDigit(body[i]);
    ParseTwo(r);
    ParseTwo(g);
    ParseTwo(b);
  }

  /** For byte channels, `fromHex(toHex())` gives the colour back, with or without
      the leading '#', and `equals` agrees. */
  lemma FromHexToHex(c: PaletteColor)
    requires 0 <= c.red < 256 && 0 <= c.green < 256 && 0 <= c.blue < 256
    ensures WellFormedHex(c.ToHex()) && PaletteColor.FromHex(c.ToHex()) == c
    ensures WellFormedHex(c.ToHex()[1..]) && PaletteColor.FromHex(c.ToHex()[1..]) == c
    ensures c.Equals(AHex(c.ToHex()))
  {
    var r, g, b := ToHexString(c.red, false), ToHexString(c.green, false), ToHexString(c.blue, false);
    ToHexStringOfByte(c.red);
    ToHexStringOfByte(c.green);
    ToHexStringOfByte(c.blue);
    ParseToHexString(c.red);
    ParseToHexString(c.green);
    ParseToHexString(c.blue);
    var hex := c.ToHex();
    assert hex == "#" + (r + g + b);
    assert hex[1..] == r + g + b;
    FromHexOfGroups(hex, r, g, b);
    FromHexOfGroups(hex[1..], r, g, b);
  }

  /** The four-slot palette. Its slots are fields that `Set` overwrites in place. */
  class Palette {
    var color0: PaletteColor
    var color1: PaletteColor
    var color2: PaletteColor
    var color3: PaletteColor

    /** The slots in index order. */
    function Colors(): (s: seq<PaletteColor>)
      reads this
      ensures |s| == 4
    {
      [color0, color1, color2, color3]
    }

    constructor (c0: PaletteColor, c1: PaletteColor, c2: PaletteColor, c3: PaletteColor)
      ensures Colors() == [c0, c1, c2, c3]
    {
      color0, color1, color2, color3 := c0, c1, c2, c3;
    }

    /** `get(index)`: slot `index` for 0..3, and an error for every other index. */
    function Get(index: int): (r: Result<PaletteColor>)
      reads this
      ensures r.Ok? <==> 0 <= index <= 3
      ensures r.Ok? ==> r.value == Colors()[index]
      ensures r.Err? ==> r.error == ColorIndexOutOfRange
    {
      if index == 0 then Ok(color0)
      else if index == 1 then Ok(color1)
      else if index == 2 then Ok(color2)
      else if index == 3 then Ok(color3)
      else Err(ColorIndexOutOfRange)
    }

    /** `copy({color0, ..., color3})`: a new palette, given slots replaced. */
    method Copy(c0: Option<PaletteColor>, c1: Option<PaletteColor>,
                c2: Option<PaletteColor>, c3: Option<PaletteColor>) returns (p: Palette)
      ensures fresh(p)
      ensures p.Colors() == [
        if c0.Some? then c0.value else color0,
        if c1.Some? then c1.value else color1,
        if c2.Some? then c2.value else color2,
        if c3.Some? then c3.value else color3]
    {
      p := new Palette(
        match c0 case Some(c) => c case None => color0,
        match c1 case Some(c) => c case None => color1,
        match c2 case Some(c) => c case None => color2,
        match c3 case Some(c) => c case None => color3);
    }

    /** `copySet(colorIndex, color)`: a new palette with slot `colorIndex` replaced;
        an index outside 0..3 replaces nothing and is not an error. */
    method CopySet(colorIndex: int, color: PaletteColor) returns (p: Palette)
      ensures fresh(p)
      ensures 0 <= colorIndex <= 3 ==> p.Colors() == Colors()[colorIndex := color]
      ensures !(0 <= colorIndex <= 3) ==> p.Colors() == Colors()
    {
      p := Copy(
        if colorIndex == 0 then Some(color) else None,
        if colorIndex == 1 then Some(color) else None,
        if colorIndex == 2 then Some(color) else None,
        if colorIndex == 3 then Some(color) else None);
    }

    /** `set(colorIndex, color)`: overwrites slot `colorIndex` in place; any other
        index throws and changes nothing. */
    method Set(colorIndex: int, color: PaletteColor) returns (r: Outcome)
      modifies this
      ensures r.Pass? <==> 0 <= colorIndex <= 3
      ensures r.Pass? ==> Colors() == old(Colors())[colorIndex := color]
      ensures r.Fail? ==> r.error == ColorIndexOutOfRange && Colors() == old(Colors())
    {
      if colorIndex == 0 {
        color0 := color;
      } else if colorIndex == 1 {
        color1 := color;
      } else if colorIndex == 2 {
        color2 := color;
      } else if colorIndex == 3 {
        color3 := color;
      } else {
        return Fail(ColorIndexOutOfRange);
      }
      r := Pass;
    }

    /** `indexOf(color)`: the lowest slot whose colour equals `color`; an error when
        no slot does. */
    function IndexOf(color: PaletteColor): (r: Result<ColorIndex>)
      reads this
      ensures r.Ok? ==> Colors()[r.value] == color
      ensures r.Ok? ==> forall j :: 0 <= j < r.value ==> Colors()[j] != color
      ensures r.Err? <==> color !in Colors()
      ensures r.Err? ==> r.error == ColorNotFound
    {
      if color0.Equals(AColor(color)) then Ok(0)
      else if color1.Equals(AColor(color)) then Ok(1)
      else if color2.Equals(AColor(color)) then Ok(2)
      else if color3.Equals(AColor(color)) then Ok(3)
      else Err(ColorNotFound)
    }
  }

  /** What `indexOf` finds, `get` returns. */
  lemma GetIndexOf(p: Palette, c: PaletteColor)
    requires c in p.Colors()
    ensures p.IndexOf(c).Ok? && p.Get(p.IndexOf(c).value) == Ok(c)
  {
  }

  /** With a colour in slots 0 and 3, `indexOf` returns the lower slot, whatever
      slots 1 and 2 hold. */
  lemma IndexOfDuplicate(p: Palette, c: PaletteColor)
    requires p.Colors()[0] == c && p.Colors()[3] == c
    ensures p.IndexOf(c) == Ok(0)
  {
  }
}
