# Game Boy tile tools: tile codec, deduplication and palettes

This is a Dafny model of the core of a Game Boy image converter, with proofs about it. The core turns images into the data the GBDK C toolchain expects.

- **Tile codec.** A tile is an 8x8 grid of 2-bit colour indices, each wrapped in a pixel object. It is packed into the 16-byte 2bpp planar format of the Pan Docs ("Tile Data"). Each row becomes a byte of low-plane bits followed by a byte of high-plane bits, with the leftmost pixel in the most significant bit. The tile can be unpacked back and rendered to an RGBA buffer through a palette. A palette-quantised RGBA image can be cut into tiles.
- **Deduplication.** A raw sequence of tiles becomes a list of unique tiles plus a tile map. Equal tiles are matched to their first occurrence, and input order is kept. Each map entry is the unique tile's position plus a caller-supplied offset.
- **Palettes.** `PaletteColor` is an RGB value with copy-with-override, exact equality and hex conversion. `Palette` has four slots, with `get`, an in-place `set`, a copy-on-write `copySet` and a first-match `indexOf`.
- **Hex formatting.** `toHexString` gives lowercase hex, zero-padded to two digits, with an optional `0x` prefix.

Modules follow the source files:

- `Results`: the thrown errors are modelled as `Result`/`Outcome` values. Each distinct message the source throws has its own `Error` constructor; `get` and `set` throw the same message and share `ColorIndexOutOfRange`.
- `Helpers`: helpers.ts.
- `Palettes`: Palette.ts.
- `TileData`: Tiles.ts.
- `TileMaps`: TileMap.ts.

How entities are represented:

- `PaletteColor`, `TilePixel`, `Tile`, `Tiles` and `TileMap` are datatypes. The source never mutates them after construction.
- `Palette` is a class whose four slot fields `Set` overwrites in place.
- The loops of the source are methods with loop invariants. Each method is proved against a reference function: `Encode`, `Decode`, `PaletteIndices`, `SliceImage`, `FirstOccurrences`/`FindIndex` and `Dedup`. The properties the source promises are lemmas about those functions.
- The render buffer is an `array`, filled in place as `toUint8Array` does.
- Bytes of the 2bpp format are `bv8`. RGBA buffer entries are the subset type `Uint8` (0..255).

Two behaviours of the code differ from what it appears meant to do; the model follows the code:

- The `PaletteColor` constructor does not clamp its channels. Its clamping statements only rebind the parameters, after the parameter properties have already stored the raw arguments. `PaletteColor.Create` states this.
- `copySet` with an index outside 0..3 returns an unchanged copy and does not throw.

## Model

| member | source | states |
|---|---|---|
| Helpers.HexDigit | src/core/helpers.ts:2 | digit d of `toString(16)` is a lowercase hex digit whose value is d |
| Helpers.HexDigitValue | src/core/helpers.ts:2 | the value `parseInt(_, 16)` gives one digit is below 16 |
| Helpers.ToBase16 | src/core/helpers.ts:2 | `n.toString(16)` is non-empty, all lowercase hex digits, and has no leading zero once n >= 16 |
| Helpers.PadStart | src/core/helpers.ts:2 | `padStart` yields max(len, \|s\|) characters: fill characters, then s unchanged at the end |
| Helpers.ToHexString | src/core/helpers.ts:1-4 | with the prefix the result is "0x" and the unprefixed result; without it, at least 2 lowercase hex digits, a leading '0' for n < 16, and exactly `toString(16)` for n >= 16 |
| Helpers.ParseHex | src/core/Palette.ts:64-66 | `parseInt(_, 16)` on k hex digits reads a number below 16^k, so a two-digit group lies in 0..255 |
| Helpers.ParseHexSnoc | src/core/helpers.ts:2 | reading one more digit in base 16 multiplies the value by 16 and adds the digit |
| Helpers.ParseHexLeadingZero | src/core/helpers.ts:2 | the '0' padding does not change the value read back |
| Helpers.ParseToBase16 | src/core/helpers.ts:2 | reading `n.toString(16)` in base 16 gives n, for every natural n |
| Helpers.ParseToHexString | src/core/helpers.ts:2 | reading the unprefixed `toHexString(n)` in base 16 gives n, for every natural n |
| Helpers.ToBase16Length | src/core/helpers.ts:2 | `n.toString(16)` has exactly as many characters as n has hex digits (the least k with n < 16^k) |
| Helpers.ToHexStringOfByte | src/core/helpers.ts:2 | for 0 <= n < 256 the unprefixed result has exactly 2 characters |
| Helpers.ToHexStringWide | src/core/helpers.ts:2 | for n >= 256 nothing is truncated: at least 3 characters, exactly the number of hex digits of n |
| Palettes.Clamp | src/core/Palette.ts:17-19 | `Math.max(0, Math.min(255, v))` lies in 0..255 and is v for v in range |
| Palettes.PaletteColor.Create | src/core/Palette.ts:12-20 | the constructor stores red, green and blue exactly as given; a channel above 255 is stored unclamped |
| Palettes.PaletteColor.Copy | src/core/Palette.ts:22-36 | each supplied channel (0 included) replaces the receiver's, and each omitted one is kept |
| Palettes.PaletteColor.ToHex | src/core/Palette.ts:42-44 | '#' and then lowercase hex only; exactly 7 characters for byte channels |
| Palettes.PaletteColor.FromHex | src/core/Palette.ts:59-68 | after an optional '#', each channel is one two-digit group read in base 16, in either case, so it lies in 0..255 |
| Palettes.PaletteColor.Equals | src/core/Palette.ts:46-57 | true iff the three channels are identical to those of the other colour, of `fromHex` of a string, or of the first three bytes of a byte array (false if a byte is missing) |
| Palettes.ParseTwo | src/core/Palette.ts:64-66 | a two-digit group reads as 16 * first digit + second digit |
| Palettes.EqualsIsIdentity | src/core/Palette.ts:52-56 | `equals` on colours is datatype equality: reflexive, symmetric and transitive |
| Palettes.EqualsIgnoresAlpha | src/core/Palette.ts:49-51 | a fourth (alpha) byte does not affect `equals`, and three bytes match exactly the colour they spell |
| Palettes.FromHexOfGroups | src/core/Palette.ts:59-68 | a body of three two-digit lowercase groups is well formed, and `fromHex` reads each group in base 16 |
| Palettes.FromHexToHex | src/core/Palette.ts:42-68 | for byte channels `fromHex(c.toHex())` is c, also with the '#' removed, and `c.equals(c.toHex())` holds |
| Palettes.Palette.Colors | src/core/Palette.ts:74-80 | the palette has four slots in index order |
| Palettes.Palette.constructor | src/core/Palette.ts:75-80 | the slots are the four colours given, in order |
| Palettes.Palette.Get | src/core/Palette.ts:82-94 | succeeds iff 0 <= index <= 3 and then returns that slot; any other index is the out-of-range error |
| Palettes.Palette.Copy | src/core/Palette.ts:96-113 | a fresh palette in which each supplied slot is replaced and each omitted one is kept; the receiver is unchanged |
| Palettes.Palette.CopySet | src/core/Palette.ts:115-122 | a fresh palette with slot i replaced for i in 0..3, an identical copy otherwise, never an error; the receiver is unchanged |
| Palettes.Palette.Set | src/core/Palette.ts:124-136 | for i in 0..3 slot i becomes c and the other slots are unchanged; any other i is the out-of-range error and changes nothing |
| Palettes.Palette.IndexOf | src/core/Palette.ts:138-150 | the lowest slot equal to the colour; not-found error iff no slot holds it |
| Palettes.GetIndexOf | src/core/Palette.ts:82-150 | for a colour in the palette, `get(indexOf(c))` returns c |
| Palettes.IndexOfDuplicate | src/core/Palette.ts:138-150 | with the same colour in slots 0 and 3, `indexOf` returns 0, whatever slots 1 and 2 hold |
| TileData.TilePixel.Create | src/core/Tiles.ts:7-13 | a pixel is built iff 0 <= colour <= 3 and keeps that colour; otherwise it is the colour error |
| TileData.Tile.Create | src/core/Tiles.ts:18-28 | a tile is built iff there are 8 rows of 8; the row count error comes before the column count error |
| TileData.Tile.Equals | src/core/Tiles.ts:30-39 | the early-exit double loop answers true iff all 64 positions hold equal colours |
| TileData.SamePixelsIffEqual | src/core/Tiles.ts:30-39 | tile `equals` holds iff the tiles are equal values, so it is reflexive, symmetric and transitive |
| TileData.Tile.ToGBDKBytes | src/core/Tiles.ts:42-56 | the nested OR-accumulating loops produce exactly the 16-byte 2bpp encoding |
| TileData.PackRow | src/core/Tiles.ts:45-51 | the inner loop leaves the packed low-plane and high-plane bits of the row in the two accumulators |
| TileData.Encode | src/core/Tiles.ts:42-56 | the 2bpp encoding of a tile has 16 bytes |
| TileData.BitAt | src/core/Tiles.ts:74-75 | the bit of one column of a byte is 0 or 1 |
| TileData.BitOfShifted | src/core/Tiles.ts:49-50 | a bit shifted to column k is seen at column k and at no other column |
| TileData.BitAtOr | src/core/Tiles.ts:49-50 | a column bit of an OR is the OR of the column bits |
| TileData.PackBitsAt | src/core/Tiles.ts:47-51 | after n steps the accumulator holds bit x at column x for x < n and 0 at every later column |
| TileData.ByteFromBits | src/core/Tiles.ts:42-81 | a byte is determined by its eight column bits |
| TileData.PlaneBitsAreBits | src/core/Tiles.ts:49-50 | `color & 1` and `(color >> 1) & 1` are single bits |
| TileData.EncodeBits | src/core/Tiles.ts:42-56 | bit 7-x of byte 2y is `color & 1` of pixel (y, x), and bit 7-x of byte 2y+1 is `(color >> 1) & 1` |
| TileData.ColorFromPlaneBits | src/core/Tiles.ts:74-75 | a colour index is 2 * high bit + low bit |
| TileData.Tile.FromGBDKBytes | src/core/Tiles.ts:64-81 | succeeds iff exactly 16 bytes are given, and then returns the decoded tile; otherwise it is the byte count error |
| TileData.DecodePixel | src/core/Tiles.ts:74-76 | the pixel at column x is 2 * bit(7-x) of the high byte + bit(7-x) of the low byte, always in 0..3 |
| TileData.Decode | src/core/Tiles.ts:64-81 | 16 bytes always decode to a well-formed 8x8 tile |
| TileData.DecodeEncode | src/core/Tiles.ts:42-81 | `fromGBDKBytes(toGBDKBytes(t))` is t for every valid tile |
| TileData.PackBitsOf | src/core/Tiles.ts:47-51 | packing the column bits of a byte gives the byte |
| TileData.PlaneBitsOfDecoded | src/core/Tiles.ts:73-76 | the plane bits of a decoded pixel are the column bits of its two bytes |
| TileData.EncodeDecode | src/core/Tiles.ts:42-81 | `toGBDKBytes(fromGBDKBytes(b))` is b for every 16 bytes b |
| TileData.TestTile | src/core/Tiles.test.ts:5-14 | the test tile is well formed |
| TileData.PackBitsClosedForm | src/core/Tiles.ts:47-51 | the packed byte equals an OR of eight shifted bits |
| TileData.EncodeRow | src/core/Tiles.ts:44-54 | the two bytes of row y are the OR chains of its low and high plane bits |
| TileData.EncodeRowOf | src/core/Tiles.ts:44-54 | the same, for a row given by eight colour indices |
| TileData.EncodeTestTile | src/core/Tiles.test.ts:4-21 | the test tile encodes to 3c 7e 42 42 42 42 42 42 7e 5e 7e 0a 7c 56 38 7c |
| TileData.EncodeTestTileTop | src/core/Tiles.test.ts:15-18 | rows 0 to 3 of the test tile encode to the first eight expected bytes |
| TileData.EncodeTestTileBottom | src/core/Tiles.test.ts:15-18 | rows 4 to 7 of the test tile encode to the last eight expected bytes |
| TileData.EncodeAllOnes | src/core/Tiles.ts:42-56 | a tile of colour 1 everywhere encodes to 0xff, 0x00 for every row |
| TileData.Tile.ToUint8Array | src/core/Tiles.ts:83-96 | a fresh 256-byte buffer whose bytes (8y + x) * 4 + 0..2 are the red, green and blue of `palette.get` of pixel (y, x), with byte 3 set to 255 |
| TileData.StoreRgba | src/core/Tiles.ts:88-92 | the four stores of one pixel set bytes i..i+3 to red, green, blue and 255, and no other byte |
| TileData.PixelByte | src/core/Tiles.ts:88 | pixel (y, x), channel c of an 8x8 tile lies inside the 256 bytes |
| TileData.PixelBytesCover | src/core/Tiles.ts:84-93 | each of the 256 bytes is exactly one channel of one pixel, so the contract of `ToUint8Array` fixes every byte |
| TileData.ToUint8 | src/core/Tiles.ts:89-91 | a store into a `Uint8Array` keeps a value in 0..255 unchanged |
| TileData.PaletteIndices | src/core/Tiles.ts:99-111 | the index image has one entry per whole RGBA pixel |
| TileData.ImageToPaletteIndices | src/core/Tiles.ts:99-111 | succeeds iff every visited pixel's RGB is in the palette; then it yields length/4 entries, and entry k is `indexOf` of the RGB of bytes 4k..4k+2, with alpha ignored; otherwise it is the not-found error |
| TileData.BlockIndices | src/core/Tiles.ts:136-137 | every index `(y + tileY) * width + x + tileX` of a block inside the image is in bounds |
| TileData.BlockTile | src/core/Tiles.ts:132-142 | the block at (y, x) is a well-formed tile |
| TileData.BlockRow | src/core/Tiles.ts:131-143 | one band of 8 image rows gives width/8 tiles |
| TileData.SliceRows | src/core/Tiles.ts:130-144 | the first r bands give r * (width/8) tiles |
| TileData.SliceRowsAt | src/core/Tiles.ts:130-144 | tile by * (W/8) + bx of the first bands is the block at (8 by, 8 bx) |
| TileData.SliceImageAt | src/core/Tiles.ts:120-147 | an image of W x H pixels gives (H/8) * (W/8) tiles in row-major block order, and tile by * (W/8) + bx has, at (ty, tx), index entry (8 by + ty) * W + 8 bx + tx |
| TileData.Tiles.FromImageAndPalette | src/core/Tiles.ts:120-147 | succeeds iff the image's colours are all in the palette; then it yields exactly the row-major slicing of the index image; otherwise it is the not-found error |
| TileData.SliceBlock | src/core/Tiles.ts:132-142 | the two innermost loops build exactly the block tile at (y, x) |
| TileMaps.FindIndex | src/core/TileMap.ts:13 | `findIndex` returns -1 iff the tile is absent, and otherwise a position holding it |
| TileMaps.FindEqual | src/core/TileMap.ts:13 | the search with tile `equals` returns exactly `findIndex` under value equality |
| TileMaps.FindIndexFirst | src/core/TileMap.ts:13 | the position found is the first one holding the tile, and the first one is the one found |
| TileMaps.FindIndexConcat | src/core/TileMap.ts:13 | searching a concatenation searches the first part, then the second |
| TileMaps.FromTiles | src/core/TileMap.ts:7-22 | the unique list is the input tiles with no earlier equal tile, in order; the map has one entry per input tile; and entry i is the first position of tile i in the unique list, plus the offset |
| TileMaps.AddTile | src/core/TileMap.ts:13-18 | one round of the loop appends the tile iff it is new and records its position plus the offset |
| TileMaps.DedupUnique | src/core/TileMap.ts:12-19 | after n rounds the unique list is the first occurrences among the first n tiles |
| TileMaps.DedupMaps | src/core/TileMap.ts:12-19 | after n rounds the map has n entries, and each is the first position of its tile in the unique list, plus the offset |
| TileMaps.DedupStep | src/core/TileMap.ts:13-17 | a round grows the unique list by the tile exactly when no equal tile came before |
| TileMaps.RoundExtends | src/core/TileMap.ts:13-18 | one round keeps every earlier map entry right and adds a correct entry for the new tile |
| TileMaps.FirstOccurrencesElements | src/core/TileMap.ts:12-19 | the unique list holds exactly the tiles that occur in the input |
| TileMaps.FirstOccurrencesDistinct | src/core/TileMap.ts:12-19 | no two tiles of the unique list are equal |
| TileMaps.FirstOccurrencesPrefix | src/core/TileMap.ts:12-19 | the unique list of a prefix of the input is a prefix of the unique list |
| TileMaps.DedupSound | src/core/TileMap.ts:12-19 | every map entry less the offset is a valid position in the unique list holding a tile equal to the input tile |
| TileMaps.DedupIndexAt | src/core/TileMap.ts:13-18 | a tile with no earlier equal tile is mapped to the count of unique tiles before it, so first appearances count up from the offset; a repeated tile gets the smaller position of its earliest equal unique tile |
| TileMaps.DedupExamples | src/core/TileMap.ts:7-22 | no tiles give an empty map; two equal tiles give one unique tile and [offset, offset]; two different tiles give [offset, offset + 1] |

## Left out

- `Palette.fromImage` and `Palette.applyToImage` (src/core/Palette.ts:160-227) are not modelled. They are asynchronous, they take an `HTMLImageElement`, report progress through callbacks and call into the `image-q` quantisation library.
- No `toGBDKString` is modelled: those of `PaletteColor`, `Palette`, `Tile`, `Tiles` and `TileMap`. They only join `toHexString` or `RGB8(...)` pieces into C literal text; `toHexString` itself is modelled.
- src/core/fileTemplates.ts is not part of this model: it is fixed C source text with interpolation through the `change-case` package.
- Numbers are integers in the model. JavaScript's non-integer numbers, NaN and `undefined` are not represented.
- Palettes.PaletteColor.FromHex: requires a well-formed hex body (at least six hex digits after an optional '#'). On other input `parseInt` returns NaN or reads only part of a group: `fromHex("#fffff")` has blue 15, `fromHex("#1g2h3i")` is (1, 2, 3) and `fromHex("#-f0000")` has red -15. Neither behaviour is modelled.
- Palettes.PaletteColor.Equals: a string argument must be well-formed hex, for the same reason as FromHex.
- Palettes.PaletteColor.ToHex: requires non-negative channels, because `toString(16)` of a negative number adds a '-' sign, which is not modelled.
- Helpers.ToHexString: takes a natural number, so negative and fractional arguments are not modelled.
- TileData.Tile.FromGBDKBytes: its bytes are `bv8`. An array entry outside 0..255 or a non-integer entry, which the JavaScript code would shift and mask without complaint, is not modelled.
- TileData.Tiles.FromImageAndPalette: requires a positive width, and requires the width and the number of pixel rows to be multiples of 8. The source does other things outside that:
  - With a width that does not divide into 8-pixel blocks, it reads past the rows or columns of the index image and gets `undefined` pixels. These pass `TilePixel`'s range check, but a colour index cannot hold `undefined`.
  - With width 0 and a non-empty image, the loop bound `imageInPalette.length / width` is Infinity. The inner loop `x < width` never runs, so `y` keeps growing and the call never returns.
  - With width 0 and an empty image the bound is NaN; with a negative width it is not positive. Either way the call returns an empty `Tiles` once the colour conversion has succeeded.
  - The loop bound is real division in the source; it is whole-number division under this precondition.
- TileData.Tile.ToUint8Array: the contract is stated per pixel channel (byte (8y + x) * 4 + c). `PixelBytesCover` shows that these positions are exactly the 256 bytes, so every byte is determined.
- Object identity and sharing are not modelled. Tiles, pixels and colours are values. So "the unique list holds the same objects as the first occurrences" is stated as value equality. "The input `Tiles` is not modified" holds because datatype values cannot change.
- `Palette.Copy` and `Palette.CopySet` share the colour objects of the receiver in the source; the model copies colour values, which cannot be told apart because colours are never mutated.
- The deduplication lemmas are stated over any type with equality. At `Tile`, that equality is the source's `equals`, by `SamePixelsIffEqual`.
