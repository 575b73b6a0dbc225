/** Failure values shared by the whole model. Every `throw new Error(...)` of the
    source becomes an `Err` carrying the error kind that names its message. */
module Results {

  /** An optional argument: JavaScript's `undefined` is `None`. */
  datatype Option<+T> = None | Some(value: T)

  /** The error kinds, one per distinct message the core throws. */
  datatype Error =
    | ColorOutOfRange      // TilePixel: "Color must be between 0 and 3"
    | TileRowCount         // Tile: "Tile must have 8 rows"
    | TileColumnCount      // Tile: "Tile must have 8 columns"
    | TileByteCount        // Tile.fromGBDKBytes: "Tile must have 16 bytes"
    | ColorIndexOutOfRange // Palette.get / Palette.set: "Color index must be between 0 and 3"
    | ColorNotFound        // Palette.indexOf: "Color not found in palette"

  /** The value of a call that either returns or throws. */
  datatype Result<+T> = Ok(value: T) | Err(error: Error)

  /** The outcome of a call that returns nothing or throws. */
  datatype Outcome = Pass | Fail(error: Error)
}
