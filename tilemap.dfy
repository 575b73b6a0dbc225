/** TileMap of src/core/TileMap.ts: first-match, order-preserving deduplication of
    a tile sequence into unique tiles plus an index map. */
module TileMaps {
  import opened TileData

  /** One entry per input tile: the position of its unique tile plus the offset.
      (The source calls the field `map`, a reserved word here.) */
  datatype TileMap = TileMap(indices: seq<int>)

  predicate AllValid(tiles: seq<Tile>) {
    forall i :: 0 <= i < |tiles| ==> tiles[i].Valid()
  }

  // The deduplication is stated over any type with equality and used at Tile, whose
  // `equals` is `==` (SamePixelsIffEqual).

  /** The tiles that have no earlier equal tile, in input order. */
  function FirstOccurrences<T(==)>(tiles: seq<T>): seq<T>
  {
    if tiles == [] then []
    else
      var init, last := tiles[..|tiles| - 1], tiles[|tiles| - 1];
      FirstOccurrences(init) + if last in init then [] else [last]
  }

  /** `findIndex` with tile equality: the first position holding t, or -1. */
  function FindIndex<T(==)>(s: seq<T>, t: T): (k: int)
    ensures -1 <= k < |s|
    ensures k == -1 <==> t !in s
    ensures k >= 0 ==> s[k] == t
  {
    if s == [] then -1
    else if s[0] == t then 0
    else
      var k := FindIndex(s[1..], t);
      if k == -1 then -1 else k + 1
  }

  /** `TileMap.fromTiles(rawTile, tileOffset)`. For each input tile, in order, the
      unique list is searched for the first equal tile; a tile with none is appended.
      The map entry is the position found (or appended at) plus the offset. */
  method FromTiles(rawTile: Tiles, tileOffset: int) returns (m: TileMap, unique: Tiles)
    requires AllValid(rawTile.tiles)
    ensures unique.tiles == FirstOccurrences(rawTile.tiles)
    ensures |m.indices| == |rawTile.tiles|
    ensures forall i :: 0 <= i < |rawTile.tiles| ==>
      m.indices[i] == FindIndex(unique.tiles, rawTile.tiles[i]) + tileOffset
  {
    var tiles := rawTile.tiles;
    var resultTiles: seq<Tile> := [];
    var tileMap: seq<int> := [];
    for n := 0 to |tiles|
      invariant (resultTiles, tileMap) == Dedup(tiles, n, tileOffset)
      invariant AllValid(resultTiles)
    {
      resultTiles, tileMap := AddTile(resultTiles, tileMap, tiles[n], tileOffset);
    }
    DedupUnique(tiles, |tiles|, tileOffset);
    DedupMaps(tiles, |tiles|, tileOffset);
    assert tiles[..|tiles|] == tiles;
    m, unique := TileMap(tileMap), Tiles(resultTiles);
  }

  /** One round of the loop of `fromTiles`: look the tile up, append it when it is
      new, and record its position plus the offset. */
  method AddTile(resultTiles: seq<Tile>, tileMap: seq<int>, tile: Tile, tileOffset: int)
    returns (resultTiles': seq<Tile>, tileMap': seq<int>)
    requires AllValid(resultTiles) && tile.Valid()
    ensures AllValid(resultTiles')
    ensures (resultTiles', tileMap') == Round(resultTiles, tileMap, tile, tileOffset)
  {
    var index := FindEqual(resultTiles, tile);
    resultTiles' := resultTiles;
    if index == -1 {
      index := |resultTiles|;
      resultTiles' := resultTiles + [tile];
    }
    tileMap' := tileMap + [index + tileOffset];
  }

  /** `resultTiles.findIndex((t) => t.equals(tile))`. */
  method FindEqual(resultTiles: seq<Tile>, tile: Tile) returns (index: int)
    requires AllValid(resultTiles) && tile.Valid()
    ensures index == FindIndex(resultTiles, tile)
  {
    index := -1;
    var j := 0;
    while j < |resultTiles| && index == -1
      invariant 0 <= j <= |resultTiles|
      invariant index == -1 ==> forall j' :: 0 <= j' < j ==> resultTiles[j'] != tile
      invariant index != -1 ==> index == FindIndex(resultTiles, tile)
    {
      var same := resultTiles[j].Equals(tile);
      SamePixelsIffEqual(resultTiles[j], tile);
      if same {
        index := j;
        FindIndexFirst(resultTiles, tile, j);
      }
      j := j + 1;
    }
    if index == -1 {
      assert tile !in resultTiles;
    }
  }

  /** One round of `fromTiles` on the unique list and the map: a tile already in the
      list is mapped to its first position, a new one is appended and mapped to the
      end. */
  function Round<T(==)>(unique: seq<T>, entries: seq<int>, t: T, offset: int): (seq<T>, seq<int>)
  {
    if t in unique then (unique, entries + [FindIndex(unique, t) + offset])
    else (unique + [t], entries + [|unique| + offset])
  }

  /** The unique tiles and the map after the first n rounds of `fromTiles`. */
  function Dedup<T(==)>(tiles: seq<T>, n: nat, offset: int): (seq<T>, seq<int>)
    requires n <= |tiles|
  {
    if n == 0 then ([], [])
    else
      var previous := Dedup(tiles, n - 1, offset);
      Round(previous.0, previous.1, tiles[n - 1], offset)
  }

  /** Every one of the first n tiles occurs in unique, and its entry is its first
      position there plus the offset. */
  predicate MapsInto<T(==)>(tiles: seq<T>, n: nat, entries: seq<int>, unique: seq<T>, offset: int) {
    n <= |tiles| && |entries| == n &&
    forall i :: 0 <= i < n ==> tiles[i] in unique && entries[i] == FindIndex(unique, tiles[i]) + offset
  }

  /** After n rounds the unique list is the first occurrences among the first n
      tiles. */
  lemma {:induction false} DedupUnique<T>(tiles: seq<T>, n: nat, offset: int)
    requires n <= |tiles|
    ensures Dedup(tiles, n, offset).0 == FirstOccurrences(tiles[..n])
  {
    if n == 0 {
      assert tiles[..0] == [];
    } else {
      DedupUnique(tiles, n - 1, offset);
      DedupStep(tiles, n - 1);
    }
  }

  /** After n rounds each of the first n tiles is mapped to its first position in the
      unique list, plus the offset. */
  lemma {:induction false} DedupMaps<T>(tiles: seq<T>, n: nat, offset: int)
    requires n <= |tiles|
    ensures MapsInto(tiles, n, Dedup(tiles, n, offset).1, Dedup(tiles, n, offset).0, offset)
  {
    if n > 0 {
      DedupMaps(tiles, n - 1, offset);
      var previous := Dedup(tiles, n - 1, offset);
      RoundExtends(tiles, n - 1, previous.0, previous.1, offset);
    }
  }

  /** One round of the loop: the unique list grows by the next tile exactly when no
      equal tile came before it. */
  lemma DedupStep<T>(tiles: seq<T>, n: nat)
    requires n < |tiles|
    ensures var before := FirstOccurrences(tiles[..n]);
      FirstOccurrences(tiles[..n + 1]) == if tiles[n] in before then before else before + [tiles[n]]
  {
    assert tiles[..n + 1][..n] == tiles[..n];
    FirstOccurrencesElements(tiles[..n]);
  }

  /** The map part of the loop invariant of `fromTiles` survives one round: growing
      the unique list at its end keeps every earlier entry right, and the new entry
      is the first position of the new tile. */
  lemma RoundExtends<T>(tiles: seq<T>, n: nat, before: seq<T>, entries: seq<int>, offset: int)
    requires n < |tiles| && MapsInto(tiles, n, entries, before, offset)
    ensures var after := Round(before, entries, tiles[n], offset);
      MapsInto(tiles, n + 1, after.1, after.0, offset)
  {
    var t := tiles[n];
    var after := Round(before, entries, t, offset).0;
    var added := after[|before|..];
    assert after == before + added;
    FindIndexConcat(before, added, t);
    if t !in before {
      assert FindIndex([t], t) == 0;
    }
    forall i | 0 <= i < n
      ensures tiles[i] in after
      ensures entries[i] == FindIndex(after, tiles[i]) + offset
    {
      FindIndexConcat(before, added, tiles[i]);
    }
  }

  /** The position found is the first one holding t, and a first position holding t
      is the one found. */
  lemma {:induction false} FindIndexFirst<T>(s: seq<T>, t: T, k: int)
    requires 0 <= k < |s| && s[k] == t
    ensures FindIndex(s, t) == k <==> forall j :: 0 <= j < k ==> s[j] != t
  {
    if s[0] != t {
      FindIndexFirst(s[1..], t, k - 1);
      assert forall j :: 0 <= j < k - 1 ==> s[1..][j] == s[j + 1];
    }
  }

  /** Searching a concatenation searches the first part, then the second. */
  lemma {:induction false} FindIndexConcat<T>(a: seq<T>, b: seq<T>, t: T)
    ensures FindIndex(a + b, t) ==
      if t in a then FindIndex(a, t) else if t in b then |a| + FindIndex(b, t) else -1
  {
    if a != [] {
      assert (a + b)[1..] == a[1..] + b;
      FindIndexConcat(a[1..], b, t);
    } else {
      assert a + b == b;
    }
  }

  /** Soundness and completeness of the unique list: it holds exactly the tiles that
      occur in the input. */
  lemma {:induction false} FirstOccurrencesElements<T>(tiles: seq<T>)
    ensures forall t :: t in FirstOccurrences(tiles) <==> t in tiles
  {
    if tiles != [] {
      var init := tiles[..|tiles| - 1];
      FirstOccurrencesElements(init);
      assert tiles == init + [tiles[|tiles| - 1]];
    }
  }

  /** Minimality: no tile appears twice in the unique list. */
  lemma {:induction false} FirstOccurrencesDistinct<T>(tiles: seq<T>)
    ensures forall a, b :: 0 <= a < b < |FirstOccurrences(tiles)| ==>
      FirstOccurrences(tiles)[a] != FirstOccurrences(tiles)[b]
  {
    if tiles != [] {
      var init := tiles[..|tiles| - 1];
      FirstOccurrencesDistinct(init);
      FirstOccurrencesElements(init);
    }
  }

  /** The unique list of a prefix is a prefix of the unique list. */
  lemma {:induction false} FirstOccurrencesPrefix<T>(tiles: seq<T>, n: nat)
    requires n <= |tiles|
    ensures |FirstOccurrences(tiles[..n])| <= |FirstOccurrences(tiles)|
    ensures FirstOccurrences(tiles[..n]) == FirstOccurrences(tiles)[..|FirstOccurrences(tiles[..n])|]
    decreases |tiles|
  {
    if n == |tiles| {
      assert tiles[..n] == tiles;
    } else {
      var init := tiles[..|tiles| - 1];
      assert init[..n] == tiles[..n];
      FirstOccurrencesPrefix(init, n);
    }
  }

  /** Every map entry, less the offset, is a position in the unique list holding a
      tile equal to the input tile. */
  lemma DedupSound<T>(tiles: seq<T>, i: nat)
    requires i < |tiles|
    ensures 0 <= FindIndex(FirstOccurrences(tiles), tiles[i]) < |FirstOccurrences(tiles)|
    ensures FirstOccurrences(tiles)[FindIndex(FirstOccurrences(tiles), tiles[i])] == tiles[i]
  {
    FirstOccurrencesElements(tiles);
  }

  /** The entry of tile i: a tile with no earlier equal tile gets the number of unique
      tiles before it, so new entries count up from the offset one by one; a tile with
      an earlier equal tile gets that tile's unique position, which is smaller. */
  lemma DedupIndexAt<T>(tiles: seq<T>, i: nat)
    requires i < |tiles|
    ensures tiles[i] !in tiles[..i] ==>
      FindIndex(FirstOccurrences(tiles), tiles[i]) == |FirstOccurrences(tiles[..i])|
    ensures tiles[i] in tiles[..i] ==>
      FindIndex(FirstOccurrences(tiles), tiles[i]) == FindIndex(FirstOccurrences(tiles[..i]), tiles[i])
      < |FirstOccurrences(tiles[..i])|
  {
    var t := tiles[i];
    var p, q := tiles[..i], tiles[..i + 1];
    assert q[..|q| - 1] == p && q[|q| - 1] == t;
    var fq := FirstOccurrences(q);
    FirstOccurrencesPrefix(tiles, i + 1);
    var fs := FirstOccurrences(tiles);
    assert fs == fq + fs[|fq|..];
    FirstOccurrencesElements(q);
    FirstOccurrencesElements(p);
    FindIndexConcat(fq, fs[|fq|..], t);
    FindIndexConcat(FirstOccurrences(p), if t in p then [] else [t], t);
  }

  /** No tiles give no unique tiles and an empty map; two equal tiles give one unique
      tile and the map [offset, offset]; two different tiles give both, mapped to
      offset and offset + 1. */
  lemma DedupExamples(t: Tile, u: Tile, offset: int)
    requires t != u
    ensures Dedup<Tile>([], 0, offset).0 == [] && Dedup<Tile>([], 0, offset).1 == []
    ensures Dedup([t, t], 2, offset).0 == [t] && Dedup([t, t], 2, offset).1 == [offset, offset]
    ensures Dedup([t, u], 2, offset).0 == [t, u] && Dedup([t, u], 2, offset).1 == [offset, offset + 1]
  {
    assert Dedup([t, t], 1, offset).0 == [t] && Dedup([t, t], 1, offset).1 == [offset];
    assert Dedup([t, u], 1, offset).0 == [t] && Dedup([t, u], 1, offset).1 == [offset];
    assert FindIndex([t], t) == 0;
  }
}
