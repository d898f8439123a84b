/**
 * `handle_tile_proxy`'s check of a map tile request path before the tile is
 * fetched from the OpenStreetMap tile server: the path must be
 * `/map/tile/{z}/{x}/{y}.png` with integer zoom 0..19 and tile coordinates
 * inside the 2^z by 2^z grid of that zoom.
 */
module TileProxy {
  import opened Wrappers
  import opened Text

  const MaxZoom := 19

  datatype Tile = Tile(z: int, x: int, y: int)

  /** What the handler does with a path: fetch a tile, answer 404, or answer
      400 with an error code. */
  datatype TileRoute = Fetch(tile: Tile) | NotFound | BadRequest(error: string)

  /** `path.strip("/")`. */
  function StripSlashes(s: string): (r: string)
    ensures r == [] || (r[0] != '/' && r[|r| - 1] != '/')
    decreases |s|
  {
    if s == [] then []
    else if s[0] == '/' then StripSlashes(s[1..])
    else if s[|s| - 1] == '/' then StripSlashes(s[..|s| - 1])
    else s
  }

  function Pow2(n: nat): (p: nat)
    ensures p >= 1
  {
    if n == 0 then 1 else 2 * Pow2(n - 1)
  }

  /** A tile the proxy accepts: a zoom 0..19 and both coordinates within
      `0 .. 2**z - 1`. */
  predicate ValidTile(t: Tile) {
    0 <= t.z <= MaxZoom && 0 <= t.x <= Pow2(t.z) - 1 && 0 <= t.y <= Pow2(t.z) - 1
  }

  /** The route once the three numbers are read (`None` where `int()`
      refuses the text): `invalid_tile_path`, then `invalid_zoom`, then
      `tile_out_of_bounds`. */
  function RouteNumbers(z: Option<int>, x: Option<int>, y: Option<int>): (r: TileRoute)
    ensures r.Fetch? ==> ValidTile(r.tile)
    ensures r.Fetch? <==> z.Some? && x.Some? && y.Some? && ValidTile(Tile(z.value, x.value, y.value))
    ensures r.Fetch? ==> r.tile == Tile(z.value, x.value, y.value)
    ensures r.BadRequest? ==> r.error in {"invalid_tile_path", "invalid_zoom", "tile_out_of_bounds"}
  {
    if z.None? || x.None? || y.None? then BadRequest("invalid_tile_path")
    else if z.value < 0 || z.value > MaxZoom then BadRequest("invalid_zoom")
    else if x.value < 0 || x.value > Pow2(z.value) - 1 || y.value < 0 || y.value > Pow2(z.value) - 1 then
      BadRequest("tile_out_of_bounds")
    else Fetch(Tile(z.value, x.value, y.value))
  }

  /** The route of the zoom, x and "{y}.png" parts: `invalid_tile_path` for a
      last part without ".png", else the route of the numbers they read as. */
  function RouteParts(zs: string, xs: string, last: string): (r: TileRoute)
    ensures !r.NotFound?
    ensures r.Fetch? ==> ValidTile(r.tile)
  {
    if !EndsWith(last, ".png") then BadRequest("invalid_tile_path")
    else RouteNumbers(ParseInt(zs), ParseInt(xs), ParseInt(last[..|last| - 4]))
  }

  /** The route of a request path: 404 unless, after removing surrounding
      slashes, it has exactly the five slash-separated parts map/tile/z/x/y. */
  function RouteTile(path: string): (r: TileRoute)
    ensures r.Fetch? ==> ValidTile(r.tile)
    ensures r.NotFound? <==>
              var parts := Split(StripSlashes(path), '/');
              |parts| != 5 || parts[0] != "map" || parts[1] != "tile"
  {
    var parts := Split(StripSlashes(path), '/');
    if |parts| != 5 || parts[0] != "map" || parts[1] != "tile" then NotFound
    else RouteParts(parts[2], parts[3], parts[4])
  }

  /** The path the front end requests for a tile: the parts map, tile, z, x
      and "{y}.png" joined by slashes, after a leading slash. */
  function TilePath(t: Tile): string {
    "/" + Join(["map", "tile", IntToString(t.z), IntToString(t.x), IntToString(t.y) + ".png"], "/")
  }

  /** The upstream URL the proxy fetches, under the configured tile server. */
  function UpstreamUrl(base: string, t: Tile): (url: string)
    ensures StartsWith(url, base) && EndsWith(url, ".png")
  {
    base + "/" + IntToString(t.z) + "/" + IntToString(t.x) + "/" + IntToString(t.y) + ".png"
  }

  lemma NatToStringNoSlash(n: nat)
    ensures '/' !in NatToString(n)
  {
    var s := NatToString(n);
    forall i | 0 <= i < |s|
      ensures s[i] != '/'
    {
      assert IsDigit(s[i]);
    }
  }

  /** A join ends with its last part. */
  lemma {:induction false} JoinEndsWithLast(parts: seq<string>, sep: string)
    requires |parts| >= 1
    ensures EndsWith(Join(parts, sep), parts[|parts| - 1])
  {
    if |parts| > 1 {
      JoinEndsWithLast(parts[1..], sep);
      var rest := Join(parts[1..], sep);
      var j := parts[0] + sep + rest;
      var last := parts[|parts| - 1];
      assert j[|j| - |rest|..] == rest;
      assert rest[|rest| - |last|..] == last;
      assert j[|j| - |last|..] == rest[|rest| - |last|..];
    }
  }

  /** Removing surrounding slashes from a leading slash and a piece that
      neither starts nor ends with one leaves the piece. */
  lemma StripLeadingSlash(inner: string)
    requires inner != [] && inner[0] != '/' && inner[|inner| - 1] != '/'
    ensures StripSlashes("/" + inner) == inner
  {
    assert ("/" + inner)[1..] == inner;
  }

  /** The route of a leading slash and five slash-free parts, the first two
      "map" and "tile". */
  lemma RouteFiveParts(zs: string, xs: string, last: string)
    requires '/' !in zs && '/' !in xs && '/' !in last
    requires last != [] && last[|last| - 1] != '/'
    ensures var parts := ["map", "tile", zs, xs, last];
            Split(StripSlashes("/" + Join(parts, "/")), '/') == parts
  {
    var parts := ["map", "tile", zs, xs, last];
    var inner := Join(parts, "/");
    JoinEndsWithLast(parts, "/");
    assert inner == "map" + "/" + Join(parts[1..], "/");
    StripLeadingSlash(inner);
    SplitJoin(parts, '/');
  }

  /** The last part of a tile path ends in ".png" and reads back as its row. */
  lemma LastPartReadsBack(y: int)
    ensures var last := IntToString(y) + ".png";
            EndsWith(last, ".png") && ParseInt(last[..|last| - 4]) == Some(y)
  {
    var last := IntToString(y) + ".png";
    assert last[|last| - 4..] == ".png";
    assert last[..|last| - 4] == IntToString(y);
    ParseIntRoundTrip(y);
  }

  /** The parts of a valid tile's path route to that tile. */
  lemma TilePartsRoute(t: Tile)
    requires ValidTile(t)
    ensures RouteParts(IntToString(t.z), IntToString(t.x), IntToString(t.y) + ".png") == Fetch(t)
  {
    LastPartReadsBack(t.y);
    ParseIntRoundTrip(t.z);
    ParseIntRoundTrip(t.x);
  }

  /** Every valid tile's own path is routed to that tile. */
  lemma TilePathRoundTrip(t: Tile)
    requires ValidTile(t)
    ensures RouteTile(TilePath(t)) == Fetch(t)
  {
    var zs, xs, ys := IntToString(t.z), IntToString(t.x), IntToString(t.y);
    NatToStringNoSlash(t.z);
    NatToStringNoSlash(t.x);
    NatToStringNoSlash(t.y);
    var last := ys + ".png";
    assert '/' !in last by {
      assert forall i :: 0 <= i < |ys| ==> last[i] == ys[i];
    }
    RouteFiveParts(zs, xs, last);
    TilePartsRoute(t);
  }

  /** A path whose last part lacks ".png" is refused before anything is parsed. */
  lemma NotPngRefused(zs: string, xs: string, last: string)
    requires '/' !in zs && '/' !in xs && '/' !in last && !EndsWith(last, ".png")
    requires last != [] && last[|last| - 1] != '/'
    ensures RouteTile("/" + Join(["map", "tile", zs, xs, last], "/")) == BadRequest("invalid_tile_path")
  {
    RouteFiveParts(zs, xs, last);
  }

  /** The parts of a tile above the largest zoom are refused as `invalid_zoom`,
      whatever its coordinates. */
  lemma TilePartsZoomRefused(t: Tile)
    requires t.z > MaxZoom
    ensures RouteParts(IntToString(t.z), IntToString(t.x), IntToString(t.y) + ".png") == BadRequest("invalid_zoom")
  {
    LastPartReadsBack(t.y);
    ParseIntRoundTrip(t.z);
    ParseIntRoundTrip(t.x);
  }

  /** The path of a tile above the largest zoom (20 and up) is refused as
      `invalid_zoom`, even at tile 0/0. */
  lemma ZoomAboveMaxRefused(t: Tile)
    requires t.z > MaxZoom && t.x >= 0 && t.y >= 0
    ensures RouteTile(TilePath(t)) == BadRequest("invalid_zoom")
  {
    var zs, xs, ys := IntToString(t.z), IntToString(t.x), IntToString(t.y);
    NatToStringNoSlash(t.z);
    NatToStringNoSlash(t.x);
    NatToStringNoSlash(t.y);
    var last := ys + ".png";
    assert '/' !in last by {
      assert forall i :: 0 <= i < |ys| ==> last[i] == ys[i];
    }
    RouteFiveParts(zs, xs, last);
    TilePartsZoomRefused(t);
  }
}
