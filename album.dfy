/** `Album`: an album as the streaming service describes it, with its covers
    in several sizes. */
module AlbumData {
  import opened Wrappers
  import opened KotlinRuntime
  import opened ImageData

  datatype Album = Album(id: string, albumType: string, covers: seq<Image>)

  /** `Album.COMPILATION`, the `albumType` of compilations. */
  const COMPILATION: string := "compilation"

  /** `Album.equals`: equal iff the ids are equal; type and covers are ignored. */
  predicate AlbumEquals(a: Album, b: Album) {
    a.id == b.id
  }

  lemma AlbumEqualsIgnoresTypeAndCovers(a: Album, t: string, cs: seq<Image>)
    ensures AlbumEquals(a, Album(a.id, t, cs))
    ensures forall b: Album :: AlbumEquals(a, b) <==> a.id == b.id
  {
  }

  /** `covers.filter { it.height >= height }`. */
  function AtLeast(covers: seq<Image>, height: Int32): (r: seq<Image>)
    ensures forall c :: c in r <==> c in covers && c.height >= height
  {
    if covers == [] then []
    else (if covers[0].height >= height then [covers[0]] else []) + AtLeast(covers[1..], height)
  }

  /** The selector `abs(height - it.height)` on Kotlin `Int`. */
  function Distance(height: Int32, c: Image): Int32 {
    Abs32(Sub32(height, c.height))
  }

  /** `minBy` carried on from the least element seen so far: like Kotlin's
      `minBy` it replaces the current minimum only by a strictly smaller one. */
  function MinByDistance(min: Image, rest: seq<Image>, height: Int32): (r: Image)
    ensures r == min || r in rest
    ensures Distance(height, r) <= Distance(height, min)
    ensures forall c :: c in rest ==> Distance(height, r) <= Distance(height, c)
    decreases |rest|
  {
    if rest == [] then min
    else
      var next := if Distance(height, min) > Distance(height, rest[0]) then rest[0] else min;
      MinByDistance(next, rest[1..], height)
  }

  /** `Album.getCoverURL(height)`: the URL of the closest cover at least as
      high as requested, else the URL of the first cover; `covers[0]` on an
      album without covers throws. */
  function CoverURL(album: Album, height: Int32): (r: Result<string, KotlinException>)
    ensures (forall c :: c in album.covers ==> c.height < height) ==>
              r == if |album.covers| > 0 then Success(album.covers[0].url) else Failure(IndexOutOfBounds)
    ensures r.Failure? <==> album.covers == []
    ensures r.Failure? ==> r.error == IndexOutOfBounds
  {
    var candidates := AtLeast(album.covers, height);
    if |candidates| > 0 then
      Success(MinByDistance(candidates[0], candidates[1..], height).url)
    else if |album.covers| > 0 then
      Success(album.covers[0].url)
    else
      Failure(IndexOutOfBounds)
  }

  /** For covers at least `height` high, the distance is the height surplus. */
  lemma DistanceAbove(height: Int32, c: Image)
    requires 0 <= height <= c.height
    ensures Distance(height, c) == c.height - height
  {
  }

  /** When some cover is high enough, `getCoverURL` picks the URL of a cover
      whose height is the least among the covers at least `height` high. */
  lemma CoverURLClosestAbove(album: Album, height: Int32)
    requires 0 <= height
    requires exists c :: c in album.covers && c.height >= height
    ensures CoverURL(album, height).Success?
    ensures exists c :: c in album.covers && c.height >= height &&
              c.url == CoverURL(album, height).value &&
              forall d :: d in album.covers && d.height >= height ==> c.height <= d.height
  {
    var candidates := AtLeast(album.covers, height);
    var w :| w in album.covers && w.height >= height;
    assert w in candidates;
    var m := MinByDistance(candidates[0], candidates[1..], height);
    assert m in candidates;
    forall d | d in album.covers && d.height >= height
      ensures m.height <= d.height
    {
      assert d in candidates;
      assert d == candidates[0] || d in candidates[1..] by {
        assert candidates == [candidates[0]] + candidates[1..];
      }
      DistanceAbove(height, d);
      DistanceAbove(height, m);
    }
  }

  /** Kotlin's `max()` carried on from the greatest element seen so far: the
      current maximum is replaced only when `compareTo` says it is smaller. */
  function MaxFrom(max: Image, rest: seq<Image>): (r: Image)
    ensures r == max || r in rest
    ensures NonNegativeHeight(max) && (forall c :: c in rest ==> NonNegativeHeight(c)) ==>
              r.height >= max.height && forall c :: c in rest ==> c.height <= r.height
    decreases |rest|
  {
    if rest == [] then max
    else
      var next := if CompareTo(max, rest[0]) < 0 then rest[0] else max;
      MaxFrom(next, rest[1..])
  }

  /** `Album.getLargestCover()`: `covers.toList().max() ?: Image.EMPTY`. */
  function LargestCover(album: Album): (r: Image)
    ensures album.covers == [] ==> r == EMPTY
    ensures album.covers != [] ==> r in album.covers
  {
    if album.covers == [] then EMPTY else MaxFrom(album.covers[0], album.covers[1..])
  }

  /** With non-negative heights, the largest cover is at least as high as every cover. */
  lemma LargestCoverIsHighest(album: Album)
    requires forall c :: c in album.covers ==> NonNegativeHeight(c)
    ensures forall c :: c in album.covers ==> c.height <= LargestCover(album).height
  {
    if album.covers != [] {
      assert album.covers == [album.covers[0]] + album.covers[1..];
    }
  }

  /** The cover array the background updater stores:
      `albumList.map { it.getLargestCover() }`. */
  function LargestCovers(albums: seq<Album>): (r: seq<Image>)
    ensures |r| == |albums|
    ensures forall i :: 0 <= i < |albums| ==> r[i] == LargestCover(albums[i])
  {
    if albums == [] then [] else [LargestCover(albums[0])] + LargestCovers(albums[1..])
  }
}
