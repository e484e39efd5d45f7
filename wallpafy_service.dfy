/** `WallpafyService`: the live wallpaper. Its engine keeps a cached list of
    covers read from the "wallpaper_list" preference, shows one of them at
    random, cropped to the screen's aspect ratio and shifted with the home
    screen's parallax offset, and re-arms a timer after each change.

    The preference is given to the engine as a `Snapshot` (the JSON object,
    already parsed); the random choices of `shuffled().first()` as a sequence
    of draws; the bitmap Glide delivers as its width and height; the canvas as
    a log of the `drawBitmap` calls; the handler's queue as the delays of the
    pending `updateRunner` posts. `Float` values are exact rationals. */
module WallpaperEngine {
  import opened Wrappers
  import opened KotlinRuntime
  import opened ImageData
  import opened AlbumData

  /** The default of the wallpaper frequency setting, in seconds. */
  const DEFAULT_FREQUENCY: string := "3600"
  /** `Playlist.CUSTOM_ID`: covers chosen by hand, never refreshed by the worker. */
  const CUSTOM_ID: string := "custom"
  /** The service's `NULL`, the stand-in for an absent string setting. */
  const NULL: string := ""

  /** The "wallpaper_list" JSON object: its "last_update" and "cover_array"
      members, each possibly missing. */
  datatype Snapshot = Snapshot(lastUpdate: Option<Int64>, coverArray: Option<seq<Image>>)

  /** `"{}"`, what the engine reads when the preference was never written. */
  const NO_SNAPSHOT: Snapshot := Snapshot(None, None)

  /** Bitmap dimensions are never negative. */
  type PixelCount = x: int | 0 <= x <= 0x7fff_ffff

  datatype Bitmap = Bitmap(width: PixelCount, height: PixelCount)

  datatype Rect = Rect(left: Int32, top: Int32, right: Int32, bottom: Int32)

  /** One `canvas.drawBitmap(currentWallpaper, src, dst, null)`. */
  datatype DrawCall = DrawCall(src: Rect, dst: Rect)

  /** The Glide request `updateCover` issues: the cover's URL, and the crop
      offset its `onResourceReady` callback captured. */
  datatype FetchRequest = FetchRequest(url: string, cropLeft: Int32)

  /** How a step can end without returning normally: an exception, or a
      retry loop still drawing when the supplied draws run out. */
  datatype Halt = Threw(exception: KotlinException) | StillDrawing

  /** A periodic `CoverUpdateWorker` request; durations in nanoseconds, the
      resolution of `java.time.Duration`. */
  datatype WorkRequest = WorkRequest(repeatInterval: int, flexInterval: int, initialDelay: int, playlistId: string)

  /** The "wallpaper_list" object `CoverUpdateWorker.saveAlbum` and
      `HomeFragment.savePlaylistState` write: the largest cover of every album,
      stamped with the current time. */
  function StoredSnapshot(now: Int64, albums: seq<Album>): (s: Snapshot)
    ensures s.lastUpdate == Some(now)
    ensures s.coverArray.Some? && |s.coverArray.value| == |albums|
    ensures forall i :: 0 <= i < |albums| ==> s.coverArray.value[i] == LargestCover(albums[i])
  {
    Snapshot(Some(now), Some(LargestCovers(albums)))
  }

  // ---------------------------------------------------------------------
  // The cover cache

  predicate HasBothKeys(s: Snapshot) {
    s.lastUpdate.Some? && s.coverArray.Some?
  }

  /** The cache update of `getCover`: the stored list replaces the cached
      one, and its time the cached time, only when both keys are present and
      the stored time is strictly later. */
  function Refresh(coverList: seq<Image>, lastUpdateTime: Int64, s: Snapshot): (seq<Image>, Int64) {
    if HasBothKeys(s) && lastUpdateTime < s.lastUpdate.value then (s.coverArray.value, s.lastUpdate.value)
    else (coverList, lastUpdateTime)
  }

  /** The cached time never decreases and becomes the later of the two times;
      the list is replaced exactly when the time strictly increases; reading
      the same snapshot again changes nothing. */
  lemma RefreshIsMonotone(coverList: seq<Image>, lastUpdateTime: Int64, s: Snapshot)
    ensures Refresh(coverList, lastUpdateTime, s).1 >= lastUpdateTime
    ensures HasBothKeys(s) ==>
              Refresh(coverList, lastUpdateTime, s).1 ==
                (if s.lastUpdate.value > lastUpdateTime then s.lastUpdate.value else lastUpdateTime)
    ensures Refresh(coverList, lastUpdateTime, s).1 == lastUpdateTime ==>
              Refresh(coverList, lastUpdateTime, s).0 == coverList
    ensures Refresh(coverList, lastUpdateTime, s).1 > lastUpdateTime ==>
              Refresh(coverList, lastUpdateTime, s).0 == s.coverArray.value
    ensures var r := Refresh(coverList, lastUpdateTime, s); Refresh(r.0, r.1, s) == r
  {
  }

  /** After a newer snapshot from the worker, the cache holds the largest
      cover of each album of the playlist, in the playlist's order. */
  lemma RefreshFromWorker(coverList: seq<Image>, lastUpdateTime: Int64, now: Int64, albums: seq<Album>)
    requires lastUpdateTime < now
    ensures Refresh(coverList, lastUpdateTime, StoredSnapshot(now, albums)) == (LargestCovers(albums), now)
  {
  }

  // ---------------------------------------------------------------------
  // The random choice

  /** `coverList.shuffled().first()` when the shuffle puts the element at
      `d mod size` first. */
  function Pick(coverList: seq<Image>, d: nat): (c: Image)
    requires |coverList| > 0
    ensures c in coverList
  {
    coverList[d % |coverList|]
  }

  /** What `getCover`'s choice can end with, given the successive draws:
      an empty list makes `first()` throw; otherwise the first draw that is
      not `lastCover` (by `Image.equals`) wins, any draw winning when the list
      has a single cover, and the loop is still drawing when no draw can win. */
  ghost predicate IsSelection(r: Result<Image, Halt>, coverList: seq<Image>, last: Image, draws: seq<nat>) {
    && (r == Failure(Threw(NoSuchElement)) <==> |coverList| == 0)
    && (r.Failure? ==> r.error == Threw(NoSuchElement) || r.error == StillDrawing)
    && (r == Failure(StillDrawing) <==>
          |coverList| > 0 &&
          (|draws| == 0 ||
           (|coverList| > 1 && forall j :: 0 <= j < |draws| ==> ImageEquals(Pick(coverList, draws[j]), last))))
    && (r.Success? ==>
          && r.value in coverList
          && (|coverList| > 1 ==> !ImageEquals(r.value, last))
          && |coverList| > 0
          && exists k :: 0 <= k < |draws| && r.value == Pick(coverList, draws[k]) &&
               forall j :: 0 <= j < k ==> ImageEquals(Pick(coverList, draws[j]), last))
  }

  /** Lines 141-146 of `getCover`: draw, and draw again while the cover is
      `lastCover` and there is more than one cover. */
  method SelectCover(coverList: seq<Image>, last: Image, draws: seq<nat>) returns (r: Result<Image, Halt>)
    ensures IsSelection(r, coverList, last, draws)
  {
    if |coverList| == 0 {
      return Failure(Threw(NoSuchElement));
    }
    if |draws| == 0 {
      return Failure(StillDrawing);
    }
    var k := 0;
    var current := Pick(coverList, draws[0]);
    while ImageEquals(current, last) && |coverList| > 1
      invariant 0 <= k < |draws|
      invariant current == Pick(coverList, draws[k])
      invariant forall j :: 0 <= j < k ==> ImageEquals(Pick(coverList, draws[j]), last)
      decreases |draws| - k
    {
      if k + 1 == |draws| {
        return Failure(StillDrawing);
      }
      k := k + 1;
      current := Pick(coverList, draws[k]);
    }
    r := Success(current);
  }

  /** The selection is determined by the list, `lastCover` and the draws. */
  lemma SelectionIsDeterministic(r1: Result<Image, Halt>, r2: Result<Image, Halt>,
                                 coverList: seq<Image>, last: Image, draws: seq<nat>)
    requires IsSelection(r1, coverList, last, draws) && IsSelection(r2, coverList, last, draws)
    ensures r1 == r2
  {
    if r1.Success? && r2.Success? {
      var k1 :| 0 <= k1 < |draws| && r1.value == Pick(coverList, draws[k1]) &&
                forall j :: 0 <= j < k1 ==> ImageEquals(Pick(coverList, draws[j]), last);
      var k2 :| 0 <= k2 < |draws| && r2.value == Pick(coverList, draws[k2]) &&
                forall j :: 0 <= j < k2 ==> ImageEquals(Pick(coverList, draws[j]), last);
      if |coverList| == 1 {
        assert r1.value == coverList[0] && r2.value == coverList[0];
      } else {
        // Each winner differs from `last`, so neither lies among the other's earlier draws.
        assert !ImageEquals(Pick(coverList, draws[k1]), last);
        assert !ImageEquals(Pick(coverList, draws[k2]), last);
        assert k1 == k2;
      }
    }
  }

  /** Since `lastCover` stays `Image.EMPTY`, the retry only rejects covers
      without a URL: with two covers or more, a returned cover has a URL. */
  lemma SelectionAgainstEmpty(r: Result<Image, Halt>, coverList: seq<Image>, draws: seq<nat>)
    requires IsSelection(r, coverList, EMPTY, draws)
    requires r.Success? && |coverList| > 1
    ensures r.value.url != ""
  {
    EqualsEmptyIffNoUrl(r.value);
  }

  /** When every cover has an empty URL, every draw equals `lastCover`
      (`Image.EMPTY`): with two covers or more the loop never ends. */
  lemma AllEmptyNeverSelects(r: Result<Image, Halt>, coverList: seq<Image>, draws: seq<nat>)
    requires IsSelection(r, coverList, EMPTY, draws)
    requires |coverList| > 1 && forall c :: c in coverList ==> c.url == ""
    ensures r == Failure(StillDrawing)
  {
    forall j | 0 <= j < |draws|
      ensures ImageEquals(Pick(coverList, draws[j]), EMPTY)
    {
      EqualsEmptyIffNoUrl(Pick(coverList, draws[j]));
    }
  }

  // ---------------------------------------------------------------------
  // The update frequency

  /** `getWallpaperFrequency()`: the setting (default "3600") parsed with
      `toLong()`, times 1000 on `Long`. */
  function WallpaperFrequency(setting: Option<string>): (r: Result<Int64, KotlinException>)
    ensures r.Failure? <==> ParseLong(setting.GetOr(DEFAULT_FREQUENCY)).None?
    ensures r.Failure? ==> r.error == NumberFormat
    ensures r.Success? ==> (r.value - ParseLong(setting.GetOr(DEFAULT_FREQUENCY)).value * 1000) % 0x1_0000_0000_0000_0000 == 0
  {
    match ParseLong(setting.GetOr(DEFAULT_FREQUENCY))
    case None => Failure(NumberFormat)
    case Some(seconds) => Success(Wrap64(seconds * 1000))
  }

  /** Without a setting the wallpaper changes every hour. */
  lemma DefaultFrequencyIsOneHour()
    ensures WallpaperFrequency(None) == Success(3_600_000)
  {
    assert DecimalString(3600) == DEFAULT_FREQUENCY;
    ParseLongOfDecimal(3600);
  }

  /** A setting of n seconds gives n * 1000 milliseconds, as long as that
      fits in a `Long`. */
  lemma FrequencyOfSeconds(n: nat)
    requires n * 1000 <= MAX_LONG
    ensures WallpaperFrequency(Some(DecimalString(n))) == Success(n * 1000)
  {
    ParseLongOfDecimal(n);
  }

  /** The multiplication by 1000 is on `Long` and wraps around: a setting of
      more than `Long.MAX_VALUE / 1000` seconds, and less than
      2^64 / 1000, gives a negative delay. */
  lemma FrequencyCanWrap(n: nat)
    requires MAX_LONG < n * 1000 <= MAX_LONG + 0x1_0000_0000_0000_0000
    ensures WallpaperFrequency(Some(DecimalString(n))) == Success(n * 1000 - 0x1_0000_0000_0000_0000)
    ensures n * 1000 < 0x1_0000_0000_0000_0000 ==> WallpaperFrequency(Some(DecimalString(n))).value < 0
  {
    ParseLongOfDecimal(n);
    var x := n * 1000;
    assert (x - MIN_LONG) % 0x1_0000_0000_0000_0000 == x - MIN_LONG - 0x1_0000_0000_0000_0000;
  }

  // ---------------------------------------------------------------------
  // Geometry

  /** `(width * screenRatio).roundToInt()` with
      `screenRatio = surfaceWidth.toFloat() / surfaceHeight.toFloat()`. A zero
      height makes the ratio infinite, or NaN over a zero width; a NaN product
      makes `roundToInt` throw, and infinities saturate. */
  function DisplayWidth(coverWidth: Int32, surfaceWidth: Int32, surfaceHeight: Int32): (r: Result<Int32, KotlinException>)
    ensures r.Failure? <==> surfaceHeight == 0 && (surfaceWidth == 0 || coverWidth == 0)
    ensures r.Failure? ==> r.error == IllegalArgument
    ensures surfaceHeight == 0 && r.Success? ==> r.value == MAX_INT || r.value == MIN_INT
  {
    if surfaceHeight != 0 then Success(RoundToInt(IntTimesFloat(coverWidth, FloatQuotient(surfaceWidth, surfaceHeight))))
    else if surfaceWidth == 0 || coverWidth == 0 then Failure(IllegalArgument)
    else if (surfaceWidth > 0) == (coverWidth > 0) then Success(MAX_INT)
    else Success(MIN_INT)
  }

  /** `(width - coverDisplayWidth) / 2` on `Int`. */
  function CropLeft(coverWidth: Int32, displayWidth: Int32): Int32 {
    TruncDiv(Sub32(coverWidth, displayWidth), 2)
  }

  /** The argument checks of `Bitmap.createBitmap(resource, left, 0,
      resource.width - left, resource.height)`: non-negative origin, positive
      size, and the region inside the source. */
  predicate CropAccepted(left: Int32, resource: Bitmap) {
    var width := Sub32(resource.width, left);
    left >= 0 && width > 0 && resource.height > 0 && Add32(left, width) <= resource.width
  }

  /** `createBitmap` accepts exactly an origin inside a non-empty bitmap. */
  lemma CropAcceptedIff(left: Int32, resource: Bitmap)
    ensures CropAccepted(left, resource) <==> 0 <= left < resource.width && resource.height > 0
  {
  }

  /** The cropped bitmap: everything right of `left`, at full height. */
  function Cropped(resource: Bitmap, left: Int32): (b: Bitmap)
    requires CropAccepted(left, resource)
    ensures b.height == resource.height && b.width + left == resource.width && b.width > 0
  {
    Bitmap(resource.width - left, resource.height)
  }

  /** `(offsetMax * xOffset).roundToInt()`. */
  function WindowShift(offsetMax: Int32, xOffset: real): Int32 {
    RoundToInt(IntTimesFloat(offsetMax, xOffset))
  }

  /** The source rectangle of `draw`: `coverDisplayWidth` columns from the shift. */
  function SourceWindow(shift: Int32, displayWidth: Int32, height: Int32): Rect {
    Rect(Add32(0, shift), 0, Add32(displayWidth, shift), height)
  }

  /** On a portrait screen the display width lies between 0 and the cover's
      width, within half a pixel of the exact aspect-fit width. */
  lemma PortraitDisplayWidth(coverWidth: Int32, surfaceWidth: Int32, surfaceHeight: Int32)
    requires 0 <= coverWidth && 0 < surfaceWidth <= surfaceHeight
    ensures DisplayWidth(coverWidth, surfaceWidth, surfaceHeight).Success?
    ensures var d := DisplayWidth(coverWidth, surfaceWidth, surfaceHeight).value;
            0 <= d <= coverWidth &&
            var exact := IntTimesFloat(coverWidth, FloatQuotient(surfaceWidth, surfaceHeight));
            d as real - 0.5 <= exact < d as real + 0.5
  {
    QuotientAtMostOne(surfaceWidth, surfaceHeight);
    ScaleBetween(coverWidth, FloatQuotient(surfaceWidth, surfaceHeight));
    RoundBetween(IntTimesFloat(coverWidth, FloatQuotient(surfaceWidth, surfaceHeight)), coverWidth);
  }

  /** When the display width does not exceed the cover width, the crop
      starts inside the cover and keeps at least half of the surplus to the
      right, so `offsetMax` — the cropped width minus the display width — is
      the surplus minus half of it, rounded down. */
  lemma CropOfNarrowerDisplay(coverWidth: Int32, displayWidth: Int32, height: PixelCount)
    requires 0 <= displayWidth <= coverWidth && 0 < height
    ensures var left := CropLeft(coverWidth, displayWidth);
            0 <= left <= coverWidth - displayWidth &&
            left == (coverWidth - displayWidth) / 2 &&
            (coverWidth > 0 ==>
              CropAccepted(left, Bitmap(coverWidth, height)) &&
              var m := Sub32(Cropped(Bitmap(coverWidth, height), left).width, displayWidth);
              m == (coverWidth - displayWidth) - (coverWidth - displayWidth) / 2 &&
              0 <= m <= coverWidth - displayWidth)
  {
  }

  /** A display width more than one pixel wider than the cover (a landscape
      screen) gives a negative crop origin, which `createBitmap` rejects. */
  lemma WiderDisplayIsRejected(coverWidth: Int32, displayWidth: Int32, resource: Bitmap)
    requires 0 <= coverWidth && coverWidth + 1 < displayWidth
    ensures CropLeft(coverWidth, displayWidth) < 0
    ensures !CropAccepted(CropLeft(coverWidth, displayWidth), resource)
  {
  }

  /** For an offset between 0 and 1 the shift lies between 0 and `offsetMax`,
      at the ends exactly. */
  lemma WindowShiftBounds(offsetMax: Int32, xOffset: real)
    requires 0 <= offsetMax && 0.0 <= xOffset <= 1.0
    ensures 0 <= WindowShift(offsetMax, xOffset) <= offsetMax
    ensures xOffset == 0.0 ==> WindowShift(offsetMax, xOffset) == 0
    ensures xOffset == 1.0 ==> WindowShift(offsetMax, xOffset) == offsetMax
  {
    ScaleBetween(offsetMax, xOffset);
    RoundBetween(IntTimesFloat(offsetMax, xOffset), offsetMax);
  }

  /** A shift between 0 and `offsetMax` selects `displayWidth` columns inside
      a bitmap `offsetMax + displayWidth` wide. */
  lemma SourceWindowInside(shift: Int32, offsetMax: Int32, displayWidth: Int32, bitmap: Bitmap)
    requires 0 <= shift <= offsetMax && 0 <= displayWidth && offsetMax + displayWidth == bitmap.width
    ensures var src := SourceWindow(shift, displayWidth, bitmap.height);
            0 <= src.left && src.right <= bitmap.width &&
            src.right - src.left == displayWidth && src.top == 0 && src.bottom == bitmap.height
  {
  }

  /** The whole pipeline on a portrait screen, for a bitmap as wide as the
      cover it was fetched for: `createBitmap` accepts the crop, `offsetMax`
      is not negative, and every parallax offset between 0 and 1 draws a
      window of the display width inside the cropped bitmap. */
  lemma PortraitWindowFits(coverWidth: Int32, height: PixelCount, surfaceWidth: Int32,
                             surfaceHeight: Int32, xOffset: real)
    requires 0 < coverWidth && 0 < height && 0 < surfaceWidth <= surfaceHeight && 0.0 <= xOffset <= 1.0
    ensures DisplayWidth(coverWidth, surfaceWidth, surfaceHeight).Success?
    ensures var d := DisplayWidth(coverWidth, surfaceWidth, surfaceHeight).value;
            var left := CropLeft(coverWidth, d);
            var resource := Bitmap(coverWidth, height);
            CropAccepted(left, resource) &&
            var wallpaper := Cropped(resource, left);
            var offsetMax := Sub32(wallpaper.width, d);
            0 <= offsetMax &&
            var src := SourceWindow(WindowShift(offsetMax, xOffset), d, wallpaper.height);
            0 <= src.left && src.right <= wallpaper.width && src.right - src.left == d
  {
    PortraitDisplayWidth(coverWidth, surfaceWidth, surfaceHeight);
    var d := DisplayWidth(coverWidth, surfaceWidth, surfaceHeight).value;
    CropOfNarrowerDisplay(coverWidth, d, height);
    var left := CropLeft(coverWidth, d);
    var wallpaper := Cropped(Bitmap(coverWidth, height), left);
    var offsetMax := Sub32(wallpaper.width, d);
    WindowShiftBounds(offsetMax, xOffset);
    SourceWindowInside(WindowShift(offsetMax, xOffset), offsetMax, d, wallpaper);
  }

  /** A 1000-pixel cover on a 9:16 screen: display width 563 (562.5 rounded
      half up), crop origin 218, cropped width 782, `offsetMax` 219. On a
      16:9 screen the display width is 1778 and the crop is rejected. */
  lemma ExampleCrops()
    ensures DisplayWidth(1000, 9, 16) == Success(563)
    ensures CropLeft(1000, 563) == 218
    ensures Cropped(Bitmap(1000, 1000), 218).width == 782
    ensures Sub32(782, 563) == 219
    ensures DisplayWidth(1000, 16, 9) == Success(1778)
    ensures CropLeft(1000, 1778) == -389 && !CropAccepted(-389, Bitmap(1000, 1000))
  {
    assert 1000.0 * (9.0 / 16.0) == 562.5;
    assert 1000.0 * (16.0 / 9.0) == 16000.0 / 9.0;
    assert (16000.0 / 9.0 + 0.5).Floor == 1778;
  }

  /** A display exactly one pixel wider than the cover is not rejected: the
      crop origin rounds to 0, the whole bitmap is kept, `offsetMax` is -1,
      and from an offset above one half on the window starts one column left
      of the bitmap. A 1000-pixel cover on a 1001 by 1000 screen is such a
      case. */
  lemma OnePixelWiderDisplay(coverWidth: Int32, height: PixelCount, xOffset: real)
    requires 0 < coverWidth < MAX_INT && 0 < height && 0.5 < xOffset <= 1.0
    ensures CropLeft(coverWidth, coverWidth + 1) == 0
    ensures CropAccepted(0, Bitmap(coverWidth, height))
    ensures Cropped(Bitmap(coverWidth, height), 0) == Bitmap(coverWidth, height)
    ensures Sub32(coverWidth, coverWidth + 1) == -1
    ensures WindowShift(-1, xOffset) == -1
    ensures SourceWindow(WindowShift(-1, xOffset), coverWidth + 1, height).left == -1
    ensures DisplayWidth(1000, 1001, 1000) == Success(1001)
  {
    assert IntTimesFloat(-1, xOffset) == -xOffset;
    assert 1000.0 * (1001.0 / 1000.0) == 1001.0;
  }

  /** `coverDisplayWidth` changes when a fetch is issued, `currentWallpaper`
      and `offsetMax` only when it completes. A draw in between (or after a
      fetch whose crop was rejected) pairs the new width with the old bitmap:
      with the 782-pixel wallpaper of a 1000-pixel cover on a 9:16 screen
      still shown, a new 2000-pixel cover sets the width to 1125, and the
      window drawn at offset 1 ends past the bitmap's right edge. */
  lemma StaleDisplayWidthOverruns()
    ensures DisplayWidth(2000, 9, 16) == Success(1125)
    ensures var src := SourceWindow(WindowShift(219, 1.0), 1125, 1000);
            src.left == 219 && src.right == 1344 && src.right > 782
  {
    assert 2000.0 * (9.0 / 16.0) == 1125.0;
    assert IntTimesFloat(219, 1.0) == 219.0;
  }

  // ---------------------------------------------------------------------
  // The background worker

  /** `startUpdateWorker`: the update interval setting (default "0") parsed in
      seconds, then a periodic request with a tenth of the interval as flex
      and the interval as initial delay — unless the interval is zero or the
      playlist is absent or the custom one. */
  function StartUpdateWorker(intervalSetting: Option<string>, playlistSetting: Option<string>)
    : (r: Result<Option<WorkRequest>, KotlinException>)
    ensures r.Failure? <==> ParseLong(intervalSetting.GetOr("0")).None?
    ensures r.Failure? ==> r.error == NumberFormat
    ensures r.Success? ==>
              var seconds := ParseLong(intervalSetting.GetOr("0")).value;
              (r.value.Some? <==> seconds != 0 && playlistSetting.GetOr(NULL) !in {NULL, CUSTOM_ID}) &&
              (r.value.Some? ==>
                 var w := r.value.value;
                 w.repeatInterval == seconds * 1_000_000_000 && w.initialDelay == w.repeatInterval &&
                 w.flexInterval == seconds * 100_000_000 &&
                 w.playlistId == playlistSetting.GetOr(NULL))
  {
    match ParseLong(intervalSetting.GetOr("0"))
    case None => Failure(NumberFormat)
    case Some(seconds) =>
      var interval := seconds * 1_000_000_000;
      var playlistId := playlistSetting.GetOr(NULL);
      if interval != 0 && playlistId != NULL && playlistId != CUSTOM_ID then
        Success(Some(WorkRequest(interval, TruncDiv(interval, 10), interval, playlistId)))
      else
        Success(None)
  }

  /** An interval of n seconds for a chosen playlist starts the worker every
      n seconds; interval 0, the default, never does. */
  lemma WorkerForSeconds(n: nat, playlistId: string)
    requires n <= MAX_LONG
    ensures StartUpdateWorker(Some(DecimalString(n)), Some(playlistId)) ==
              if n != 0 && playlistId != NULL && playlistId != CUSTOM_ID
              then Success(Some(WorkRequest(n * 1_000_000_000, n * 100_000_000, n * 1_000_000_000, playlistId)))
              else Success(None)
    ensures StartUpdateWorker(None, Some(playlistId)) == Success(None)
  {
    ParseLongOfDecimal(n);
    ParseLongOfDecimal(0);
    assert DecimalString(0) == "0";
  }

  /** `Duration.ofSeconds` takes a negative count as well: a negative setting
      with a chosen playlist still builds a periodic request, with negative
      durations. */
  lemma WorkerForNegativeSeconds(n: nat, playlistId: string)
    requires 0 < n <= -MIN_LONG && playlistId != NULL && playlistId != CUSTOM_ID
    ensures StartUpdateWorker(Some("-" + DecimalString(n)), Some(playlistId)) ==
              Success(Some(WorkRequest(0 - n * 1_000_000_000, 0 - n * 100_000_000, 0 - n * 1_000_000_000, playlistId)))
  {
    ParseLongOfNegativeDecimal(n);
  }

  // ---------------------------------------------------------------------
  // The engine

  /** Whether `updateCover` gets to `removeCallbacks`/`postDelayed`:
      `getCover` returned, and the display width did not throw (it is only
      computed for a cover that is not `Image.EMPTY`). */
  predicate ReachesReschedule(chosen: Result<Image, Halt>, surfaceWidth: Int32, surfaceHeight: Int32) {
    chosen.Success? &&
    (ImageEquals(chosen.value, EMPTY) || DisplayWidth(chosen.value.width, surfaceWidth, surfaceHeight).Success?)
  }

  class WallpafyEngine {
    var surfaceWidth: Int32
    var surfaceHeight: Int32
    var coverDisplayWidth: Int32
    var xOffset: real
    var offsetMax: Int32
    var coverList: seq<Image>
    var lastCover: Image
    var lastUpdateTime: Int64
    var currentWallpaper: Option<Bitmap>   // the lateinit bitmap; None until initialized
    var pendingRunners: seq<Int64>         // delays of the queued updateRunner posts
    var drawLog: seq<DrawCall>

    /** `lastCover` is never reassigned; nothing is drawn and `offsetMax` is
        untouched until a bitmap has been loaded; a loaded bitmap is not empty. */
    ghost predicate Valid()
      reads this
    {
      && lastCover == EMPTY
      && (currentWallpaper.None? ==> offsetMax == 0 && drawLog == [])
      && (currentWallpaper.Some? ==> currentWallpaper.value.width > 0 && currentWallpaper.value.height > 0)
    }

    /** The field initializers, with the surface frame's size. */
    constructor (frameWidth: Int32, frameHeight: Int32)
      ensures Valid()
      ensures surfaceWidth == frameWidth && surfaceHeight == frameHeight
      ensures coverDisplayWidth == 0 && xOffset == 0.0 && offsetMax == 0
      ensures coverList == [] && lastUpdateTime == 0 && currentWallpaper.None?
      ensures pendingRunners == [] && drawLog == []
    {
      surfaceWidth := frameWidth;
      surfaceHeight := frameHeight;
      coverDisplayWidth := 0;
      xOffset := 0.0;
      offsetMax := 0;
      coverList := [];
      lastCover := EMPTY;
      lastUpdateTime := 0;
      currentWallpaper := None;
      pendingRunners := [];
      drawLog := [];
    }

    /** `onCreate`: `handler.post(updateRunner)`. */
    method OnCreate()
      modifies this`pendingRunners
      ensures pendingRunners == old(pendingRunners) + [0]
    {
      pendingRunners := pendingRunners + [0];
    }

    /** `onDestroy`: `handler.removeCallbacks(updateRunner)`. */
    method OnDestroy()
      modifies this`pendingRunners
      ensures pendingRunners == []
    {
      pendingRunners := [];
    }

    /** `onSurfaceChanged`: records the new size and nothing else. */
    method OnSurfaceChanged(width: Int32, height: Int32)
      modifies this`surfaceWidth, this`surfaceHeight
      ensures surfaceWidth == width && surfaceHeight == height
    {
      surfaceWidth := width;
      surfaceHeight := height;
    }

    /** `draw`: nothing before a bitmap is loaded; otherwise one draw of the
        window shifted by the parallax offset onto the whole surface. */
    method Draw()
      requires Valid()
      modifies this`drawLog
      ensures Valid()
      ensures currentWallpaper.None? ==> drawLog == old(drawLog)
      ensures currentWallpaper.Some? ==>
                drawLog == old(drawLog) + [DrawCall(
                  SourceWindow(WindowShift(offsetMax, xOffset), coverDisplayWidth, currentWallpaper.value.height),
                  Rect(0, 0, surfaceWidth, surfaceHeight))]
    {
      if currentWallpaper.Some? {
        var offset := WindowShift(offsetMax, xOffset);
        var src := SourceWindow(offset, coverDisplayWidth, currentWallpaper.value.height);
        drawLog := drawLog + [DrawCall(src, Rect(0, 0, surfaceWidth, surfaceHeight))];
      }
    }

    /** `onOffsetsChanged`: records the horizontal offset, then redraws. */
    method OnOffsetsChanged(x: real)
      requires Valid()
      modifies this`xOffset, this`drawLog
      ensures Valid() && xOffset == x
      ensures currentWallpaper.None? ==> drawLog == old(drawLog)
      ensures currentWallpaper.Some? ==>
                drawLog == old(drawLog) + [DrawCall(
                  SourceWindow(WindowShift(offsetMax, x), coverDisplayWidth, currentWallpaper.value.height),
                  Rect(0, 0, surfaceWidth, surfaceHeight))]
    {
      xOffset := x;
      Draw();
    }

    /** `getCover`: `Image.EMPTY` when a key is missing; otherwise the cache
        refresh, then the random choice. */
    method GetCover(snapshot: Snapshot, draws: seq<nat>) returns (r: Result<Image, Halt>)
      requires Valid()
      modifies this`coverList, this`lastUpdateTime
      ensures Valid()
      ensures (coverList, lastUpdateTime) == Refresh(old(coverList), old(lastUpdateTime), snapshot)
      ensures !HasBothKeys(snapshot) ==> r == Success(EMPTY)
      ensures HasBothKeys(snapshot) ==> IsSelection(r, coverList, lastCover, draws)
    {
      if !HasBothKeys(snapshot) {
        return Success(EMPTY);
      }
      var updateTime := snapshot.lastUpdate.value;
      if lastUpdateTime < updateTime {
        coverList := snapshot.coverArray.value;
        lastUpdateTime := updateTime;
      }
      r := SelectCover(coverList, lastCover, draws);
    }

    /** `updateCover`: picks a cover; unless it is `Image.EMPTY`, sets the
        display width and issues the fetch; then clears the handler's queue
        and posts one runner after the wallpaper frequency. An exception
        skips everything after it. `chosen` is what `getCover` returned. */
    method UpdateCover(snapshot: Snapshot, draws: seq<nat>, frequencySetting: Option<string>)
      returns (chosen: Result<Image, Halt>, fetch: Option<FetchRequest>, halt: Option<Halt>)
      requires Valid()
      modifies this`coverList, this`lastUpdateTime, this`coverDisplayWidth, this`pendingRunners
      ensures Valid()
      ensures (coverList, lastUpdateTime) == Refresh(old(coverList), old(lastUpdateTime), snapshot)
      ensures !HasBothKeys(snapshot) ==> chosen == Success(EMPTY)
      ensures HasBothKeys(snapshot) ==> IsSelection(chosen, coverList, lastCover, draws)
      // The fetch: issued for exactly the chosen cover, unless it is EMPTY.
      ensures chosen.Success? && ImageEquals(chosen.value, EMPTY) ==>
                fetch.None? && coverDisplayWidth == old(coverDisplayWidth)
      ensures chosen.Success? && !ImageEquals(chosen.value, EMPTY) ==>
                var d := DisplayWidth(chosen.value.width, surfaceWidth, surfaceHeight);
                (d.Success? ==>
                   coverDisplayWidth == d.value &&
                   fetch == Some(FetchRequest(chosen.value.url, CropLeft(chosen.value.width, d.value)))) &&
                (d.Failure? ==>
                   halt == Some(Threw(d.error)) && fetch.None? &&
                   coverDisplayWidth == old(coverDisplayWidth) && pendingRunners == old(pendingRunners))
      ensures chosen.Failure? ==>
                halt == Some(chosen.error) && fetch.None? &&
                coverDisplayWidth == old(coverDisplayWidth) && pendingRunners == old(pendingRunners)
      // The timer: once reached, the queue holds exactly the one new runner.
      ensures ReachesReschedule(chosen, surfaceWidth, surfaceHeight) ==>
                match WallpaperFrequency(frequencySetting)
                case Success(delay) => halt.None? && pendingRunners == [delay]
                case Failure(e) => halt == Some(Threw(e)) && pendingRunners == []
      ensures halt.None? <==>
                ReachesReschedule(chosen, surfaceWidth, surfaceHeight) && WallpaperFrequency(frequencySetting).Success?
    {
      fetch := None;
      chosen := GetCover(snapshot, draws);
      if chosen.Failure? {
        return chosen, None, Some(chosen.error);
      }
      var cover := chosen.value;
      if !ImageEquals(cover, EMPTY) {
        var displayWidth := DisplayWidth(cover.width, surfaceWidth, surfaceHeight);
        if displayWidth.Failure? {
          return chosen, None, Some(Threw(displayWidth.error));
        }
        coverDisplayWidth := displayWidth.value;
        fetch := Some(FetchRequest(cover.url, CropLeft(cover.width, coverDisplayWidth)));
      }
      pendingRunners := [];
      var frequency := WallpaperFrequency(frequencySetting);
      if frequency.Failure? {
        return chosen, fetch, Some(Threw(frequency.error));
      }
      pendingRunners := [frequency.value];
      halt := None;
    }

    /** Glide's `onResourceReady`: crops the delivered bitmap at the origin
        captured when the fetch was issued, derives `offsetMax` from the
        display width the engine holds now, and redraws. */
    method OnResourceReady(request: FetchRequest, resource: Bitmap) returns (error: Option<KotlinException>)
      requires Valid()
      modifies this`currentWallpaper, this`offsetMax, this`drawLog
      ensures Valid()
      ensures error.Some? <==> !CropAccepted(request.cropLeft, resource)
      ensures error.Some? ==>
                error.value == IllegalArgument && currentWallpaper == old(currentWallpaper) &&
                offsetMax == old(offsetMax) && drawLog == old(drawLog)
      ensures error.None? ==>
                currentWallpaper == Some(Cropped(resource, request.cropLeft)) &&
                offsetMax == Sub32(currentWallpaper.value.width, coverDisplayWidth) &&
                drawLog == old(drawLog) + [DrawCall(
                  SourceWindow(WindowShift(offsetMax, xOffset), coverDisplayWidth, resource.height),
                  Rect(0, 0, surfaceWidth, surfaceHeight))]
    {
      if !CropAccepted(request.cropLeft, resource) {
        return Some(IllegalArgument);
      }
      var wallpaper := Cropped(resource, request.cropLeft);
      currentWallpaper := Some(wallpaper);
      offsetMax := Sub32(wallpaper.width, coverDisplayWidth);
      Draw();
      error := None;
    }
  }

  /** On a portrait screen, an update followed by the completion of its
      fetch with a bitmap as wide as the chosen cover, with no other update in
      between, loads the bitmap exactly when the chosen cover is not
      `Image.EMPTY` and has a positive width; the window then drawn for any
      offset between 0 and 1 lies inside it. */
  method PortraitUpdate(engine: WallpafyEngine, snapshot: Snapshot, draws: seq<nat>, frequencySetting: Option<string>,
                        height: PixelCount, x: real)
      returns (chosen: Result<Image, Halt>, halt: Option<Halt>, loaded: bool)
    requires engine.Valid()
    requires 0 < engine.surfaceWidth <= engine.surfaceHeight && 0 < height && 0.0 <= x <= 1.0
    modifies engine
    ensures engine.Valid()
    ensures !HasBothKeys(snapshot) ==> chosen == Success(EMPTY)
    ensures HasBothKeys(snapshot) ==> IsSelection(chosen, engine.coverList, EMPTY, draws)
    ensures chosen.Success? ==> (halt.None? <==> WallpaperFrequency(frequencySetting).Success?)
    ensures chosen.Failure? ==> halt == Some(chosen.error)
    ensures loaded <==> chosen.Success? && !ImageEquals(chosen.value, EMPTY) && 0 < chosen.value.width
    ensures loaded ==> engine.currentWallpaper.Some? && engine.xOffset == x
    ensures loaded ==>
              var w := engine.currentWallpaper.value;
              var src := SourceWindow(WindowShift(engine.offsetMax, x), engine.coverDisplayWidth, w.height);
              w.height == height && 0 <= engine.offsetMax && 0 <= src.left && src.right <= w.width &&
              src.right - src.left == engine.coverDisplayWidth
  {
    var fetch;
    chosen, fetch, halt := engine.UpdateCover(snapshot, draws, frequencySetting);
    loaded := false;
    if chosen.Success? && !ImageEquals(chosen.value, EMPTY) {
      var c := chosen.value;
      assert fetch.Some?;
      if 0 < c.width {
        PortraitWindowFits(c.width, height, engine.surfaceWidth, engine.surfaceHeight, x);
        var error := engine.OnResourceReady(fetch.value, Bitmap(c.width, height));
        engine.OnOffsetsChanged(x);
        loaded := true;
      }
    }
  }
}
