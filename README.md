# Wallpafy core, modelled in Dafny

Wallpafy is an Android live wallpaper. It shows the album covers of a music
streaming account (Spotify) as the home-screen background. It has four parts,
and this project models each of them:

- **Library data.** Images, albums and users, with the `equals`, `compareTo`,
  `getCoverURL` and `getLargestCover` the app overrides or defines.
- **Spotify album lists.** The paginated calls that build a de-duplicated album
  list page by page (`getRecentlyPlayed`, `getPlaylistTracks`,
  `getTrackListFromURL`), and the calls that build the user's playlist list
  (`getUserPaylists`, `getUserPlaylistsFromURL`).
- **`PlatformManager`.** It tracks the connected platform, the user and the
  AppAuth authorization, and saves and restores them in the "platform"
  preferences.
- **`WallpafyService`.** Its engine keeps the cover list and the update timer.
  It picks a random cover that differs from the last one, crops the cover to
  the screen's aspect ratio, and draws the window the launcher's scroll offset
  selects. The service also schedules `CoverUpdateWorker` through WorkManager.

Modules:

| file | module | contents |
|---|---|---|
| `kotlin_runtime.dfy` | `Wrappers`, `KotlinRuntime` | `Option`/`Result`; Kotlin `Int`/`Long` wrap-around, truncating division, `roundToInt`, `String.toLong` |
| `image.dfy` | `ImageData` | `Image` |
| `album.dfy` | `AlbumData` | `Album` |
| `user.dfy` | `UserData` | `User` |
| `platform_enum.dfy` | `Platform` | `PlatformEnum` |
| `spotify_api.dfy` | `SpotifyApi` | the album fold and the pagination of `SpotifyAPI` |
| `platform_manager.dfy` | `Manager` | the classes `PlatformStore` and `PlatformManager` |
| `wallpafy_service.dfy` | `WallpaperEngine` | cover cache, selection, frequency, geometry, worker request, and the class `WallpafyEngine` |

How the source's behaviour becomes Dafny:

- **Equality.** Kotlin's `==` on `Image`, `Album` and `User` calls the
  overridden `equals`. The model writes `ImageEquals`, `AlbumEquals` and
  `UserEquals` wherever the source writes `==`.
- **Integers.** Kotlin `Int`/`Long` arithmetic wraps around (`Wrap32`,
  `Wrap64`). Integer `/` truncates toward zero (`TruncDiv`). `roundToInt`
  rounds half up and saturates.
- **Randomness.** `shuffled().first()` becomes a sequence of draws. Running out
  of draws is reported as `StillDrawing`.
- **Retrofit and Glide.** A Retrofit call's answers are a sequence of
  `Response` values. Glide's callback is `OnResourceReady`, which receives the
  `FetchRequest` that `UpdateCover` returned.
- **Preferences.** Stored preferences are `Option` fields, where `None` is an
  absent key.

Facts about the code that the model keeps as written:

- **No clamping.** The displayed width `D = round(W * surfaceWidth / surfaceHeight)`
  of a cover `W` pixels wide is not limited to `W`. The crop origin is
  `left = (W - D) / 2`, and the scroll range is
  `offsetMax = (W - left) - D`, the cropped width minus `D`. For a 1000-pixel
  cover on a 9:16 screen that gives `D = 563`, `left = 218` and
  `offsetMax = 219` (`ExampleCrops`).
- **Displays wider than the cover.** When `D > W + 1` the crop origin is
  negative, and `Bitmap.createBitmap` throws `IllegalArgumentException`
  (`WiderDisplayIsRejected`); a 16:9 screen is such a case. When `D = W + 1`
  the crop is accepted with origin 0, `offsetMax` is -1, and for an offset
  above one half the drawn window starts one column left of the bitmap
  (`OnePixelWiderDisplay`).
- **The display width runs ahead of the bitmap.** `updateCover` sets
  `coverDisplayWidth` when it issues the fetch, while `currentWallpaper` and
  `offsetMax` change only when the fetch completes. A draw in between, or
  after a rejected crop, pairs the new width with the old bitmap and can
  draw past its edge (`StaleDisplayWidthOverruns`).
- **`lastCover` is never updated.** The engine never assigns `lastCover`, so
  it stays `Image.EMPTY`. The loop "draw again while equal to the last cover"
  therefore only rejects covers with an empty URL (`SelectionAgainstEmpty`).
  An album without images has `Image.EMPTY` as its largest cover. So when every
  cover in a list of two or more has an empty URL, every draw equals
  `lastCover`, the loop never exits and the main thread hangs
  (`AllEmptyNeverSelects`). The engine's `Valid()` records `lastCover == EMPTY`.

## Model

| member | source | states |
|---|---|---|
| `KotlinRuntime.Sub32` | app/src/main/java/com/robro/wallpafy/platform/spotify/data/Image.kt:21 | definition: `Int` subtraction, the exact difference wrapped to 32 bits (the wrap itself is stated by `Wrap32`) |
| `KotlinRuntime.Add32` | app/src/main/java/com/robro/wallpafy/WallpafyService.kt:211 | definition: `Int` addition, the exact sum wrapped to 32 bits |
| `KotlinRuntime.Abs32` | app/src/main/java/com/robro/wallpafy/platform/spotify/data/Album.kt:37 | definition: `kotlin.math.abs` on `Int`, where `abs(Int.MIN_VALUE)` is `Int.MIN_VALUE` |
| `KotlinRuntime.TruncDiv` | app/src/main/java/com/robro/wallpafy/WallpafyService.kt:170 | definition: integer `/`, which truncates toward zero, also for negative dividends |
| `KotlinRuntime.Wrap32` | app/src/main/java/com/robro/wallpafy/platform/spotify/data/Image.kt:21 | the wrapped value is in the `Int` range and differs from the exact value by a multiple of 2^32; values already in range are unchanged |
| `KotlinRuntime.Wrap64` | app/src/main/java/com/robro/wallpafy/WallpafyService.kt:157 | the wrapped value is in the `Long` range and agrees with the exact value modulo 2^64; values already in range are unchanged |
| `KotlinRuntime.RoundToInt` | app/src/main/java/com/robro/wallpafy/WallpafyService.kt:169 | `roundToInt` gives the nearest `Int`, rounding halves up, within 1/2 of the argument when that is in range, and saturates at `Int.MIN_VALUE`/`Int.MAX_VALUE` |
| `KotlinRuntime.FloatQuotient` | app/src/main/java/com/robro/wallpafy/WallpafyService.kt:168 | definition: `surfaceWidth.toFloat() / surfaceHeight.toFloat()` as an exact quotient (bounded by `QuotientAtMostOne`) |
| `KotlinRuntime.IntTimesFloat` | app/src/main/java/com/robro/wallpafy/WallpafyService.kt:169 | definition: `Int * Float` as an exact product (bounded by `ScaleBetween`) |
| `KotlinRuntime.QuotientAtMostOne` | app/src/main/java/com/robro/wallpafy/WallpafyService.kt:168 | the screen ratio `width / height` of a portrait screen lies in (0, 1] |
| `KotlinRuntime.ScaleBetween` | app/src/main/java/com/robro/wallpafy/WallpafyService.kt:208 | scaling a non-negative `Int` by a factor in [0, 1] stays between 0 and the `Int` |
| `KotlinRuntime.RoundBetween` | app/src/main/java/com/robro/wallpafy/WallpafyService.kt:208 | rounding a value in [0, hi] gives an integer in [0, hi] |
| `KotlinRuntime.ParseLong` | app/src/main/java/com/robro/wallpafy/WallpafyService.kt:157 | definition of `String.toLong`: an optional sign, at least one ASCII digit, the value inside the `Long` range, `None` standing for `NumberFormatException` (characterised by `ParseLongAccepts` and `ParseLongOfDecimal`) |
| `KotlinRuntime.ParseLongAccepts` | app/src/main/java/com/robro/wallpafy/WallpafyService.kt:157 | `String.toLong` rejects the empty string, a lone sign, a leading character that is neither sign nor digit, and any later non-digit; an unsigned digit string gives its value exactly when that fits a `Long` |
| `KotlinRuntime.DecimalStringDigits` | app/src/main/java/com/robro/wallpafy/WallpafyService.kt:157 | the decimal rendering of a natural number is a non-empty digit string whose value is that number |
| `KotlinRuntime.ParseLongOfDecimal` | app/src/main/java/com/robro/wallpafy/WallpafyService.kt:157 | `toLong` of the decimal rendering of an in-range natural number gives that number back |
| `KotlinRuntime.ParseLongOfNegativeDecimal` | app/src/main/java/com/robro/wallpafy/WallpafyService.kt:258 | `toLong` of `-` followed by a decimal rendering gives the negated number, so negative intervals parse |
| `ImageData.ImageEquals` | app/src/main/java/com/robro/wallpafy/platform/spotify/data/Image.kt:23-25 | definition of `Image.equals`: equal URLs, whatever the sizes |
| `ImageData.CompareTo` | app/src/main/java/com/robro/wallpafy/platform/spotify/data/Image.kt:21 | definition of `Image.compareTo`: `height - other.height` on `Int` |
| `ImageData.ImageEqualsIsEquivalence` | app/src/main/java/com/robro/wallpafy/platform/spotify/data/Image.kt:23-25 | image equality is reflexive, symmetric and transitive, and ignores height and width |
| `ImageData.EqualsEmptyIffNoUrl` | app/src/main/java/com/robro/wallpafy/platform/spotify/data/Image.kt:18-25 | an image equals `Image.EMPTY` exactly when its URL is empty; `EMPTY` is 0 by 0 |
| `ImageData.CompareToMatchesHeights` | app/src/main/java/com/robro/wallpafy/platform/spotify/data/Image.kt:21 | for non-negative heights `compareTo` is the height difference: negative, zero and antisymmetric exactly as the heights are ordered |
| `ImageData.CompareToCanOverflow` | app/src/main/java/com/robro/wallpafy/platform/spotify/data/Image.kt:21 | with a height of `Int.MIN_VALUE` the subtraction wraps, so a lower image compares greater |
| `ImageData.OrderingInconsistentWithEquals` | app/src/main/java/com/robro/wallpafy/platform/spotify/data/Image.kt:21-25 | two images of equal height compare 0 yet are not equal |
| `AlbumData.AlbumEquals` | app/src/main/java/com/robro/wallpafy/platform/spotify/data/Album.kt:24-26 | definition of `Album.equals`: equal ids |
| `AlbumData.AlbumEqualsIgnoresTypeAndCovers` | app/src/main/java/com/robro/wallpafy/platform/spotify/data/Album.kt:24-26 | album equality is equality of ids, whatever the type and the covers |
| `AlbumData.AtLeast` | app/src/main/java/com/robro/wallpafy/platform/spotify/data/Album.kt:36 | the filter keeps exactly the covers at least `height` high |
| `AlbumData.MinByDistance` | app/src/main/java/com/robro/wallpafy/platform/spotify/data/Album.kt:37 | `minBy` returns one of its elements, whose distance is at most every element's distance |
| `AlbumData.CoverURL` | app/src/main/java/com/robro/wallpafy/platform/spotify/data/Album.kt:35-39 | with no cover high enough the first cover's URL is returned; the call throws `IndexOutOfBounds` exactly when there are no covers |
| `AlbumData.Distance` | app/src/main/java/com/robro/wallpafy/platform/spotify/data/Album.kt:37 | definition of the `minBy` selector `abs(height - it.height)` on `Int` |
| `AlbumData.DistanceAbove` | app/src/main/java/com/robro/wallpafy/platform/spotify/data/Album.kt:37 | for a cover at least `height` high the selector's distance is the height surplus, without overflow |
| `AlbumData.CoverURLClosestAbove` | app/src/main/java/com/robro/wallpafy/platform/spotify/data/Album.kt:35-39 | when some cover is high enough, the URL returned is that of a cover of least height among those high enough |
| `AlbumData.MaxFrom` | app/src/main/java/com/robro/wallpafy/platform/spotify/data/Album.kt:45 | `max()` returns one of its elements, and with non-negative heights one at least as high as every element |
| `AlbumData.LargestCover` | app/src/main/java/com/robro/wallpafy/platform/spotify/data/Album.kt:44-46 | `Image.EMPTY` without covers, otherwise one of the album's covers |
| `AlbumData.LargestCoverIsHighest` | app/src/main/java/com/robro/wallpafy/platform/spotify/data/Album.kt:44-46 | with non-negative heights the largest cover is at least as high as every cover of the album |
| `AlbumData.LargestCovers` | app/src/main/java/com/robro/wallpafy/CoverUpdateWorker.kt:41 | the stored cover array has one entry per album: that album's largest cover |
| `UserData.ProfilePictureURL` | app/src/main/java/com/robro/wallpafy/platform/spotify/data/User.kt:24-26 | definition of `getProfilePictureURL`: `images.firstOrNull()?.url ?: ""` |
| `UserData.ContentEquals` | app/src/main/java/com/robro/wallpafy/platform/spotify/data/User.kt:35 | definition of `Array.contentEquals` on images: same length and pairwise `Image.equals` |
| `UserData.UserEquals` | app/src/main/java/com/robro/wallpafy/platform/spotify/data/User.kt:28-38 | definition of `User.equals`: same name and content-equal image arrays |
| `UserData.ProfilePictureIsFirstURL` | app/src/main/java/com/robro/wallpafy/platform/spotify/data/User.kt:24-26 | the profile picture is the first image's URL, and "" exactly when there is no image or its URL is empty |
| `UserData.LoggedOutHasNoPicture` | app/src/main/java/com/robro/wallpafy/platform/spotify/data/User.kt:18-26 | the logged-out user has the empty profile picture |
| `UserData.UserEqualsIsEquivalence` | app/src/main/java/com/robro/wallpafy/platform/spotify/data/User.kt:28-38 | user equality (same name, content-equal image arrays) is an equivalence |
| `UserData.EqualUsersSamePicture` | app/src/main/java/com/robro/wallpafy/platform/spotify/data/User.kt:24-38 | equal users show the same profile picture |
| `UserData.LoggedOutCharacterization` | app/src/main/java/com/robro/wallpafy/platform/spotify/data/User.kt:18-38 | a user equals `LOGGED_OUT` exactly when its name is empty and it has one image whose URL is empty |
| `Platform.Name` | app/src/main/java/com/robro/wallpafy/platform/PlatformEnum.kt:13-15 | definition of the enum constants' `name`s, `LOG_OUT` and `SPOTIFY` |
| `Platform.PlatformEnumFromName` | app/src/main/java/com/robro/wallpafy/platform/PlatformEnum.kt:24-30 | definition of `getPlatformEnumFromName`: the constant of that name, `LOG_OUT` for any other string |
| `Platform.GetPlatformAPI` | app/src/main/java/com/robro/wallpafy/platform/PlatformEnum.kt:39-44 | the Spotify API is chosen exactly for `SPOTIFY` |
| `Platform.NameRoundTrip` | app/src/main/java/com/robro/wallpafy/platform/PlatformEnum.kt:24-30 | decoding an enum constant's name gives the constant back |
| `Platform.NameInjective` | app/src/main/java/com/robro/wallpafy/platform/PlatformEnum.kt:13-15 | distinct constants have distinct names |
| `Platform.UnknownNameIsLogOut` | app/src/main/java/com/robro/wallpafy/platform/PlatformEnum.kt:24-30 | every unknown name decodes to `LOG_OUT`, and `SPOTIFY` only comes from its own name |
| `SpotifyApi.HasNext` | app/src/main/java/com/robro/wallpafy/platform/spotify/SpotifyAPI.kt:327 | definition of `!it.next.isNullOrEmpty()` |
| `SpotifyApi.ContainsAlbum` | app/src/main/java/com/robro/wallpafy/platform/spotify/SpotifyAPI.kt:320 | definition of `acc.contains(album)`, through `Album.equals` |
| `SpotifyApi.Admitted` | app/src/main/java/com/robro/wallpafy/platform/spotify/SpotifyAPI.kt:320 | definition of the compilation filter `!hideCompilations || album.albumType != COMPILATION` |
| `SpotifyApi.AddAlbum` | app/src/main/java/com/robro/wallpafy/platform/spotify/SpotifyAPI.kt:318-324 | definition of the fold's lambda: append the album when it is new and admitted |
| `SpotifyApi.FoldAlbums` | app/src/main/java/com/robro/wallpafy/platform/spotify/SpotifyAPI.kt:318-324 | definition of `items.fold(accTrackList)`, a left fold of the lambda (characterised by `FoldIsFirstNewOccurrences`, `FoldNoDuplicates`, `FoldContains`) |
| `SpotifyApi.AdmittedOnly` | app/src/main/java/com/robro/wallpafy/platform/spotify/SpotifyAPI.kt:159 | the reference filter keeps exactly the items that are not compilations hidden by the flag |
| `SpotifyApi.ContainsConcat` | app/src/main/java/com/robro/wallpafy/platform/spotify/SpotifyAPI.kt:159 | `acc.contains` (by album `equals`) on a concatenation is containment in either part |
| `SpotifyApi.AdmittedOnlySnoc` | app/src/main/java/com/robro/wallpafy/platform/spotify/SpotifyAPI.kt:159 | filtering an appended item adds it exactly when it is admitted |
| `SpotifyApi.FoldConcat` | app/src/main/java/com/robro/wallpafy/platform/spotify/SpotifyAPI.kt:318-324 | folding two pages one after the other is folding their concatenation |
| `SpotifyApi.FoldSnoc` | app/src/main/java/com/robro/wallpafy/platform/spotify/SpotifyAPI.kt:157-163 | folding one more album adds it at the end exactly when it is admitted and not yet present |
| `SpotifyApi.FoldKeepsPrefix` | app/src/main/java/com/robro/wallpafy/platform/spotify/SpotifyAPI.kt:157-163 | the fold only appends: the accumulated list is a prefix of the result |
| `SpotifyApi.FoldContains` | app/src/main/java/com/robro/wallpafy/platform/spotify/SpotifyAPI.kt:157-163 | an album is in the result exactly when it was accumulated or is an admitted item |
| `SpotifyApi.FoldComplete` | app/src/main/java/com/robro/wallpafy/platform/spotify/SpotifyAPI.kt:157-163 | every admitted item ends up in the result |
| `SpotifyApi.FoldNoDuplicates` | app/src/main/java/com/robro/wallpafy/platform/spotify/SpotifyAPI.kt:157-163 | folding onto a list without duplicate ids gives a list without duplicate ids |
| `SpotifyApi.FoldAddsOnlyAdmittedNewAlbums` | app/src/main/java/com/robro/wallpafy/platform/spotify/SpotifyAPI.kt:157-163 | every album after the accumulated prefix is admitted, was not accumulated, and is one of the items |
| `SpotifyApi.FirstNewOccurrencesSnoc` | app/src/main/java/com/robro/wallpafy/platform/spotify/SpotifyAPI.kt:157-163 | the reference definition of the de-duplication extends one item at a time as the fold does |
| `SpotifyApi.FoldIsFirstNewOccurrences` | app/src/main/java/com/robro/wallpafy/platform/spotify/SpotifyAPI.kt:157-163 | the fold is the accumulator followed by the first new occurrence of each admitted id, in item order |
| `SpotifyApi.FirstNewOccurrencesIsSubsequence` | app/src/main/java/com/robro/wallpafy/platform/spotify/SpotifyAPI.kt:157-163 | the first new occurrences keep the items' order |
| `SpotifyApi.SubsequenceSnoc` | app/src/main/java/com/robro/wallpafy/platform/spotify/SpotifyAPI.kt:157-163 | appending an item to both sides, or to the longer side only, keeps the subsequence relation |
| `SpotifyApi.SubsequenceOfSingleton` | app/src/main/java/com/robro/wallpafy/platform/spotify/SpotifyAPI.kt:157-163 | the last element of a list is a subsequence of it |
| `SpotifyApi.FoldIsAccumulatorPlusSubsequence` | app/src/main/java/com/robro/wallpafy/platform/spotify/SpotifyAPI.kt:157-163 | the fold is the accumulator followed by a subsequence of the admitted items |
| `SpotifyApi.AdmittedOnlyIsSubsequence` | app/src/main/java/com/robro/wallpafy/platform/spotify/SpotifyAPI.kt:159 | the admitted items keep the items' order |
| `SpotifyApi.SubsequenceDropHead` | app/src/main/java/com/robro/wallpafy/platform/spotify/SpotifyAPI.kt:157-163 | a subsequence of a list's tail is a subsequence of the list |
| `SpotifyApi.SubsequenceWeaken` | app/src/main/java/com/robro/wallpafy/platform/spotify/SpotifyAPI.kt:157-163 | dropping the first element of a subsequence keeps it a subsequence |
| `SpotifyApi.SubsequenceTransitive` | app/src/main/java/com/robro/wallpafy/platform/spotify/SpotifyAPI.kt:157-163 | the subsequence relation is transitive |
| `SpotifyApi.TrackListFromURL` | app/src/main/java/com/robro/wallpafy/platform/spotify/SpotifyAPI.kt:304-346 | definition of `getTrackListFromURL` over the successive responses: fold the page, follow `next`, success callback on the last page, error callback on a failed call, no callback on a null body (characterised by `TrackPagesFoldAsOne`, `SucceededIsFold`, `FailureEndsChain`) |
| `SpotifyApi.AlbumList` | app/src/main/java/com/robro/wallpafy/platform/spotify/SpotifyAPI.kt:145-185 | definition of `getRecentlyPlayed`/`getPlaylistTracks`: the first page folded from the empty list, then `getTrackListFromURL` |
| `SpotifyApi.UserPlaylistsFromURL` | app/src/main/java/com/robro/wallpafy/platform/spotify/SpotifyAPI.kt:264-298 | definition of `getUserPlaylistsFromURL`: append each page's playlists, follow `next` (characterised by `PlaylistPagesConcatenate`) |
| `SpotifyApi.UserPlaylistList` | app/src/main/java/com/robro/wallpafy/platform/spotify/SpotifyAPI.kt:106-136 | definition of `getUserPaylists`: the first page, then `getUserPlaylistsFromURL` |
| `SpotifyApi.AlbumListStartsFromEmpty` | app/src/main/java/com/robro/wallpafy/platform/spotify/SpotifyAPI.kt:145-185 | the first request of `getRecentlyPlayed`/`getPlaylistTracks` behaves as `getTrackListFromURL` started from the empty list |
| `SpotifyApi.UserPlaylistListStartsFromEmpty` | app/src/main/java/com/robro/wallpafy/platform/spotify/SpotifyAPI.kt:106-136 | the first request of `getUserPaylists` behaves as `getUserPlaylistsFromURL` started from the empty list |
| `SpotifyApi.TrackPagesFoldAsOne` | app/src/main/java/com/robro/wallpafy/platform/spotify/SpotifyAPI.kt:304-346 | a chain of pages linked by `next` succeeds with the fold of all their items; responses after the last page are never used |
| `SpotifyApi.AlbumListHasNoDuplicates` | app/src/main/java/com/robro/wallpafy/platform/spotify/SpotifyAPI.kt:145-185 | a completed album list has no two albums with the same id |
| `SpotifyApi.SucceededIsFold` | app/src/main/java/com/robro/wallpafy/platform/spotify/SpotifyAPI.kt:304-346 | every successful paginated result is the fold, onto the starting list, of the items of the pages consumed (each body up to the first without `next`, `ConsumedItems`) |
| `SpotifyApi.PlaylistPagesConcatenate` | app/src/main/java/com/robro/wallpafy/platform/spotify/SpotifyAPI.kt:264-298 | a chain of playlist pages succeeds with the accumulator followed by all pages' playlists, in order |
| `SpotifyApi.FailureEndsChain` | app/src/main/java/com/robro/wallpafy/platform/spotify/SpotifyAPI.kt:315-343 | a failed call ends the chain with the error callback; a null body ends it with no callback |
| `Manager.Serialize` | app/src/main/java/com/robro/wallpafy/platform/PlatformManager.kt:287-296 | definition of `jsonSerialize`: the platform's enum name and the user |
| `Manager.SerializeRoundTrip` | app/src/main/java/com/robro/wallpafy/platform/PlatformManager.kt:287-307 | deserializing the serialized state gives back the platform and the user |
| `Manager.PlatformManager.constructor` | app/src/main/java/com/robro/wallpafy/platform/PlatformManager.kt:53-60 | a new manager is logged out, with `LOGGED_OUT`, unauthorized, and the log-out API |
| `Manager.PlatformManager.IsAuthorized` | app/src/main/java/com/robro/wallpafy/platform/PlatformManager.kt:247 | definition of `isAuthorized()`: the `AuthState` is authorized |
| `Manager.PlatformManager.IsReady` | app/src/main/java/com/robro/wallpafy/platform/PlatformManager.kt:252-254 | definition of `isReady()`: a platform other than `LOG_OUT`, a user not equal to `LOGGED_OUT`, and authorized |
| `Manager.PlatformManager.SetCurrentPlatform` | app/src/main/java/com/robro/wallpafy/platform/PlatformManager.kt:53-58 | the platform is set, the API follows it, and the authorization is reset; the user is kept |
| `Manager.PlatformManager.StartLoginActivity` | app/src/main/java/com/robro/wallpafy/platform/PlatformManager.kt:69-76 | the chosen platform is selected, unauthorized, with its API |
| `Manager.PlatformManager.RequestToken` | app/src/main/java/com/robro/wallpafy/platform/PlatformManager.kt:86-115 | a token is requested exactly for an authorization response; an exception logs out; the state is unauthorized until the token arrives |
| `Manager.PlatformManager.OnTokenResponse` | app/src/main/java/com/robro/wallpafy/platform/PlatformManager.kt:101-113 | a token exception logs out; a token response sets the authorization, and only an authorized state asks for the user's information |
| `Manager.PlatformManager.OnUserInformation` | app/src/main/java/com/robro/wallpafy/platform/PlatformManager.kt:270-272 | the user received becomes the current user |
| `Manager.PlatformManager.LogOut` | app/src/main/java/com/robro/wallpafy/platform/PlatformManager.kt:122-129 | back to `LOG_OUT`, `LOGGED_OUT` and unauthorized, not ready, and both saved entries removed |
| `Manager.PlatformManager.JsonSerialize` | app/src/main/java/com/robro/wallpafy/platform/PlatformManager.kt:287-296 | the JSON decodes back to the current platform and carries the current user |
| `Manager.PlatformManager.JsonDeserialize` | app/src/main/java/com/robro/wallpafy/platform/PlatformManager.kt:301-307 | the platform is decoded from its name and set through the setter; the user is taken from the JSON |
| `Manager.PlatformManager.SaveState` | app/src/main/java/com/robro/wallpafy/platform/PlatformManager.kt:230-242 | when connected both entries are written with the current state, otherwise both are removed |
| `Manager.PlatformManager.LoadState` | app/src/main/java/com/robro/wallpafy/platform/PlatformManager.kt:208-225 | the saved state is restored only when both entries are present, and the answer is `isReady()` of the resulting state |
| `Manager.SaveThenLoad` | app/src/main/java/com/robro/wallpafy/platform/PlatformManager.kt:208-242 | a manager loading what another saved gets back its platform, user and authorization, and is ready exactly when the saver was |
| `WallpaperEngine.StoredSnapshot` | app/src/main/java/com/robro/wallpafy/CoverUpdateWorker.kt:38-49 | the worker stores the current time and, per album, that album's largest cover |
| `WallpaperEngine.HasBothKeys` | app/src/main/java/com/robro/wallpafy/WallpafyService.kt:128 | definition of `prefJson.has(LAST_UPDATE_JSON) && prefJson.has(COVER_ARRAY_JSON)` |
| `WallpaperEngine.Refresh` | app/src/main/java/com/robro/wallpafy/WallpafyService.kt:131-139 | definition of the cache update: take the stored list and time when the stored time is later (characterised by `RefreshIsMonotone`) |
| `WallpaperEngine.RefreshIsMonotone` | app/src/main/java/com/robro/wallpafy/WallpafyService.kt:128-139 | the cached update time never decreases and becomes the newer of the two; the cover list changes only when the stored time is newer; refreshing twice is refreshing once |
| `WallpaperEngine.RefreshFromWorker` | app/src/main/java/com/robro/wallpafy/WallpafyService.kt:131-139 | after the worker saves a newer snapshot, the engine's cache becomes the largest covers and the save time |
| `WallpaperEngine.Pick` | app/src/main/java/com/robro/wallpafy/WallpafyService.kt:141 | a draw picks an element of the cover list |
| `WallpaperEngine.IsSelection` | app/src/main/java/com/robro/wallpafy/WallpafyService.kt:141-146 | specification of the retry loop: `NoSuchElementException` exactly for an empty list; otherwise a cover of the list, not equal to `lastCover` when there are two or more, drawn after draws that all equal `lastCover`; `StillDrawing` exactly when no draw can win |
| `WallpaperEngine.SelectCover` | app/src/main/java/com/robro/wallpafy/WallpafyService.kt:141-146 | an empty list throws `NoSuchElementException`; otherwise the cover returned is in the list, differs from the last cover when there are two or more, and is the first draw that does (the first draw with one cover); running out of draws is `StillDrawing` |
| `WallpaperEngine.SelectionIsDeterministic` | app/src/main/java/com/robro/wallpafy/WallpafyService.kt:141-146 | the selection specification determines one outcome for given draws |
| `WallpaperEngine.SelectionAgainstEmpty` | app/src/main/java/com/robro/wallpafy/WallpafyService.kt:141-146 | with `lastCover` still `Image.EMPTY`, a selection from two or more covers has a non-empty URL |
| `WallpaperEngine.AllEmptyNeverSelects` | app/src/main/java/com/robro/wallpafy/WallpafyService.kt:141-146 | with `lastCover` still `Image.EMPTY` and two or more covers, none with a URL, no sequence of draws ends the loop: the selection is `StillDrawing` |
| `WallpaperEngine.WallpaperFrequency` | app/src/main/java/com/robro/wallpafy/WallpafyService.kt:152-158 | the delay fails exactly when the setting (default "3600") is not a `Long`, with `NumberFormatException`; otherwise it is the seconds times 1000 modulo 2^64 |
| `WallpaperEngine.DefaultFrequencyIsOneHour` | app/src/main/java/com/robro/wallpafy/WallpafyService.kt:47-158 | without a setting the update delay is 3 600 000 ms |
| `WallpaperEngine.FrequencyOfSeconds` | app/src/main/java/com/robro/wallpafy/WallpafyService.kt:152-158 | a setting of n seconds gives n * 1000 ms when that fits a `Long` |
| `WallpaperEngine.FrequencyCanWrap` | app/src/main/java/com/robro/wallpafy/WallpafyService.kt:157 | a setting above `Long.MAX_VALUE / 1000` seconds wraps around, and below 2^64 / 1000 gives a negative delay |
| `WallpaperEngine.DisplayWidth` | app/src/main/java/com/robro/wallpafy/WallpafyService.kt:167-169 | `roundToInt` of a NaN throws exactly when the height is 0 and the width or cover width is 0; other zero heights saturate to `Int.MAX_VALUE`/`Int.MIN_VALUE` |
| `WallpaperEngine.CropLeft` | app/src/main/java/com/robro/wallpafy/WallpafyService.kt:170 | definition of `(width - coverDisplayWidth) / 2` on `Int` |
| `WallpaperEngine.CropAccepted` | app/src/main/java/com/robro/wallpafy/WallpafyService.kt:179-186 | definition of `createBitmap`'s argument checks for `(resource, offset, 0, resource.width - offset, resource.height)` |
| `WallpaperEngine.CropAcceptedIff` | app/src/main/java/com/robro/wallpafy/WallpafyService.kt:179-186 | `createBitmap(resource, left, 0, width - left, height)` succeeds exactly when 0 <= left < width and height > 0 |
| `WallpaperEngine.Cropped` | app/src/main/java/com/robro/wallpafy/WallpafyService.kt:179-186 | the crop keeps the height and the columns right of `left` |
| `WallpaperEngine.WindowShift` | app/src/main/java/com/robro/wallpafy/WallpafyService.kt:208 | definition of `(offsetMax * xOffset).roundToInt()` (bounded by `WindowShiftBounds`) |
| `WallpaperEngine.SourceWindow` | app/src/main/java/com/robro/wallpafy/WallpafyService.kt:211 | definition of the source `Rect(0 + offset, 0, coverDisplayWidth + offset, currentWallpaper.height)` |
| `WallpaperEngine.PortraitDisplayWidth` | app/src/main/java/com/robro/wallpafy/WallpafyService.kt:167-169 | on a portrait screen the display width lies in [0, cover width] and within 1/2 of width * ratio |
| `WallpaperEngine.CropOfNarrowerDisplay` | app/src/main/java/com/robro/wallpafy/WallpafyService.kt:170-188 | a display no wider than the cover gives an accepted crop and `offsetMax = (w - d) - (w - d) / 2 >= 0` |
| `WallpaperEngine.WiderDisplayIsRejected` | app/src/main/java/com/robro/wallpafy/WallpafyService.kt:170-186 | a display wider than the cover by two or more pixels gives a negative `left`, which `createBitmap` rejects |
| `WallpaperEngine.WindowShiftBounds` | app/src/main/java/com/robro/wallpafy/WallpafyService.kt:208 | for an offset in [0, 1] the shift lies in [0, offsetMax], and is exactly 0 and offsetMax at the ends |
| `WallpaperEngine.SourceWindowInside` | app/src/main/java/com/robro/wallpafy/WallpafyService.kt:208-211 | the source rectangle lies inside the wallpaper and is `displayWidth` wide |
| `WallpaperEngine.PortraitWindowFits` | app/src/main/java/com/robro/wallpafy/WallpafyService.kt:167-211 | on a portrait screen the whole pipeline (display width, crop, offsetMax, shift) draws a window inside the cropped wallpaper |
| `WallpaperEngine.ExampleCrops` | app/src/main/java/com/robro/wallpafy/WallpafyService.kt:167-188 | a 1000-pixel cover on 9:16 gives width 563, left 218, wallpaper 782 and range 219; on 16:9 gives width 1778 and left -389, which is rejected |
| `WallpaperEngine.OnePixelWiderDisplay` | app/src/main/java/com/robro/wallpafy/WallpafyService.kt:167-211 | a display one pixel wider than the cover is accepted with origin 0 and `offsetMax` -1, and above offset one half the window starts at column -1; 1000 at 1001:1000 is an instance |
| `WallpaperEngine.StaleDisplayWidthOverruns` | app/src/main/java/com/robro/wallpafy/WallpafyService.kt:169-211 | a display width set for a new cover, drawn with the previous wallpaper and `offsetMax` (219 on a 782-pixel bitmap), gives a window ending at column 1344, past the bitmap |
| `WallpaperEngine.StartUpdateWorker` | app/src/main/java/com/robro/wallpafy/WallpafyService.kt:254-280 | an interval that is not a `Long` throws `NumberFormatException`; otherwise periodic work is built exactly when the interval is not zero and the playlist is neither absent nor the custom one, repeating every parsed number of seconds, with a tenth of that as flex interval, the interval as initial delay, and the stored playlist id |
| `WallpaperEngine.WorkerForSeconds` | app/src/main/java/com/robro/wallpafy/WallpafyService.kt:256-271 | an interval of n seconds schedules the playlist's work every n seconds, and none for 0 or a missing setting |
| `WallpaperEngine.WorkerForNegativeSeconds` | app/src/main/java/com/robro/wallpafy/WallpafyService.kt:256-271 | a negative interval of -n seconds with a chosen playlist still builds a request, repeating every -n seconds with flex -n/10 |
| `WallpaperEngine.ReachesReschedule` | app/src/main/java/com/robro/wallpafy/WallpafyService.kt:163-197 | definition: `updateCover` gets to `removeCallbacks`/`postDelayed` when `getCover` returns and, for a cover that is not `Image.EMPTY`, the display width does not throw |
| `WallpaperEngine.WallpafyEngine.constructor` | app/src/main/java/com/robro/wallpafy/WallpafyService.kt:61-71 | a new engine has the frame's size, no wallpaper, an empty cache and no pending update |
| `WallpaperEngine.WallpafyEngine.OnCreate` | app/src/main/java/com/robro/wallpafy/WallpafyService.kt:77-80 | an immediate update is posted |
| `WallpaperEngine.WallpafyEngine.OnDestroy` | app/src/main/java/com/robro/wallpafy/WallpafyService.kt:82-85 | every pending update is removed |
| `WallpaperEngine.WallpafyEngine.OnSurfaceChanged` | app/src/main/java/com/robro/wallpafy/WallpafyService.kt:87-96 | the surface size is recorded |
| `WallpaperEngine.WallpafyEngine.Draw` | app/src/main/java/com/robro/wallpafy/WallpafyService.kt:203-217 | without a wallpaper nothing is drawn; otherwise the window at the scroll offset is drawn onto the whole surface |
| `WallpaperEngine.WallpafyEngine.OnOffsetsChanged` | app/src/main/java/com/robro/wallpafy/WallpafyService.kt:98-116 | the offset is recorded and the wallpaper redrawn at it |
| `WallpaperEngine.WallpafyEngine.GetCover` | app/src/main/java/com/robro/wallpafy/WallpafyService.kt:122-147 | the cache is refreshed from the snapshot; without both keys the result is `Image.EMPTY`; otherwise the result is a selection from the cached list |
| `WallpaperEngine.WallpafyEngine.UpdateCover` | app/src/main/java/com/robro/wallpafy/WallpafyService.kt:163-198 | the cache is refreshed and `chosen` is `getCover`'s selection (`Image.EMPTY` without both keys); a chosen cover that is not `EMPTY` sets the display width and issues a fetch of exactly its URL with its crop origin, an `EMPTY` one issues none; once the reschedule is reached the queue holds exactly one runner after the frequency (or none when the frequency throws); an exception in `getCover` or the display width leaves the queue and the width unchanged; it ends normally exactly when the reschedule is reached and the frequency parses |
| `WallpaperEngine.WallpafyEngine.OnResourceReady` | app/src/main/java/com/robro/wallpafy/WallpafyService.kt:175-190 | a rejected crop throws and changes nothing; an accepted crop becomes the wallpaper, with `offsetMax` its width minus the display width, and is drawn |
| `WallpaperEngine.PortraitUpdate` | app/src/main/java/com/robro/wallpafy/WallpafyService.kt:163-217 | on a portrait screen, an update whose fetch completes with a bitmap as wide as the chosen cover loads it exactly when that cover is not `Image.EMPTY` and has a positive width; then `offsetMax >= 0` and the window drawn for any offset in [0, 1] lies inside the wallpaper; it ends normally exactly when the frequency parses |

## Left out

- JSON parsing and building (Gson, `JsonParser`, AppAuth's JSON). Saved entries are typed values, so malformed JSON and `getAsLong` failures are not modelled.
- I/O through `SharedPreferences`. Preferences are passed in as values (`Snapshot`) or held in `PlatformStore`.
- Network I/O (Retrofit, Glide). A call's outcomes are passed in as a sequence of responses, and a download as a `Bitmap` of some size.
- Canvas pixels and `lockCanvas` returning null. A draw is recorded as its source and destination rectangles.
- Threading, the `Handler` and WorkManager's scheduling. Posted updates are a list of delays, and scheduling is the `WorkRequest` value built.
- WorkManager's own clamping of intervals, and `Duration.ofSeconds(n).toMillis` overflow. Intervals are kept in nanoseconds without limits.
- Kotlin `Float` rounding. The screen ratio and the scroll offset are exact reals, and a NaN or infinite scroll offset is not modelled.
- Unicode digits accepted by `String.toLong`. Only ASCII digits are modelled.
- `Manager.PlatformManager.RequestToken`: the call with neither a response nor an exception (both null from `fromIntent`) is not modelled; what AppAuth's `AuthState.update(null, null)` then does is AppAuth library behaviour, not modelled here.
- AppAuth's token exchange, `AuthorizationService` and access-token refresh. They are reduced to their outcomes, and authorization to one flag.
- `getUserInformation`, and the access-token plumbing of `getUserPlaylists`/`getAlbumList`. They are reduced to the callbacks they deliver.
- The UI: activities, fragments, settings screens, `onStartCommand`, `onUnbind` and `LogOutAPI`'s empty callbacks.
- `AlbumData.CoverURLClosestAbove`: it requires a non-negative `height`. For a negative height the distance can wrap around.
- `AlbumData.LargestCoverIsHighest`: it requires non-negative heights, because `compareTo` wraps around otherwise (`ImageData.CompareToCanOverflow`).
- `ImageData.CompareToMatchesHeights`: it is stated for non-negative heights only, for the same reason.
- `WallpaperEngine.SelectCover`: it sees a finite sequence of draws. It reports `StillDrawing` where the source would keep shuffling. The model does not say how many draws the loop takes. The loop ends with probability one as long as some cover has a URL. When the list has two or more covers and none has a URL, the loop never ends (`AllEmptyNeverSelects`).
- `WallpaperEngine.PortraitWindowFits`: it covers portrait screens only. A display more than one pixel wider than the cover is rejected by the crop (`WiderDisplayIsRejected`); one exactly one pixel wider is drawn from column -1 (`OnePixelWiderDisplay`).
- `WallpaperEngine.PortraitUpdate`: it covers portrait screens and a fetch completed with a bitmap as wide as the chosen cover; other bitmap sizes and interleaved updates are left to `OnResourceReady` and `UpdateCover`.
- Bitmap dimensions are non-negative by type (`PixelCount`). The model does not represent `Bitmap` objects of other sizes.
