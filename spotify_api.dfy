/** The list logic of `SpotifyAPI`: the album fold that drops repeated albums
    (and, on request, compilations) and the page-by-page accumulation of
    album lists and playlist lists. The network calls become a sequence of
    responses, one per request, in request order. */
module SpotifyApi {
  import opened Wrappers
  import opened AlbumData

  /** `TrackList`, with each item already reduced to `item.track.album`. */
  datatype TrackList = TrackList(items: seq<Album>, next: Option<string>)

  /** `Playlist` (an id and a display name). */
  datatype Playlist = Playlist(id: string, name: string)

  /** `UserPlaylists`. */
  datatype UserPlaylists = UserPlaylists(items: seq<Playlist>, next: Option<string>)

  /** What Retrofit delivers for one request: `onResponse` with a body,
      `onResponse` with a null body, or `onFailure`. */
  datatype Response<T> = Body(body: T) | NullBody | CallFailed

  /** How a paginated request ends: the success callback with the list, the
      error callback, or no callback at all (a null body is silently dropped,
      and a request the sequence of responses does not answer never completes). */
  datatype Completion<T> = Succeeded(value: T) | ErrorCallback | NoCallback

  /** `!next.isNullOrEmpty()`: another page follows. */
  predicate HasNext(next: Option<string>) {
    next.Some? && next.value != ""
  }

  /** `acc.contains(album)`, through `Album.equals`. */
  predicate ContainsAlbum(acc: seq<Album>, album: Album) {
    exists i :: 0 <= i < |acc| && AlbumEquals(acc[i], album)
  }

  /** The compilation filter: `!ignoreCompilations || album.albumType != COMPILATION`. */
  predicate Admitted(album: Album, ignoreCompilations: bool) {
    !ignoreCompilations || album.albumType != COMPILATION
  }

  /** The body of the fold's lambda. */
  function AddAlbum(acc: seq<Album>, album: Album, ignoreCompilations: bool): seq<Album> {
    if !ContainsAlbum(acc, album) && Admitted(album, ignoreCompilations) then acc + [album] else acc
  }

  /** `items.fold(acc) { acc, item -> ... }`, a left fold. */
  function FoldAlbums(acc: seq<Album>, items: seq<Album>, ignoreCompilations: bool): seq<Album>
    decreases |items|
  {
    if items == [] then acc
    else FoldAlbums(AddAlbum(acc, items[0], ignoreCompilations), items[1..], ignoreCompilations)
  }

  // ----- Specification of the fold -----

  /** No two albums share an id. */
  predicate NoDuplicateIds(s: seq<Album>) {
    forall i, j :: 0 <= i < j < |s| ==> s[i].id != s[j].id
  }

  /** The items that pass the compilation filter, in order. */
  function AdmittedOnly(items: seq<Album>, ignoreCompilations: bool): (r: seq<Album>)
    decreases |items|
  {
    if items == [] then []
    else
      (if Admitted(items[0], ignoreCompilations) then [items[0]] else [])
        + AdmittedOnly(items[1..], ignoreCompilations)
  }

  /** Independent reference for the fold: the elements of `s`, read from the
      end, that have no id-equal album in `acc` nor earlier in `s`; i.e. the
      first occurrence of each new id. */
  function FirstNewOccurrences(s: seq<Album>, acc: seq<Album>): seq<Album>
    decreases |s|
  {
    if s == [] then []
    else
      var init := s[..|s| - 1];
      var x := s[|s| - 1];
      FirstNewOccurrences(init, acc)
        + (if ContainsAlbum(acc, x) || ContainsAlbum(init, x) then [] else [x])
  }

  /** `ys` keeps some elements of `xs`, in their original order. */
  predicate IsSubsequence(ys: seq<Album>, xs: seq<Album>)
    decreases |xs|
  {
    if ys == [] then true
    else if xs == [] then false
    else if ys[0] == xs[0] then IsSubsequence(ys[1..], xs[1..])
    else IsSubsequence(ys, xs[1..])
  }

  // ----- Lemmas about sequences of albums -----

  lemma ContainsConcat(s: seq<Album>, t: seq<Album>, a: Album)
    ensures ContainsAlbum(s + t, a) <==> ContainsAlbum(s, a) || ContainsAlbum(t, a)
  {
    if ContainsAlbum(s + t, a) {
      var i :| 0 <= i < |s + t| && AlbumEquals((s + t)[i], a);
      if i >= |s| { assert AlbumEquals(t[i - |s|], a); }
    }
    if ContainsAlbum(s, a) {
      var i :| 0 <= i < |s| && AlbumEquals(s[i], a);
      assert AlbumEquals((s + t)[i], a);
    }
    if ContainsAlbum(t, a) {
      var i :| 0 <= i < |t| && AlbumEquals(t[i], a);
      assert AlbumEquals((s + t)[|s| + i], a);
    }
  }

  lemma {:induction false} AdmittedOnlySnoc(items: seq<Album>, x: Album, ignoreCompilations: bool)
    ensures AdmittedOnly(items + [x], ignoreCompilations)
         == AdmittedOnly(items, ignoreCompilations) + (if Admitted(x, ignoreCompilations) then [x] else [])
    decreases |items|
  {
    if items == [] {
      assert items + [x] == [x];
    } else {
      assert (items + [x])[1..] == items[1..] + [x];
      AdmittedOnlySnoc(items[1..], x, ignoreCompilations);
    }
  }

  // ----- The fold's properties -----

  /** Folding a concatenation is folding the second part from the result of
      the first: how a later page continues from the accumulated list. */
  lemma {:induction false} FoldConcat(acc: seq<Album>, xs: seq<Album>, ys: seq<Album>, ignoreCompilations: bool)
    ensures FoldAlbums(acc, xs + ys, ignoreCompilations)
         == FoldAlbums(FoldAlbums(acc, xs, ignoreCompilations), ys, ignoreCompilations)
    decreases |xs|
  {
    if xs == [] {
      assert xs + ys == ys;
    } else {
      assert (xs + ys)[1..] == xs[1..] + ys;
      FoldConcat(AddAlbum(acc, xs[0], ignoreCompilations), xs[1..], ys, ignoreCompilations);
    }
  }

  lemma FoldSnoc(acc: seq<Album>, xs: seq<Album>, x: Album, ignoreCompilations: bool)
    ensures FoldAlbums(acc, xs + [x], ignoreCompilations)
         == AddAlbum(FoldAlbums(acc, xs, ignoreCompilations), x, ignoreCompilations)
  {
    FoldConcat(acc, xs, [x], ignoreCompilations);
    assert FoldAlbums(FoldAlbums(acc, xs, ignoreCompilations), [x], ignoreCompilations)
        == FoldAlbums(AddAlbum(FoldAlbums(acc, xs, ignoreCompilations), x, ignoreCompilations), [], ignoreCompilations);
  }

  /** The accumulator is kept as a prefix: the fold only appends. */
  lemma {:induction false} FoldKeepsPrefix(acc: seq<Album>, items: seq<Album>, ignoreCompilations: bool)
    ensures |FoldAlbums(acc, items, ignoreCompilations)| >= |acc|
    ensures FoldAlbums(acc, items, ignoreCompilations)[..|acc|] == acc
    decreases |items|
  {
    if items != [] {
      var acc' := AddAlbum(acc, items[0], ignoreCompilations);
      FoldKeepsPrefix(acc', items[1..], ignoreCompilations);
      assert acc'[..|acc|] == acc;
    }
  }

  /** Exactly the ids of the accumulator and of the admitted items end up in
      the result (completeness: every admitted item has an id-equal album in
      the result; soundness: nothing else is added). */
  lemma {:induction false} FoldContains(acc: seq<Album>, items: seq<Album>, ignoreCompilations: bool, a: Album)
    ensures ContainsAlbum(FoldAlbums(acc, items, ignoreCompilations), a)
        <==> ContainsAlbum(acc, a) || ContainsAlbum(AdmittedOnly(items, ignoreCompilations), a)
    decreases |items|
  {
    if items != [] {
      var x := items[0];
      var acc' := AddAlbum(acc, x, ignoreCompilations);
      FoldContains(acc', items[1..], ignoreCompilations, a);
      var head := if Admitted(x, ignoreCompilations) then [x] else [];
      assert AdmittedOnly(items, ignoreCompilations) == head + AdmittedOnly(items[1..], ignoreCompilations);
      ContainsConcat(head, AdmittedOnly(items[1..], ignoreCompilations), a);
      ContainsConcat(acc, [x], a);
      if Admitted(x, ignoreCompilations) && ContainsAlbum(acc, x) && AlbumEquals(x, a) {
        var i :| 0 <= i < |acc| && AlbumEquals(acc[i], x);
        assert AlbumEquals(acc[i], a);
      }
      if ContainsAlbum(head, a) {
        assert AlbumEquals(x, a);
      }
      if ContainsAlbum([x], a) {
        assert AlbumEquals([x][0], a);
      }
    }
  }

  /** Completeness: every item that passes the compilation filter is
      represented in the result by an album with the same id. */
  lemma FoldComplete(acc: seq<Album>, items: seq<Album>, ignoreCompilations: bool, i: int)
    requires 0 <= i < |items| && Admitted(items[i], ignoreCompilations)
    ensures ContainsAlbum(FoldAlbums(acc, items, ignoreCompilations), items[i])
  {
    FoldContains(acc, items, ignoreCompilations, items[i]);
    assert items == items[..i] + [items[i]] + items[i + 1..];
    AdmittedOnlySnoc(items[..i], items[i], ignoreCompilations);
    FoldConcat(acc, items[..i] + [items[i]], items[i + 1..], ignoreCompilations);
    FoldContains(acc, items[..i] + [items[i]], ignoreCompilations, items[i]);
    ContainsConcat(AdmittedOnly(items[..i], ignoreCompilations), [items[i]], items[i]);
    assert AlbumEquals([items[i]][0], items[i]);
    var mid := FoldAlbums(acc, items[..i] + [items[i]], ignoreCompilations);
    FoldKeepsPrefix(mid, items[i + 1..], ignoreCompilations);
    var j :| 0 <= j < |mid| && AlbumEquals(mid[j], items[i]);
    assert FoldAlbums(mid, items[i + 1..], ignoreCompilations)[j] == mid[j];
  }

  /** Without duplicates in the accumulator, the folded list has none either. */
  lemma {:induction false} FoldNoDuplicates(acc: seq<Album>, items: seq<Album>, ignoreCompilations: bool)
    requires NoDuplicateIds(acc)
    ensures NoDuplicateIds(FoldAlbums(acc, items, ignoreCompilations))
    decreases |items|
  {
    if items != [] {
      var x := items[0];
      var acc' := AddAlbum(acc, x, ignoreCompilations);
      if acc' != acc {
        forall i, j | 0 <= i < j < |acc'| ensures acc'[i].id != acc'[j].id {
          if j == |acc| {
            assert !AlbumEquals(acc[i], x);
          }
        }
      }
      FoldNoDuplicates(acc', items[1..], ignoreCompilations);
    }
  }

  /** With `ignoreCompilations`, no album of type "compilation" is added:
      every album after the accumulator passes the filter and has an id not
      in the accumulator. */
  lemma {:induction false} FoldAddsOnlyAdmittedNewAlbums(acc: seq<Album>, items: seq<Album>, ignoreCompilations: bool)
    ensures var r := FoldAlbums(acc, items, ignoreCompilations);
            |r| >= |acc| &&
            forall k :: |acc| <= k < |r| ==>
              Admitted(r[k], ignoreCompilations) && !ContainsAlbum(acc, r[k]) &&
              (ignoreCompilations ==> r[k].albumType != COMPILATION)
    decreases |items|
  {
    FoldKeepsPrefix(acc, items, ignoreCompilations);
    if items != [] {
      var x := items[0];
      var acc' := AddAlbum(acc, x, ignoreCompilations);
      var r := FoldAlbums(acc', items[1..], ignoreCompilations);
      assert r == FoldAlbums(acc, items, ignoreCompilations);
      FoldAddsOnlyAdmittedNewAlbums(acc', items[1..], ignoreCompilations);
      FoldKeepsPrefix(acc', items[1..], ignoreCompilations);
      forall k | |acc| <= k < |r|
        ensures Admitted(r[k], ignoreCompilations) && !ContainsAlbum(acc, r[k])
      {
        if k < |acc'| {
          assert acc' == acc + [x] && Admitted(x, ignoreCompilations) && !ContainsAlbum(acc, x);
          assert r[k] == acc'[k] == x;
        } else {
          ContainsConcat(acc, acc'[|acc|..], r[k]);
          assert acc + acc'[|acc|..] == acc';
        }
      }
    }
  }

  lemma FirstNewOccurrencesSnoc(s: seq<Album>, x: Album, acc: seq<Album>)
    ensures FirstNewOccurrences(s + [x], acc)
         == FirstNewOccurrences(s, acc) + (if ContainsAlbum(acc, x) || ContainsAlbum(s, x) then [] else [x])
  {
    assert (s + [x])[..|s + [x]| - 1] == s;
    assert (s + [x])[|s + [x]| - 1] == x;
  }

  /** The fold equals the independent reference: the accumulator followed by
      the first occurrence of each new id among the admitted items, in order. */
  lemma {:induction false} FoldIsFirstNewOccurrences(acc: seq<Album>, items: seq<Album>, ignoreCompilations: bool)
    ensures FoldAlbums(acc, items, ignoreCompilations)
         == acc + FirstNewOccurrences(AdmittedOnly(items, ignoreCompilations), acc)
    decreases |items|
  {
    if items != [] {
      var init := items[..|items| - 1];
      var x := items[|items| - 1];
      assert items == init + [x];
      var s := AdmittedOnly(init, ignoreCompilations);
      var before := FoldAlbums(acc, init, ignoreCompilations);
      FoldIsFirstNewOccurrences(acc, init, ignoreCompilations);
      assert before == acc + FirstNewOccurrences(s, acc);
      FoldSnoc(acc, init, x, ignoreCompilations);
      assert FoldAlbums(acc, items, ignoreCompilations) == AddAlbum(before, x, ignoreCompilations);
      AdmittedOnlySnoc(init, x, ignoreCompilations);
      FoldContains(acc, init, ignoreCompilations, x);
      if Admitted(x, ignoreCompilations) {
        assert AdmittedOnly(items, ignoreCompilations) == s + [x];
        FirstNewOccurrencesSnoc(s, x, acc);
      } else {
        assert AdmittedOnly(items, ignoreCompilations) == s;
      }
    }
  }

  /** What the fold adds is a subsequence of the page's items, in page order. */
  lemma {:induction false} FirstNewOccurrencesIsSubsequence(s: seq<Album>, acc: seq<Album>)
    ensures IsSubsequence(FirstNewOccurrences(s, acc), s)
    decreases |s|
  {
    if s != [] {
      var init := s[..|s| - 1];
      var x := s[|s| - 1];
      FirstNewOccurrencesIsSubsequence(init, acc);
      SubsequenceSnoc(FirstNewOccurrences(init, acc), init, x, !(ContainsAlbum(acc, x) || ContainsAlbum(init, x)));
      assert init + [x] == s;
    }
  }

  lemma {:induction false} SubsequenceSnoc(ys: seq<Album>, xs: seq<Album>, x: Album, keep: bool)
    requires IsSubsequence(ys, xs)
    ensures IsSubsequence(ys + (if keep then [x] else []), xs + [x])
    decreases |xs|
  {
    var ys' := ys + (if keep then [x] else []);
    if xs == [] {
      assert ys == [];
      assert xs + [x] == [x];
      if keep { assert ys' == [x]; assert ys'[1..] == []; }
    } else if ys == [] {
      if keep {
        assert ys' == [x];
        SubsequenceOfSingleton(x, xs + [x]);
      }
    } else if ys[0] == xs[0] {
      SubsequenceSnoc(ys[1..], xs[1..], x, keep);
      assert ys'[1..] == ys[1..] + (if keep then [x] else []);
      assert (xs + [x])[1..] == xs[1..] + [x];
    } else {
      SubsequenceSnoc(ys, xs[1..], x, keep);
      assert (xs + [x])[1..] == xs[1..] + [x];
    }
  }

  lemma {:induction false} SubsequenceOfSingleton(x: Album, xs: seq<Album>)
    requires |xs| > 0 && xs[|xs| - 1] == x
    ensures IsSubsequence([x], xs)
    decreases |xs|
  {
    if xs[0] != x {
      SubsequenceOfSingleton(x, xs[1..]);
    } else {
      assert [x][1..] == [];
    }
  }

  /** The fold's result is the accumulator followed by a subsequence of the
      items, in their original order. */
  lemma FoldIsAccumulatorPlusSubsequence(acc: seq<Album>, items: seq<Album>, ignoreCompilations: bool)
    ensures var r := FoldAlbums(acc, items, ignoreCompilations);
            |r| >= |acc| && r[..|acc|] == acc && IsSubsequence(r[|acc|..], items)
  {
    FoldIsFirstNewOccurrences(acc, items, ignoreCompilations);
    var s := AdmittedOnly(items, ignoreCompilations);
    FirstNewOccurrencesIsSubsequence(s, acc);
    AdmittedOnlyIsSubsequence(items, ignoreCompilations);
    var r := FoldAlbums(acc, items, ignoreCompilations);
    assert r[|acc|..] == FirstNewOccurrences(s, acc);
    SubsequenceTransitive(FirstNewOccurrences(s, acc), s, items);
  }

  lemma {:induction false} AdmittedOnlyIsSubsequence(items: seq<Album>, ignoreCompilations: bool)
    ensures IsSubsequence(AdmittedOnly(items, ignoreCompilations), items)
    decreases |items|
  {
    if items != [] {
      AdmittedOnlyIsSubsequence(items[1..], ignoreCompilations);
      var rest := AdmittedOnly(items[1..], ignoreCompilations);
      if Admitted(items[0], ignoreCompilations) {
        assert ([items[0]] + rest)[1..] == rest;
      } else {
        assert AdmittedOnly(items, ignoreCompilations) == rest;
        SubsequenceDropHead(rest, items);
      }
    }
  }

  lemma {:induction false} SubsequenceDropHead(ys: seq<Album>, xs: seq<Album>)
    requires |xs| > 0 && IsSubsequence(ys, xs[1..])
    ensures IsSubsequence(ys, xs)
    decreases |xs|, 0
  {
    if ys != [] && ys[0] == xs[0] {
      SubsequenceWeaken(ys, xs[1..]);
    }
  }

  /** Dropping the head of the subsequence keeps it a subsequence. */
  lemma {:induction false} SubsequenceWeaken(ys: seq<Album>, xs: seq<Album>)
    requires |ys| > 0 && IsSubsequence(ys, xs)
    ensures IsSubsequence(ys[1..], xs)
    decreases |xs|, 1
  {
    if ys[0] == xs[0] {
      if ys[1..] != [] { SubsequenceDropHead(ys[1..], xs); }
    } else {
      SubsequenceWeaken(ys, xs[1..]);
      if ys[1..] != [] { SubsequenceDropHead(ys[1..], xs); }
    }
  }

  lemma {:induction false} SubsequenceTransitive(zs: seq<Album>, ys: seq<Album>, xs: seq<Album>)
    requires IsSubsequence(zs, ys) && IsSubsequence(ys, xs)
    ensures IsSubsequence(zs, xs)
    decreases |xs|
  {
    if zs != [] {
      assert ys != [];
      if ys[0] == xs[0] {
        if zs[0] == ys[0] {
          SubsequenceTransitive(zs[1..], ys[1..], xs[1..]);
        } else {
          SubsequenceTransitive(zs, ys[1..], xs[1..]);
          SubsequenceDropHead(zs, xs);
        }
      } else {
        SubsequenceTransitive(zs, ys, xs[1..]);
        SubsequenceDropHead(zs, xs);
      }
    }
  }

  // ----- Pagination -----

  /** `getTrackListFromURL`: each answered page is folded onto the
      accumulated list; the success callback fires on the page without a
      next URL. */
  function TrackListFromURL(acc: seq<Album>, responses: seq<Response<TrackList>>, ignoreCompilations: bool): Completion<seq<Album>>
    decreases |responses|
  {
    if responses == [] then NoCallback
    else match responses[0]
      case CallFailed => ErrorCallback
      case NullBody => NoCallback
      case Body(page) =>
        var albumList := FoldAlbums(acc, page.items, ignoreCompilations);
        if HasNext(page.next) then TrackListFromURL(albumList, responses[1..], ignoreCompilations)
        else Succeeded(albumList)
  }

  /** `getRecentlyPlayed` and `getPlaylistTracks` (they differ only in the
      first request's endpoint): the first page folds from the empty list and
      the rest continues through `getTrackListFromURL`. */
  function AlbumList(responses: seq<Response<TrackList>>, ignoreCompilations: bool): Completion<seq<Album>>
  {
    if responses == [] then NoCallback
    else match responses[0]
      case CallFailed => ErrorCallback
      case NullBody => NoCallback
      case Body(page) =>
        var albumList := FoldAlbums([], page.items, ignoreCompilations);
        if HasNext(page.next) then TrackListFromURL(albumList, responses[1..], ignoreCompilations)
        else Succeeded(albumList)
  }

  /** `getUserPlaylistsFromURL`: pages are appended to the accumulated list. */
  function UserPlaylistsFromURL(acc: seq<Playlist>, responses: seq<Response<UserPlaylists>>): Completion<seq<Playlist>>
    decreases |responses|
  {
    if responses == [] then NoCallback
    else match responses[0]
      case CallFailed => ErrorCallback
      case NullBody => NoCallback
      case Body(page) =>
        if HasNext(page.next) then UserPlaylistsFromURL(acc + page.items, responses[1..])
        else Succeeded(acc + page.items)
  }

  /** `getUserPaylists`: the first page's items become the accumulator. */
  function UserPlaylistList(responses: seq<Response<UserPlaylists>>): Completion<seq<Playlist>>
  {
    if responses == [] then NoCallback
    else match responses[0]
      case CallFailed => ErrorCallback
      case NullBody => NoCallback
      case Body(page) =>
        if HasNext(page.next) then UserPlaylistsFromURL(page.items, responses[1..])
        else Succeeded(page.items)
  }

  /** A chain of pages the service answers: every page but the last names a
      next page, and the last names none. */
  predicate WellChained<T>(nexts: seq<Option<string>>) {
    |nexts| > 0 && (forall i :: 0 <= i < |nexts| - 1 ==> HasNext(nexts[i])) && !HasNext(nexts[|nexts| - 1])
  }

  function TrackNexts(pages: seq<TrackList>): seq<Option<string>> {
    seq(|pages|, i requires 0 <= i < |pages| => pages[i].next)
  }

  function PlaylistNexts(pages: seq<UserPlaylists>): seq<Option<string>> {
    seq(|pages|, i requires 0 <= i < |pages| => pages[i].next)
  }

  function TrackBodies(pages: seq<TrackList>): seq<Response<TrackList>> {
    seq(|pages|, i requires 0 <= i < |pages| => Body(pages[i]))
  }

  function PlaylistBodies(pages: seq<UserPlaylists>): seq<Response<UserPlaylists>> {
    seq(|pages|, i requires 0 <= i < |pages| => Body(pages[i]))
  }

  /** All items of all pages, in page order. */
  function AllTracks(pages: seq<TrackList>): seq<Album>
    decreases |pages|
  {
    if pages == [] then [] else pages[0].items + AllTracks(pages[1..])
  }

  function AllPlaylists(pages: seq<UserPlaylists>): seq<Playlist>
    decreases |pages|
  {
    if pages == [] then [] else pages[0].items + AllPlaylists(pages[1..])
  }

  /** The first page is handled like a continuation from the empty list. */
  lemma AlbumListStartsFromEmpty(responses: seq<Response<TrackList>>, ignoreCompilations: bool)
    ensures AlbumList(responses, ignoreCompilations) == TrackListFromURL([], responses, ignoreCompilations)
  {
  }

  lemma UserPlaylistListStartsFromEmpty(responses: seq<Response<UserPlaylists>>)
    ensures UserPlaylistList(responses) == UserPlaylistsFromURL([], responses)
  {
    if responses != [] && responses[0].Body? {
      assert [] + responses[0].body.items == responses[0].body.items;
    }
  }

  /** Folding page by page, each continuing from the accumulated list, is
      one fold over all pages' items; later responses are never requested. */
  lemma {:induction false} TrackPagesFoldAsOne(acc: seq<Album>, pages: seq<TrackList>, more: seq<Response<TrackList>>, ignoreCompilations: bool)
    requires WellChained<TrackList>(TrackNexts(pages))
    ensures TrackListFromURL(acc, TrackBodies(pages) + more, ignoreCompilations)
         == Succeeded(FoldAlbums(acc, AllTracks(pages), ignoreCompilations))
    decreases |pages|
  {
    var rs := TrackBodies(pages) + more;
    assert rs[0] == Body(pages[0]);
    var folded := FoldAlbums(acc, pages[0].items, ignoreCompilations);
    if |pages| == 1 {
      assert AllTracks(pages) == pages[0].items + [];
      assert pages[0].items + [] == pages[0].items;
    } else {
      assert HasNext(TrackNexts(pages)[0]);
      assert WellChained<TrackList>(TrackNexts(pages[1..])) by {
        assert forall i :: 0 <= i < |pages| - 1 ==> TrackNexts(pages[1..])[i] == TrackNexts(pages)[i + 1];
      }
      assert rs[1..] == TrackBodies(pages[1..]) + more;
      TrackPagesFoldAsOne(folded, pages[1..], more, ignoreCompilations);
      FoldConcat(acc, pages[0].items, AllTracks(pages[1..]), ignoreCompilations);
    }
  }

  /** A complete album list holds no two albums with the same id. */
  lemma AlbumListHasNoDuplicates(responses: seq<Response<TrackList>>, ignoreCompilations: bool)
    requires AlbumList(responses, ignoreCompilations).Succeeded?
    ensures NoDuplicateIds(AlbumList(responses, ignoreCompilations).value)
  {
    AlbumListStartsFromEmpty(responses, ignoreCompilations);
    SucceededIsFold([], responses, ignoreCompilations);
    FoldNoDuplicates([], ConsumedItems(responses), ignoreCompilations);
  }

  /** The items of the pages `getTrackListFromURL` consumes: each page body
      in turn, up to the first page without `next`. */
  function ConsumedItems(responses: seq<Response<TrackList>>): seq<Album>
    decreases |responses|
  {
    if responses == [] then []
    else match responses[0]
      case Body(page) =>
        if HasNext(page.next) then page.items + ConsumedItems(responses[1..]) else page.items
      case _ => []
  }

  /** Every complete result of the page chain is the fold, onto the starting
      accumulator, of the items of the pages consumed. */
  lemma {:induction false} SucceededIsFold(acc: seq<Album>, responses: seq<Response<TrackList>>, ignoreCompilations: bool)
    requires TrackListFromURL(acc, responses, ignoreCompilations).Succeeded?
    ensures TrackListFromURL(acc, responses, ignoreCompilations).value == FoldAlbums(acc, ConsumedItems(responses), ignoreCompilations)
    decreases |responses|
  {
    var page := responses[0].body;
    var folded := FoldAlbums(acc, page.items, ignoreCompilations);
    if HasNext(page.next) {
      SucceededIsFold(folded, responses[1..], ignoreCompilations);
      FoldConcat(acc, page.items, ConsumedItems(responses[1..]), ignoreCompilations);
    }
  }

  /** Playlist pagination yields the concatenation of all pages' items. */
  lemma {:induction false} PlaylistPagesConcatenate(acc: seq<Playlist>, pages: seq<UserPlaylists>, more: seq<Response<UserPlaylists>>)
    requires WellChained<UserPlaylists>(PlaylistNexts(pages))
    ensures UserPlaylistsFromURL(acc, PlaylistBodies(pages) + more) == Succeeded(acc + AllPlaylists(pages))
    decreases |pages|
  {
    var rs := PlaylistBodies(pages) + more;
    assert rs[0] == Body(pages[0]);
    if |pages| == 1 {
      assert AllPlaylists(pages) == pages[0].items + [];
      assert pages[0].items + [] == pages[0].items;
    } else {
      assert HasNext(PlaylistNexts(pages)[0]);
      assert WellChained<UserPlaylists>(PlaylistNexts(pages[1..])) by {
        assert forall i :: 0 <= i < |pages| - 1 ==> PlaylistNexts(pages[1..])[i] == PlaylistNexts(pages)[i + 1];
      }
      assert rs[1..] == PlaylistBodies(pages[1..]) + more;
      PlaylistPagesConcatenate(acc + pages[0].items, pages[1..], more);
      assert acc + pages[0].items + AllPlaylists(pages[1..]) == acc + (pages[0].items + AllPlaylists(pages[1..]));
    }
  }

  /** A failed call ends the chain with the error callback; a null body ends
      it with no callback, discarding what was accumulated. */
  lemma FailureEndsChain(acc: seq<Album>, responses: seq<Response<TrackList>>, ignoreCompilations: bool)
    requires |responses| > 0 && !responses[0].Body?
    ensures TrackListFromURL(acc, responses, ignoreCompilations)
         == if responses[0].CallFailed? then ErrorCallback else NoCallback
  {
  }
}
