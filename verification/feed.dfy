/**
 The board feed: paging through the feed API with a bookmark cursor until
 the server answers with the end bookmark, and classifying each collected
 item as an image, a video, or nothing.
 */
module Feed {
  import opened Values
  import opened Boards

  const PageSize := 25
  /** The bookmark with which the server marks the last page. */
  const EndBookmark := "-end-"

  /** The `options` object sent with a feed request. `bookmarks` is `None`
      when the request carries no `bookmarks` entry, and `Some(b)` when it
      carries the one-element list `[b]`. */
  datatype FeedOptions = FeedOptions(boardId: Json, pageSize: int, bookmarks: Option<Json>)

  /** One feed request: the `source_url` parameter and the `options` sent in
      `data` (whose `context` is always empty). */
  datatype FeedRequest = FeedRequest(sourceUrl: Json, options: FeedOptions)

  /** One scripted server answer: the page's items (`resource_response.data`)
      and the next bookmark (`resource.options.bookmarks[0]`). */
  datatype FeedResponse = FeedResponse(items: seq<Json>, bookmark: Json)

  /** The requests issued and the items collected by the pagination loop. */
  datatype Feed = Feed(requests: seq<FeedRequest>, items: seq<Json>)

  datatype Kind = Image | Video

  /** A downloadable resource of a board: its kind, pin id and the URL of the
      original image or of the video's HLS playlist. */
  datatype Resource = Resource(kind: Kind, id: string, url: string)

  predicate IsEnd(response: FeedResponse)
  {
    response.bookmark == JStr(EndBookmark)
  }

  /** The request the loop builds while holding `bookmark`; a falsy bookmark
      adds no `bookmarks` entry. */
  function RequestFor(board: Board, bookmark: Json): FeedRequest
  {
    var bookmarks := if Truthy(bookmark) then Some(bookmark) else None;
    FeedRequest(board.url, FeedOptions(board.id, PageSize, bookmarks))
  }

  /** Every request carries the board's URL as `source_url`, the board id and
      page size 25; it has `bookmarks = [bookmark]` exactly when the held
      bookmark is truthy. */
  lemma RequestForFields(board: Board, bookmark: Json)
    ensures var req := RequestFor(board, bookmark);
            && req.sourceUrl == board.url
            && req.options.boardId == board.id
            && req.options.pageSize == 25
            && (req.options.bookmarks.Some? <==> Truthy(bookmark))
            && (req.options.bookmarks.Some? ==> req.options.bookmarks.value == bookmark)
  {
  }

  /** The items of all responses, in order. */
  function AllItems(responses: seq<FeedResponse>): seq<Json>
    decreases |responses|
  {
    if |responses| == 0 then [] else responses[0].items + AllItems(responses[1..])
  }

  /** The pagination loop from the point where it holds `bookmark` (which is
      not the end bookmark) and the server will answer with `script`. */
  function Paginate(board: Board, script: seq<FeedResponse>, bookmark: Json): (r: Result<Feed>)
    ensures r.Ok? <==> exists i :: 0 <= i < |script| && IsEnd(script[i])
    ensures r.Err? ==> r.error == ScriptExhausted
    ensures r.Ok? ==> var n := |r.value.requests|;
                      && 1 <= n <= |script|
                      && IsEnd(script[n - 1])
                      && (forall k :: 0 <= k < n - 1 ==> !IsEnd(script[k]))
                      && r.value.items == AllItems(script[..n])
                      && r.value.requests[0] == RequestFor(board, bookmark)
                      && (forall k :: 1 <= k < n ==> r.value.requests[k] == RequestFor(board, script[k - 1].bookmark))
    decreases |script|
  {
    if |script| == 0 then Err(ScriptExhausted)
    else
      var request := RequestFor(board, bookmark);
      var next := script[0].bookmark;
      if next == JStr(EndBookmark) then Ok(Feed([request], script[0].items))
      else
        var rest :- Paginate(board, script[1..], next);
        assert script[..|rest.requests| + 1][1..] == script[1..][..|rest.requests|];
        Ok(Feed([request] + rest.requests, script[0].items + rest.items))
  }

  /** The pagination loop of `get_download_links`, which starts without a bookmark. */
  function FetchFeed(board: Board, script: seq<FeedResponse>): (r: Result<Feed>)
    ensures r.Ok? <==> exists i :: 0 <= i < |script| && IsEnd(script[i])
    ensures r.Ok? ==> 1 <= |r.value.requests| <= |script| && r.value.requests[0].options.bookmarks == None
    ensures r.Ok? ==> forall k :: 0 <= k < |r.value.requests| ==>
                        r.value.requests[k].sourceUrl == board.url
                        && r.value.requests[k].options.boardId == board.id
                        && r.value.requests[k].options.pageSize == 25
    ensures r.Ok? ==> forall k :: 1 <= k < |r.value.requests| ==>
                        (Truthy(script[k - 1].bookmark) ==> r.value.requests[k].options.bookmarks == Some(script[k - 1].bookmark))
                        && (!Truthy(script[k - 1].bookmark) ==> r.value.requests[k].options.bookmarks == None)
  {
    Paginate(board, script, JNull)
  }

  /** The loop issues one request per response up to and including the first
      end bookmark, and collects exactly those responses' items. */
  lemma StopsAtFirstEnd(board: Board, script: seq<FeedResponse>, e: nat)
    requires e < |script| && IsEnd(script[e])
    requires forall k :: 0 <= k < e ==> !IsEnd(script[k])
    ensures FetchFeed(board, script).Ok?
    ensures |FetchFeed(board, script).value.requests| == e + 1
    ensures FetchFeed(board, script).value.items == AllItems(script[..e + 1])
  {
    var n := |Paginate(board, script, JNull).value.requests|;
    assert IsEnd(script[n - 1]) && IsEnd(script[e]);
  }

  /** A two-page feed whose second page ends it: two requests, the second
      carrying the first page's bookmark, and both pages' items in order. */
  lemma TwoPageFeed(board: Board, first: seq<Json>, second: seq<Json>, bookmark: string)
    requires bookmark != "" && bookmark != EndBookmark
    ensures var script := [FeedResponse(first, JStr(bookmark)), FeedResponse(second, JStr(EndBookmark))];
            FetchFeed(board, script)
            == Ok(Feed([FeedRequest(board.url, FeedOptions(board.id, 25, None)),
                        FeedRequest(board.url, FeedOptions(board.id, 25, Some(JStr(bookmark))))],
                       first + second))
  {
    var script := [FeedResponse(first, JStr(bookmark)), FeedResponse(second, JStr(EndBookmark))];
    var tail := [FeedResponse(second, JStr(EndBookmark))];
    assert script[1..] == tail;
    assert Paginate(board, tail, JStr(bookmark))
        == Ok(Feed([RequestFor(board, JStr(bookmark))], second));
    assert RequestFor(board, JStr(bookmark)) == FeedRequest(board.url, FeedOptions(board.id, 25, Some(JStr(bookmark))));
    assert RequestFor(board, JNull) == FeedRequest(board.url, FeedOptions(board.id, 25, None));
    assert script[0].bookmark != JStr(EndBookmark);
    assert Paginate(board, script, JNull)
        == Ok(Feed([RequestFor(board, JNull)] + [RequestFor(board, JStr(bookmark))], first + second));
    assert [RequestFor(board, JNull)] + [RequestFor(board, JStr(bookmark))]
        == [RequestFor(board, JNull), RequestFor(board, JStr(bookmark))];
  }

  /** Every item with `images`, a null `videos`, a string `id` and a string
      `images.orig.url` is classified as exactly that image. */
  lemma ClassifyItemImage(item: Json, id: string, url: string)
    requires item.JObj? && "images" in item.fields && "videos" in item.fields
    requires item.fields["videos"] == JNull
    requires Path(item, ["id"]) == Ok(JStr(id)) && Path(item, ["images", "orig", "url"]) == Ok(JStr(url))
    ensures ClassifyItem(item) == Ok([Resource(Image, id, url)])
  {
    assert TextAt(item, ["id"]) == Ok(id);
    assert TextAt(item, ["images", "orig", "url"]) == Ok(url);
    assert ImageCheck(item) == Ok(true);
    assert VideoCheck(item) == Ok(false);
    assert [Resource(Image, id, url)] + [] == [Resource(Image, id, url)];
  }

  /** Every item with a non-null `videos`, a string `id` and a string
      `videos.video_list.V_HLSV4.url` is classified as exactly that video,
      whether or not it also has `images`. */
  lemma ClassifyItemVideo(item: Json, id: string, url: string)
    requires item.JObj? && "videos" in item.fields && item.fields["videos"] != JNull
    requires Path(item, ["id"]) == Ok(JStr(id))
    requires Path(item, ["videos", "video_list", "V_HLSV4", "url"]) == Ok(JStr(url))
    ensures ClassifyItem(item) == Ok([Resource(Video, id, url)])
  {
    assert TextAt(item, ["id"]) == Ok(id);
    assert TextAt(item, ["videos", "video_list", "V_HLSV4", "url"]) == Ok(url);
    assert ImageCheck(item) == Ok(false);
    assert VideoCheck(item) == Ok(true);
    assert [] + [Resource(Video, id, url)] == [Resource(Video, id, url)];
  }

  /** The collected items of consecutive responses concatenate. */
  lemma {:induction false} AllItemsAppend(a: seq<FeedResponse>, b: seq<FeedResponse>)
    ensures AllItems(a + b) == AllItems(a) + AllItems(b)
    decreases |a|
  {
    if |a| > 0 {
      AllItemsAppend(a[1..], b);
      assert (a + b)[0] == a[0];
      assert (a + b)[1..] == a[1..] + b;
    } else {
      assert a + b == b;
    }
  }

  /** `("images" in res) and (res["videos"] is None)`, evaluated left to right. */
  function ImageCheck(item: Json): Result<bool>
  {
    var hasImages :- Contains(item, "images");
    if !hasImages then Ok(false)
    else
      var videos :- Lookup(item, "videos");
      Ok(videos == JNull)
  }

  /** `"videos" in res and (res["videos"] is not None)`, evaluated left to right. */
  function VideoCheck(item: Json): Result<bool>
  {
    var hasVideos :- Contains(item, "videos");
    if !hasVideos then Ok(false)
    else
      var videos :- Lookup(item, "videos");
      Ok(videos != JNull)
  }

  /** On a dict, the image check is `"images"` present and `videos` null,
      and raises KeyError when `images` is present without `videos`; any
      other value never passes it. */
  lemma ImageCheckCases(item: Json)
    ensures item.JObj? ==>
              ImageCheck(item) == if "images" !in item.fields then Ok(false)
                                  else if "videos" !in item.fields then Err(KeyError("videos"))
                                  else Ok(item.fields["videos"] == JNull)
    ensures !item.JObj? ==> ImageCheck(item) != Ok(true)
  {
  }

  /** On a dict, the video check is `"videos"` present and not null; any
      other value never passes it. */
  lemma VideoCheckCases(item: Json)
    ensures item.JObj? ==>
              VideoCheck(item) == Ok("videos" in item.fields && item.fields["videos"] != JNull)
    ensures !item.JObj? ==> VideoCheck(item) != Ok(true)
  {
  }

  /** The two checks never both pass. */
  lemma ChecksExclusive(item: Json)
    ensures !(ImageCheck(item) == Ok(true) && VideoCheck(item) == Ok(true))
  {
  }

  /** One iteration of the classification loop: the image check and its
      resource, then the video check and its resource. */
  function ClassifyItem(item: Json): (r: Result<seq<Resource>>)
    ensures r.Ok? ==> |r.value| <= 1
    ensures r.Ok? && |r.value| == 1 && r.value[0].kind == Image ==>
              item.JObj? && "images" in item.fields && "videos" in item.fields
              && item.fields["videos"] == JNull
              && Path(item, ["images", "orig", "url"]) == Ok(JStr(r.value[0].url))
              && Path(item, ["id"]) == Ok(JStr(r.value[0].id))
    ensures r.Ok? && |r.value| == 1 && r.value[0].kind == Video ==>
              item.JObj? && "videos" in item.fields && item.fields["videos"] != JNull
              && Path(item, ["videos", "video_list", "V_HLSV4", "url"]) == Ok(JStr(r.value[0].url))
              && Path(item, ["id"]) == Ok(JStr(r.value[0].id))
    ensures item.JObj? && "images" in item.fields && "videos" !in item.fields ==> r == Err(KeyError("videos"))
    ensures item.JObj? && "images" !in item.fields && ("videos" !in item.fields || item.fields["videos"] == JNull)
            ==> r == Ok([])
  {
    var isImage :- ImageCheck(item);
    var image :- if isImage then
                   var id :- TextAt(item, ["id"]);
                   var url :- TextAt(item, ["images", "orig", "url"]);
                   Ok([Resource(Image, id, url)])
                 else Ok([]);
    var isVideo :- VideoCheck(item);
    var video :- if isVideo then
                   var id :- TextAt(item, ["id"]);
                   var url :- TextAt(item, ["videos", "video_list", "V_HLSV4", "url"]);
                   Ok([Resource(Video, id, url)])
                 else Ok([]);
    Ok(image + video)
  }

  /** The classification loop of `get_download_links` over all collected
      items, stopping at the first item that raises. */
  function Classify(items: seq<Json>): (r: Result<seq<Resource>>)
    ensures r.Ok? ==> |r.value| <= |items|
    decreases |items|
  {
    if |items| == 0 then Ok([])
    else
      var first :- ClassifyItem(items[0]);
      var rest :- Classify(items[1..]);
      Ok(first + rest)
  }

  /** Classification succeeds exactly when every item classifies. */
  lemma {:induction false} ClassifySucceeds(items: seq<Json>)
    ensures Classify(items).Ok? <==> forall i :: 0 <= i < |items| ==> ClassifyItem(items[i]).Ok?
    decreases |items|
  {
    if |items| > 0 {
      ClassifySucceeds(items[1..]);
      assert forall i :: 1 <= i < |items| ==> items[1..][i - 1] == items[i];
      if ClassifyItem(items[0]).Ok? && !Classify(items[1..]).Ok? {
        var j :| 0 <= j < |items[1..]| && !ClassifyItem(items[1..][j]).Ok?;
        assert items[1..][j] == items[j + 1];
      }
    }
  }

  /** Every resource is the one resource of some feed item. */
  lemma ClassifyProvenance(items: seq<Json>)
    requires Classify(items).Ok?
    ensures forall k :: 0 <= k < |Classify(items).value| ==>
              exists i :: 0 <= i < |items| && ClassifyItem(items[i]) == Ok([Classify(items).value[k]])
  {
    forall k | 0 <= k < |Classify(items).value|
      ensures exists i :: 0 <= i < |items| && ClassifyItem(items[i]) == Ok([Classify(items).value[k]])
    {
      ClassifyResourceFrom(items, k);
    }
  }

  /** The `k`-th resource comes from a single item. */
  lemma {:induction false} ClassifyResourceFrom(items: seq<Json>, k: nat)
    requires Classify(items).Ok? && k < |Classify(items).value|
    ensures exists i :: 0 <= i < |items| && ClassifyItem(items[i]) == Ok([Classify(items).value[k]])
    decreases |items|
  {
    ClassifyParts(items);
    ClassifyCons(items);
    var all := Classify(items).value;
    var first := ClassifyItem(items[0]).value;
    var rest := Classify(items[1..]).value;
    assert all == first + rest;
    PickFromConcat(first, rest, k);
    if k < |first| {
      assert ClassifyItem(items[0]) == Ok([all[k]]);
    } else {
      var k' := k - |first|;
      assert all[k] == rest[k'];
      ClassifyResourceFrom(items[1..], k');
      var i :| 0 <= i < |items[1..]| && ClassifyItem(items[1..][i]) == Ok([rest[k']]);
      assert items[1..][i] == items[i + 1];
      assert ClassifyItem(items[i + 1]) == Ok([all[k]]);
    }
  }

  /** Element `k` of `first + rest`, where `first` has at most one element. */
  lemma PickFromConcat(first: seq<Resource>, rest: seq<Resource>, k: nat)
    requires |first| <= 1 && k < |first| + |rest|
    ensures k < |first| ==> first == [(first + rest)[k]]
    ensures k >= |first| ==> (first + rest)[k] == rest[k - |first|]
  {
    if k < |first| {
      assert first == [first[0]];
    }
  }

  /** Classification follows feed order: the resources of a concatenation of
      items are those of the first part followed by those of the second. */
  lemma {:induction false} ClassifyAppend(a: seq<Json>, b: seq<Json>)
    requires Classify(a).Ok? && Classify(b).Ok?
    ensures Classify(a + b) == Ok(Classify(a).value + Classify(b).value)
    decreases |a|
  {
    if |a| == 0 {
      assert a + b == b;
      assert Classify(a) == Ok([]);
      assert [] + Classify(b).value == Classify(b).value;
    } else {
      var ab := a + b;
      assert ab[0] == a[0] && ab[1..] == a[1..] + b;
      ClassifyAppend(a[1..], b);
      var first := ClassifyItem(a[0]).value;
      var restA := Classify(a[1..]).value;
      var restB := Classify(b).value;
      ClassifyCons(a);
      ClassifyCons(ab);
      SeqAssoc(first, restA, restB);
      assert Classify(ab) == Ok(first + (restA + restB));
      assert Classify(a).value == first + restA;
    }
  }

  /** One step of `Classify`: the first item's resources, then the rest's. */
  lemma ClassifyCons(items: seq<Json>)
    requires |items| > 0 && ClassifyItem(items[0]).Ok? && Classify(items[1..]).Ok?
    ensures Classify(items) == Ok(ClassifyItem(items[0]).value + Classify(items[1..]).value)
  {
  }

  /** A classified feed had its first item and its remaining items classified. */
  lemma ClassifyParts(items: seq<Json>)
    requires |items| > 0 && Classify(items).Ok?
    ensures ClassifyItem(items[0]).Ok? && Classify(items[1..]).Ok?
  {
  }

  /** `get_download_links` on a scripted server: page through the feed, then
      classify every collected item. */
  function DownloadLinks(board: Board, script: seq<FeedResponse>): (r: Result<seq<Resource>>)
    ensures (forall i :: 0 <= i < |script| ==> !IsEnd(script[i])) ==> r == Err(ScriptExhausted)
    ensures FetchFeed(board, script).Ok? ==> r == Classify(FetchFeed(board, script).value.items)
    ensures r.Ok? ==> exists feed :: FetchFeed(board, script) == Ok(feed) && |r.value| <= |feed.items|
  {
    var feed :- FetchFeed(board, script);
    Classify(feed.items)
  }

  /** With the first end bookmark at response `e`, the links are the
      classification of the items of responses `0..e`, in order. */
  lemma DownloadLinksFirstEnd(board: Board, script: seq<FeedResponse>, e: nat)
    requires e < |script| && IsEnd(script[e])
    requires forall k :: 0 <= k < e ==> !IsEnd(script[k])
    ensures DownloadLinks(board, script) == Classify(AllItems(script[..e + 1]))
  {
    StopsAtFirstEnd(board, script, e);
  }
}
