# pin-dl board downloader — Dafny model

pin-dl downloads the images and videos of a user's Pinterest boards. This project models its decision logic in `src/__init__.py`:

- reading the resource responses embedded in the profile page;
- recognising responses that report an error, and extracting the error message;
- turning the board resource into `Board` records, or failing with `UserBoardException`;
- paging through `BoardFeedResource` with a bookmark cursor until the bookmark `-end-`;
- classifying each feed item as an image, a video or nothing;
- resolving a video's HLS playlist (the format of RFC 8216) into segment URLs, using only line suffixes;
- planning the downloads of a board: file names, target paths and the skip-if-present rule.

The model replaces the glue with abstract inputs:

- Decoded JSON is the `Values.Json` datatype. Python's `v[k]`, `k in v` and truthiness are written out (`Lookup`, `Contains`, `Truthy`), so a missing key, a wrong type or an empty bookmark take the same branch as in the code.
- Exceptions become `Values.Error` inside a `Result`.
- `json.loads` of the error text is a `decode` function parameter.
- The feed server is a finite script of `(items, bookmark)` responses. A script with no `-end-` bookmark ends in the model error `ScriptExhausted`, where the real loop would keep asking.
- The playlist server is a function from a URL to the lines it serves.
- The filesystem is the set of paths that exist.

Modules follow the components: `Values` (JSON values and errors), `Strings` (split, join, strip, `os.path.join`), `Boards`, `Feed`, `Playlist` and `Download`.

Where the code does something a reader might not expect, the model follows the code:

- An item that has `images` but no `videos` key raises `KeyError`, because `res["videos"]` is subscripted directly. It is not classified as an image.
- A master playlist with no `m3u8` line selects `""` and carries on. It does not fail.
- Pagination has no iteration ceiling.
- Fetches report no per-resource outcome.

## Model

| member | source | states |
|---|---|---|
| Values.Lookup | src/__init__.py:74-77 | `v[key]` succeeds exactly on a dict holding `key` and gives its value; a dict without it raises `KeyError(key)`, any other value `TypeError` |
| Values.Contains | src/__init__.py:341-344 | `key in v` answers on dicts (key present), lists (an element equals the string) and strings (some position starts with `key`); any other value raises `TypeError` |
| Values.Truthy | src/__init__.py:155 | a value is falsy exactly when it is `None`, `False`, `0`, `""`, `[]` or `{}` |
| Values.InfixAt | src/__init__.py:341 | Python's substring test `p in s` holds exactly when some position of `s` starts with `p` |
| Strings.Split | src/__init__.py:232 | `str.split` always yields at least one piece |
| Strings.JoinSplit | src/__init__.py:232-234 | joining the pieces of a split with the same separator gives back the original string |
| Strings.SplitJoin | src/__init__.py:232-234 | splitting a `/`-join of pieces without `/` gives back exactly those pieces |
| Strings.SplitAround | src/__init__.py:304 | splitting `a + c + b` on the single character `c` gives the pieces of `a` followed by the pieces of `b` |
| Strings.SplitPiecesWithout | src/__init__.py:304 | no piece of a split on one character contains that character |
| Strings.SplitCutsIffOccurs | src/__init__.py:355 | a split has a piece `[1]` exactly when the separator occurs in the string |
| Strings.SplitWithoutSeparator | src/__init__.py:355 | a string in which the separator does not occur splits into itself alone |
| Strings.SplitFirstOccurrence | src/__init__.py:355 | when `sep` neither occurs in `a` nor straddles its end, `a + sep + b` splits into `a` followed by the pieces of `b`: the first piece ends at the first occurrence |
| Strings.ReplaceLastPieces | src/__init__.py:232-234 | replacing the last `/`-piece by a piece without `/` keeps the number of pieces and every piece before the last, and the new piece is last |
| Strings.ReplaceLastSame | src/__init__.py:232-234 | putting a URL's own last piece back gives the URL unchanged |
| Strings.LastPieceAfterDot | src/__init__.py:304-305 | the last `.`-piece of `a + "." + b` is `b` when `b` has no dot |
| Strings.TrimLeft | src/__init__.py:394 | the result is a suffix of the input, every removed character is the strip character, and the result does not start with it |
| Strings.TrimRight | src/__init__.py:394 | the result is a prefix of the input, every removed character is the strip character, and the result does not end with it |
| Strings.Strip | src/__init__.py:394 | `path.strip("/")` is a contiguous part of the path with only `/` outside it, and it neither starts nor ends with `/` |
| Strings.PathJoinParts | src/__init__.py:306 | `os.path.join(a, b)`: an absolute `b` replaces `a`; otherwise the result is `a` then `b`: just `b` when `a` is empty, with one `/` between them when `a` is non-empty, never a doubled one added |
| Boards.BoardOf | src/__init__.py:72-79 | a record yields a board exactly when it is a dict with `id`, `url`, `owner.username` and `name`; the board carries those four values |
| Boards.MapBoards | src/__init__.py:70-81 | succeeds exactly when every record does; then one board per record, in order; otherwise the error is that of the first failing record |
| Boards.UserProfileBoardResource | src/__init__.py:61-81 | a non-list raises `ValueError("Wrong object provided")`; a list gives as many boards as records, board `i` from record `i` |
| Boards.ResponseHasErrors | src/__init__.py:337-345 | `True` exactly when `"error" in response` holds (a dict key, a list element or a substring), `None` otherwise; a non-dict item or a `response` that is no container raises `TypeError`, a missing `response` raises `KeyError`; the "Response item was not found" error is never raised |
| Boards.ResponseErrorMessage | src/__init__.py:348-358 | an item without errors raises `ValueError`; a non-string error message raises `AttributeError`; a message without ` - ` raises `IndexError`; otherwise the result is the `message` field of piece `[1]` of the message split on ` - `, decoded by `json.loads` |
| Boards.ErrorMessageOfDashedText | src/__init__.py:355-358 | for an error message `prefix - json` where ` - ` first occurs right after `prefix` and not again in `json`, the result is the `message` field of the decoded `json` |
| Boards.PageStep | src/__init__.py:99-112 | a response refills the slot it is named after and leaves the other one alone; a response with an error replaces the recorded error with its message, one without keeps it |
| Boards.SlotOfFields | src/__init__.py:102-109 | a slot is read exactly when the item's `response` is a dict with `status`, `http_status` and `data`, and it holds those three values |
| Boards.PageStepSucceeds | src/__init__.py:99-112 | one iteration succeeds exactly when its response is a dict with a `name`, its slot fields are readable when it is named after a slot, its error test does not raise, and its error message can be extracted when it reports one |
| Boards.ReadPageSucceeds | src/__init__.py:97-113 | reading the page succeeds exactly when every response passes the one-iteration test above |
| Boards.ReadPageWithoutBoard | src/__init__.py:106-109 | without a response named `UserProfileBoardResource` the board slot stays unset (with `ReadPageWithBoard`, unset exactly when no such response exists) |
| Boards.ReadPageWithBoard | src/__init__.py:106-109 | one response named `UserProfileBoardResource` anywhere on the page leaves the board slot filled |
| Boards.PageStepBoardUnset | src/__init__.py:106-109 | after one response the board slot is unset exactly when it was unset before and the response is not the board resource |
| Boards.ReadPageBoardSlot | src/__init__.py:106-109 | the board slot comes from the last response named `UserProfileBoardResource` |
| Boards.ReadPageNoError | src/__init__.py:111-112 | when no response reports an error, the page's error stays `None` |
| Boards.ReadPageLastError | src/__init__.py:111-112 | the page's error is the message of the last response that reports one |
| Boards.UserBoards | src/__init__.py:124-135 | a page error raises `UserBoardException` with that message before board data is read; a page without board data raises `AttributeError`; an empty board list raises "User does not have any boards"; a non-list raises `ValueError`; a result is the non-empty mapped list |
| Feed.RequestForFields | src/__init__.py:150-166 | a request carries `source_url = board.url`, the board id and page size 25, and `bookmarks = [bookmark]` exactly when the held bookmark is truthy |
| Feed.Paginate | src/__init__.py:149-170 | succeeds exactly when some response carries `-end-`; then one request per response up to and including the first `-end-`, items concatenated in order, and request `k + 1` built from response `k`'s bookmark |
| Feed.FetchFeed | src/__init__.py:145-170 | the first request has no `bookmarks`; every request uses `source_url = board.url`, the board id and page size 25; a later request carries `bookmarks = [previous bookmark]` exactly when that bookmark is truthy |
| Feed.StopsAtFirstEnd | src/__init__.py:149-170 | with the first `-end-` at response `e`, exactly `e + 1` requests are made and the items of responses `0..e` are collected |
| Feed.TwoPageFeed | src/__init__.py:146-170 | a feed whose second page carries `-end-` makes exactly two requests, the first without `bookmarks` and the second with the first page's bookmark, and collects both pages' items in order |
| Feed.AllItemsAppend | src/__init__.py:169 | the items collected from consecutive responses concatenate |
| Feed.ChecksExclusive | src/__init__.py:175-184 | the image check and the video check never both pass |
| Feed.ImageCheckCases | src/__init__.py:175 | on a dict the image test is `images` present and `videos` null, raising `KeyError("videos")` when `images` comes without `videos`; no other value passes it |
| Feed.VideoCheckCases | src/__init__.py:184 | on a dict the video test is `videos` present and not null; no other value passes it |
| Feed.ClassifyItem | src/__init__.py:173-190 | at most one resource per item; an image carries `images.orig.url`, a video carries `videos.video_list.V_HLSV4.url`; `images` without a `videos` key raises `KeyError`; no `images` and no non-null `videos` gives nothing |
| Feed.ClassifyItemImage | src/__init__.py:175-182 | every item with `images`, a null `videos`, a string `id` and a string `images.orig.url` gives exactly that image |
| Feed.ClassifyItemVideo | src/__init__.py:184-190 | every item with a non-null `videos`, a string `id` and a string `V_HLSV4` URL gives exactly that video, with or without `images` |
| Feed.Classify | src/__init__.py:172-192 | a classified feed has at most one resource per item |
| Feed.ClassifySucceeds | src/__init__.py:172-192 | classification succeeds exactly when every item classifies |
| Feed.ClassifyProvenance | src/__init__.py:172-192 | every produced resource is the single resource of some feed item |
| Feed.ClassifyResourceFrom | src/__init__.py:172-192 | resource `k` of a classified feed is the single resource of some feed item |
| Feed.ClassifyAppend | src/__init__.py:172-192 | resources follow feed order: the resources of two stretches of items are those of the first followed by those of the second |
| Feed.DownloadLinks | src/__init__.py:138-192 | without an `-end-` bookmark no links are produced; otherwise the links are the classification of the collected items |
| Feed.DownloadLinksFirstEnd | src/__init__.py:145-192 | with the first `-end-` at response `e`, the links are the classification of the items of responses `0..e` |
| Playlist.SegmentLinesAppend | src/__init__.py:239-246 | the segment lines of two stretches of a playlist are those of the first followed by those of the second |
| Playlist.SegmentLinesOfOne | src/__init__.py:241-243 | one line contributes itself when it is non-empty and ends in `ts`, else nothing |
| Playlist.SegmentLinesMembers | src/__init__.py:239-246 | exactly the non-empty lines ending in `ts` are kept, and never more than the playlist has |
| Playlist.SelectVariant | src/__init__.py:221-230 | the result is `""` exactly when no non-empty line ends in `m3u8`; otherwise it is such a line with no such line after it |
| Playlist.SegmentUrls | src/__init__.py:237-248 | one URL per segment line, in encounter order, each the variant URL with its last piece replaced by the line; no more URLs than lines |
| Playlist.StreamUrls | src/__init__.py:215-248 | the variant URL is the master URL with its last piece replaced by the last `m3u8` line (or by `""`); the segment URLs are resolved from the lines served at the variant URL |
| Playlist.VariantUrlPieces | src/__init__.py:232-234 | a selected variant line without `/` keeps every `/`-piece of the master URL but the last |
| Download.PlanSteps | src/__init__.py:301-320 | one step per link, in link order, aimed at the link's target path; a link is fetched exactly when `force` is set or its path neither existed nor belonged to an earlier link; a fetch carries the link's kind and URL |
| Download.PresentShift | src/__init__.py:307-308 | after the first link is handled its path exists, so presence of a later link is unchanged when counted from the remaining links |
| Download.FetchBoard | src/__init__.py:289-320 | empty links raise `ValueError` before the folder is checked; an empty folder raises `ValueError`; otherwise the plan of `PlanSteps`: one step per link with the skip rule, each fetch carrying its link's kind and URL |
| Download.NothingToFetch | src/__init__.py:301-320 | without `force`, when every target path exists, no link is fetched |
| Download.RerunFetchesNothing | src/__init__.py:301-320 | once every fetch of a plan has put its file in place, planning the same links again without `force` fetches nothing (idempotence) |
| Download.PlannedPathExists | src/__init__.py:301-320 | after a plan, every link's target path existed before or is among the fetched paths |
| Download.ForceFetchesAll | src/__init__.py:308 | with `force`, every link is fetched |
| Download.TargetPathPlacement | src/__init__.py:306 | a file goes under `folder/` unless the resource id starts with `/`, in which case `os.path.join` drops the folder |
| Download.FileNameKeepsExtension | src/__init__.py:303-314 | the file name of an image starts with its id and has the URL's last `.`-piece as its extension; a video's is `{id}.ts` |

## Left out

- HTTP sessions, headers and requests: the page fetch, the feed requests, the playlist and media downloads. Scripted responses and a serving function stand in for them.
- HTML and XPath parsing and `json.loads` in `get_page_data` (reading `resourceResponses` from the `initial-state` script). The model starts from the decoded response list.
- `json.loads` in `response_error_message`: it is the `decode` parameter.
- `fetch_image` and `fetch_video`: byte streaming and appending to disk, and their swallow-and-log exception handling. This is file I/O.
- `make_dir`, `log`, the progress bar, `session`, `argparse` and `main`. This is OS, console and CLI glue. Only the `path.strip("/")` of `main` is modelled (`Strings.Strip`).
- Download planning assumes a planned fetch leaves its file in place. A failed download that leaves no file, so a later link with the same path would be fetched again, is not modelled.
- The `isinstance(links, list)` check in `fetch_board` cannot fail in the typed model. The `board_name` argument is only printed, so it is dropped.
- `UserProfileResources` keeps its slots in class-level shared objects, so they persist across calls. The model reads one page from empty slots, which is how `main` uses it.
- JSON numbers are integers: no floats.
- Feed.ClassifyItem: a resource id or URL that is not a string stops classification with the model error `NonStringField`. The code would store the value and fail (or format it) later.
- Feed.Paginate: a scripted server without an `-end-` bookmark ends in `ScriptExhausted`. The real loop never terminates in that case.
- Boards.ReadPageSucceeds: which error an unreadable response raises is not stated, only that reading then fails.
- The HTTP query encoding of the feed request: `data` as a JSON string with an empty `context`. The model keeps the `options` object and `source_url` as values.
