/**
 Download planning for one board (`fetch_board`): input validation, the
 file name of each resource, and the skip-if-present rule. The filesystem is
 the set of paths that exist; each link yields one step, either a fetch of
 the resource to its path or a skip.
 */
module Download {
  import opened Values
  import opened Strings
  import opened Feed

  const LinksEmptyMessage := "Links parameter cannot be empty"
  const FolderEmptyMessage := "Folder parameter is empty"

  /** What the loop does for one link. A fetch is preceded by creating the
      save folder, which the model leaves implicit. */
  datatype Step = Skip(path: string) | Fetch(kind: Kind, url: string, path: string)

  /** The last `.`-piece of a URL, taken as the image's extension. */
  function Extension(url: string): string
  {
    Last(Split(url, "."))
  }

  /** `{id}.{extension}` for an image, `{id}.ts` for a video. */
  function FileName(r: Resource): string
  {
    match r.kind
    case Image => r.id + "." + Extension(r.url)
    case Video => r.id + ".ts"
  }

  function TargetPath(folder: string, r: Resource): string
  {
    PathJoin(folder, FileName(r))
  }

  /** The `i`-th link's path exists when its turn comes: it existed before,
      or an earlier link had the same path and so was either already present
      or fetched to it. */
  predicate Present(folder: string, links: seq<Resource>, existing: set<string>, i: nat)
    requires i < |links|
  {
    TargetPath(folder, links[i]) in existing
    || exists j :: 0 <= j < i && TargetPath(folder, links[j]) == TargetPath(folder, links[i])
  }

  /** The loop of `fetch_board` over the links, starting with the paths in
      `existing`; a fetched path exists from then on. */
  function PlanSteps(folder: string, links: seq<Resource>, force: bool, existing: set<string>): (steps: seq<Step>)
    ensures |steps| == |links|
    ensures forall i :: 0 <= i < |links| ==> steps[i].path == TargetPath(folder, links[i])
    ensures forall i :: 0 <= i < |links| ==> (steps[i].Fetch? <==> force || !Present(folder, links, existing, i))
    ensures forall i :: 0 <= i < |links| && steps[i].Fetch? ==>
              steps[i].kind == links[i].kind && steps[i].url == links[i].url
    decreases |links|
  {
    if |links| == 0 then []
    else
      var path := TargetPath(folder, links[0]);
      var step := if path !in existing || force then Fetch(links[0].kind, links[0].url, path) else Skip(path);
      var rest := PlanSteps(folder, links[1..], force, existing + {path});
      PresentShift(folder, links, existing);
      [step] + rest
  }

  /** Presence of link `i > 0` is presence of link `i - 1` of the remaining
      links once the first link's path exists. */
  lemma PresentShift(folder: string, links: seq<Resource>, existing: set<string>)
    requires |links| > 0
    ensures forall i :: 1 <= i < |links| ==>
              (Present(folder, links, existing, i)
               <==> Present(folder, links[1..], existing + {TargetPath(folder, links[0])}, i - 1))
  {
    var rest := links[1..];
    var existing' := existing + {TargetPath(folder, links[0])};
    forall i | 1 <= i < |links|
      ensures Present(folder, links, existing, i) <==> Present(folder, rest, existing', i - 1)
    {
      assert rest[i - 1] == links[i];
      if Present(folder, rest, existing', i - 1) && TargetPath(folder, links[i]) !in existing'
      {
        var j :| 0 <= j < i - 1 && TargetPath(folder, rest[j]) == TargetPath(folder, rest[i - 1]);
        assert rest[j] == links[j + 1];
      }
      if Present(folder, links, existing, i) && TargetPath(folder, links[i]) !in existing {
        var j :| 0 <= j < i && TargetPath(folder, links[j]) == TargetPath(folder, links[i]);
        if j > 0 {
          assert rest[j - 1] == links[j];
        }
      }
    }
  }

  /** `fetch_board`: an empty link list is refused first, then an empty save
      folder; otherwise one step per link. */
  function FetchBoard(links: seq<Resource>, folder: string, force: bool, existing: set<string>): (r: Result<seq<Step>>)
    ensures links == [] ==> r == Err(ValueError(LinksEmptyMessage))
    ensures links != [] && folder == "" ==> r == Err(ValueError(FolderEmptyMessage))
    ensures links != [] && folder != "" ==> r.Ok? && |r.value| == |links|
    ensures r.Ok? ==> forall i :: 0 <= i < |links| ==>
              r.value[i].path == TargetPath(folder, links[i])
              && (r.value[i].Fetch? <==> force || !Present(folder, links, existing, i))
    ensures r.Ok? ==> forall i :: 0 <= i < |links| && r.value[i].Fetch? ==>
              r.value[i].kind == links[i].kind && r.value[i].url == links[i].url
    ensures r.Ok? ==> r.value == PlanSteps(folder, links, force, existing)
  {
    if links == [] then Err(ValueError(LinksEmptyMessage))
    else if folder == "" then Err(ValueError(FolderEmptyMessage))
    else Ok(PlanSteps(folder, links, force, existing))
  }

  /** Without `force`, a board whose every target path already exists is
      planned without a single fetch. */
  lemma NothingToFetch(folder: string, links: seq<Resource>, existing: set<string>)
    requires forall i :: 0 <= i < |links| ==> TargetPath(folder, links[i]) in existing
    ensures forall i :: 0 <= i < |links| ==> PlanSteps(folder, links, false, existing)[i].Skip?
  {
    var steps := PlanSteps(folder, links, false, existing);
    forall i | 0 <= i < |links|
      ensures steps[i].Skip?
    {
      assert Present(folder, links, existing, i);
    }
  }

  /** The paths a plan fetches to. */
  function FetchedPaths(steps: seq<Step>): set<string>
  {
    set i | 0 <= i < |steps| && steps[i].Fetch? :: steps[i].path
  }

  /** Once every fetch of a plan has put its file in place, planning the same
      links again without `force` fetches nothing: the plan is idempotent. */
  lemma RerunFetchesNothing(folder: string, links: seq<Resource>, force: bool, existing: set<string>)
    ensures var after := existing + FetchedPaths(PlanSteps(folder, links, force, existing));
            forall i :: 0 <= i < |links| ==> PlanSteps(folder, links, false, after)[i].Skip?
  {
    var steps := PlanSteps(folder, links, force, existing);
    var after := existing + FetchedPaths(steps);
    forall i | 0 <= i < |links|
      ensures TargetPath(folder, links[i]) in after
    {
      PlannedPathExists(folder, links, force, existing, i);
    }
    NothingToFetch(folder, links, after);
  }

  /** After a plan, each link's target path existed before or was fetched to. */
  lemma {:induction false} PlannedPathExists(folder: string, links: seq<Resource>, force: bool, existing: set<string>, i: nat)
    requires i < |links|
    ensures TargetPath(folder, links[i]) in existing + FetchedPaths(PlanSteps(folder, links, force, existing))
    decreases i
  {
    var steps := PlanSteps(folder, links, force, existing);
    var path := TargetPath(folder, links[i]);
    if path !in existing {
      if steps[i].Fetch? {
        assert steps[i].path == path;
      } else {
        var j :| 0 <= j < i && TargetPath(folder, links[j]) == path;
        PlannedPathExists(folder, links, force, existing, j);
      }
    }
  }

  /** With `force`, every link is fetched. */
  lemma ForceFetchesAll(folder: string, links: seq<Resource>, existing: set<string>)
    ensures forall i :: 0 <= i < |links| ==> PlanSteps(folder, links, true, existing)[i].Fetch?
  {
  }

  /** A resource lands in the save folder unless its id starts with `/`, in
      which case `os.path.join` discards the folder. */
  lemma TargetPathPlacement(folder: string, r: Resource)
    ensures !StartsWith(r.id, "/") && folder != "" && !EndsWith(folder, "/")
            ==> TargetPath(folder, r) == folder + "/" + FileName(r)
    ensures StartsWith(r.id, "/") ==> TargetPath(folder, r) == FileName(r)
  {
    var name := FileName(r);
    if |r.id| > 0 {
      assert name[..1] == r.id[..1];
    } else {
      assert name[0] == '.';
    }
  }

  /** A saved image keeps the extension of its URL; a saved video is `{id}.ts`. */
  lemma FileNameKeepsExtension(r: Resource)
    ensures r.kind == Image ==> Extension(FileName(r)) == Extension(r.url) && StartsWith(FileName(r), r.id)
    ensures r.kind == Video ==> FileName(r) == r.id + ".ts"
  {
    if r.kind == Image {
      var ext := Extension(r.url);
      SplitPiecesWithout(r.url, '.');
      LastPieceAfterDot(r.id, ext);
      assert (r.id + "." + ext)[..|r.id|] == r.id;
    }
  }
}
