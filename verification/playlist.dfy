/**
 Resolving a video's HLS playlist (the playlist format of RFC 8216) into
 the URLs of its media segments. Only the suffix of each line is looked at:
 the master playlist's last line ending in `m3u8` names the variant
 playlist, and every line of the variant playlist ending in `ts` names a
 segment. Both are resolved against the URL they were read from by
 replacing its last `/`-piece.
 */
module Playlist {
  import opened Strings

  predicate IsVariantLine(line: string)
  {
    line != "" && EndsWith(line, "m3u8")
  }

  predicate IsSegmentLine(line: string)
  {
    line != "" && EndsWith(line, "ts")
  }

  /** The segment lines of a playlist, in encounter order. */
  function SegmentLines(lines: seq<string>): seq<string>
    decreases |lines|
  {
    if |lines| == 0 then []
    else (if IsSegmentLine(lines[0]) then [lines[0]] else []) + SegmentLines(lines[1..])
  }

  /** The segment lines of two consecutive stretches of lines are those of
      the first stretch followed by those of the second. */
  lemma {:induction false} SegmentLinesAppend(a: seq<string>, b: seq<string>)
    ensures SegmentLines(a + b) == SegmentLines(a) + SegmentLines(b)
    decreases |a|
  {
    if |a| == 0 {
      assert a + b == b;
    } else {
      assert (a + b)[0] == a[0];
      assert (a + b)[1..] == a[1..] + b;
      SegmentLinesAppend(a[1..], b);
    }
  }

  /** A single line contributes itself when it is a segment line, else nothing. */
  lemma SegmentLinesOfOne(line: string)
    ensures SegmentLines([line]) == if IsSegmentLine(line) then [line] else []
  {
    assert [line][1..] == [];
  }

  /** Exactly the segment lines of a playlist are kept, and never more
      lines than the playlist has. */
  lemma {:induction false} SegmentLinesMembers(lines: seq<string>)
    ensures |SegmentLines(lines)| <= |lines|
    ensures forall x :: x in SegmentLines(lines) <==> x in lines && IsSegmentLine(x)
    decreases |lines|
  {
    if |lines| > 0 {
      SegmentLinesMembers(lines[1..]);
      assert lines == [lines[0]] + lines[1..];
      assert forall x :: x in lines <==> x == lines[0] || x in lines[1..];
    }
  }

  /** The variant-selection loop of `get_stream_urls`: the last non-empty
      line ending in `m3u8`, or `""` when there is none. */
  method SelectVariant(lines: seq<string>) returns (best: string)
    ensures (forall i :: 0 <= i < |lines| ==> !IsVariantLine(lines[i])) <==> best == ""
    ensures best != "" ==> exists i :: 0 <= i < |lines| && lines[i] == best && IsVariantLine(best)
                                       && forall j :: i < j < |lines| ==> !IsVariantLine(lines[j])
  {
    best := "";
    ghost var at := -1;
    var k := 0;
    while k < |lines|
      invariant 0 <= k <= |lines|
      invariant best == "" <==> forall i :: 0 <= i < k ==> !IsVariantLine(lines[i])
      invariant best != "" ==> 0 <= at < k && lines[at] == best && IsVariantLine(best)
                               && forall j :: at < j < k ==> !IsVariantLine(lines[j])
    {
      var line := lines[k];
      if line != "" && EndsWith(line, "m3u8") {
        best := line;
        at := k;
      }
      k := k + 1;
    }
  }

  /** The segment loop of `get_stream_urls`: one URL per segment line, in
      encounter order, each resolved against `url`. */
  method SegmentUrls(url: string, lines: seq<string>) returns (urls: seq<string>)
    ensures |urls| == |SegmentLines(lines)| <= |lines|
    ensures forall k :: 0 <= k < |urls| ==> urls[k] == ReplaceLast(url, SegmentLines(lines)[k])
  {
    SegmentLinesMembers(lines);
    urls := [];
    var k := 0;
    while k < |lines|
      invariant 0 <= k <= |lines|
      invariant |urls| == |SegmentLines(lines[..k])|
      invariant forall m :: 0 <= m < |urls| ==> urls[m] == ReplaceLast(url, SegmentLines(lines[..k])[m])
    {
      var line := lines[k];
      SegmentLinesAppend(lines[..k], [line]);
      SegmentLinesOfOne(line);
      assert lines[..k + 1] == lines[..k] + [line];
      if line != "" && EndsWith(line, "ts") {
        urls := urls + [ReplaceLast(url, line)];
      }
      k := k + 1;
    }
    assert lines[..k] == lines;
  }

  /** `get_stream_urls`: `serve` stands for the HTTP server and maps a URL to
      the lines of the playlist it returns. The variant playlist is read from
      the master URL with its last piece replaced by the selected line. */
  method StreamUrls(url: string, serve: string -> seq<string>) returns (variantUrl: string, urls: seq<string>)
    ensures (forall i :: 0 <= i < |serve(url)| ==> !IsVariantLine(serve(url)[i])) ==> variantUrl == ReplaceLast(url, "")
    ensures (exists i :: 0 <= i < |serve(url)| && IsVariantLine(serve(url)[i])) ==>
              exists i :: 0 <= i < |serve(url)| && IsVariantLine(serve(url)[i])
                          && (forall j :: i < j < |serve(url)| ==> !IsVariantLine(serve(url)[j]))
                          && variantUrl == ReplaceLast(url, serve(url)[i])
    ensures |urls| == |SegmentLines(serve(variantUrl))|
    ensures forall k :: 0 <= k < |urls| ==> urls[k] == ReplaceLast(variantUrl, SegmentLines(serve(variantUrl))[k])
  {
    var best := SelectVariant(serve(url));
    variantUrl := ReplaceLast(url, best);
    urls := SegmentUrls(variantUrl, serve(variantUrl));
  }

  /** When the selected variant line has no `/`, the variant URL keeps every
      `/`-piece of the master URL but the last, which becomes that line. */
  lemma VariantUrlPieces(url: string, line: string)
    requires IsVariantLine(line) && '/' !in line
    ensures var parts := Split(url, "/");
            Split(ReplaceLast(url, line), "/") == parts[..|parts| - 1] + [line]
  {
    ReplaceLastPieces(url, line);
  }
}
