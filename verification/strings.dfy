/**
 The string operations the downloader builds its URLs and file names from:
 Python's `str.split(sep)`, `sep.join(pieces)`, `str.endswith`, `str.strip`,
 the "replace the last `/`-piece" idiom, and `os.path.join` for two parts.
 */
module Strings {
  import opened Values

  /** Python's `s.endswith(suffix)`. */
  predicate EndsWith(s: string, suffix: string)
  {
    |suffix| <= |s| && s[|s| - |suffix|..] == suffix
  }

  /** Python's `s.split(sep)` for a non-empty separator: cut at every
      occurrence of `sep`, scanning left to right, never overlapping. */
  function Split(s: string, sep: string): (pieces: seq<string>)
    requires |sep| > 0
    ensures |pieces| >= 1
    decreases |s|
  {
    if |s| < |sep| then [s]
    else if StartsWith(s, sep) then [""] + Split(s[|sep|..], sep)
    else
      var rest := Split(s[1..], sep);
      [[s[0]] + rest[0]] + rest[1..]
  }

  /** Python's `sep.join(pieces)`. */
  function Join(pieces: seq<string>, sep: string): string
    decreases |pieces|
  {
    if |pieces| == 0 then ""
    else if |pieces| == 1 then pieces[0]
    else pieces[0] + sep + Join(pieces[1..], sep)
  }

  /** Python's `pieces[-1]` on a non-empty list. */
  function Last(pieces: seq<string>): string
    requires |pieces| > 0
  {
    pieces[|pieces| - 1]
  }

  /** `parts = url.split("/"); parts[-1] = piece; "/".join(parts)`. */
  function ReplaceLast(url: string, piece: string): string
  {
    var parts := Split(url, "/");
    Join(parts[..|parts| - 1] + [piece], "/")
  }

  /** Python's `os.path.join(a, b)` on POSIX: an absolute `b` discards `a`,
      otherwise a `/` is inserted unless `a` is empty or already ends in one. */
  function PathJoin(a: string, b: string): string
  {
    if StartsWith(b, "/") then b
    else if a == "" || EndsWith(a, "/") then a + b
    else a + "/" + b
  }

  /** An absolute `b` replaces `a`; otherwise `b` follows `a`, an empty `a`
      adds nothing, and a non-empty `a` is separated from `b` by exactly one
      added or kept `/`. */
  lemma PathJoinParts(a: string, b: string)
    ensures StartsWith(b, "/") ==> PathJoin(a, b) == b
    ensures !StartsWith(b, "/") ==> PathJoin(a, b) == a + b || PathJoin(a, b) == a + "/" + b
    ensures !StartsWith(b, "/") && a != "" ==>
              var r := PathJoin(a, b);
              |r| > |b| && r[|r| - |b| - 1] == '/'
    ensures !StartsWith(b, "/") && EndsWith(a, "/") ==> PathJoin(a, b) == a + b
    ensures !StartsWith(b, "/") && a == "" ==> PathJoin(a, b) == b
  {
    if !StartsWith(b, "/") && a != "" {
      var r := PathJoin(a, b);
      if EndsWith(a, "/") {
        assert r[|r| - |b| - 1] == a[|a| - 1];
      } else {
        assert r[|r| - |b| - 1] == '/';
      }
    }
  }

  /** Python's `s.lstrip(c)` for one character. */
  function TrimLeft(s: string, c: char): (r: string)
    ensures |r| <= |s| && r == s[|s| - |r|..]
    ensures forall k :: 0 <= k < |s| - |r| ==> s[k] == c
    ensures r == [] || r[0] != c
    decreases |s|
  {
    if |s| > 0 && s[0] == c then TrimLeft(s[1..], c) else s
  }

  /** Python's `s.rstrip(c)` for one character. */
  function TrimRight(s: string, c: char): (r: string)
    ensures |r| <= |s| && r == s[..|r|]
    ensures forall k :: |r| <= k < |s| ==> s[k] == c
    ensures r == [] || r[|r| - 1] != c
    decreases |s|
  {
    if |s| > 0 && s[|s| - 1] == c then TrimRight(s[..|s| - 1], c) else s
  }

  /** Python's `s.strip(c)` for one character: the part of `s` left after
      removing every leading and trailing `c`. */
  function Strip(s: string, c: char): (r: string)
    ensures exists i, j :: 0 <= i <= j <= |s| && r == s[i..j]
                           && (forall k :: 0 <= k < i ==> s[k] == c)
                           && (forall k :: j <= k < |s| ==> s[k] == c)
    ensures r == [] || (r[0] != c && r[|r| - 1] != c)
  {
    var left := TrimLeft(s, c);
    var r := TrimRight(left, c);
    var i := |s| - |left|;
    assert r == s[i..i + |r|];
    r
  }

  /** Joining one more piece in front of at least one piece puts a separator between them. */
  lemma JoinCons(head: string, rest: seq<string>, sep: string)
    requires |rest| >= 1
    ensures Join([head] + rest, sep) == head + sep + Join(rest, sep)
  {
    assert ([head] + rest)[1..] == rest;
  }

  /** Prefixing a character to the first piece prefixes it to the joined string. */
  lemma {:induction false} JoinPrependChar(c: char, pieces: seq<string>, sep: string)
    requires |pieces| >= 1
    ensures Join([[c] + pieces[0]] + pieces[1..], sep) == [c] + Join(pieces, sep)
  {
    if |pieces| > 1 {
      JoinCons([c] + pieces[0], pieces[1..], sep);
      JoinCons(pieces[0], pieces[1..], sep);
      assert [pieces[0]] + pieces[1..] == pieces;
    }
  }

  /** Joining the pieces of a split with the same separator gives back the string. */
  lemma {:induction false} JoinSplit(s: string, sep: string)
    requires |sep| > 0
    ensures Join(Split(s, sep), sep) == s
    decreases |s|
  {
    if |s| < |sep| {
    } else if StartsWith(s, sep) {
      var rest := Split(s[|sep|..], sep);
      JoinSplit(s[|sep|..], sep);
      JoinCons("", rest, sep);
      assert s == sep + s[|sep|..];
    } else {
      var rest := Split(s[1..], sep);
      JoinSplit(s[1..], sep);
      JoinPrependChar(s[0], rest, sep);
      assert s == [s[0]] + s[1..];
    }
  }

  /** One unfolding of a split on one character, at a character that is not the separator. */
  lemma SplitStep(s: string, c: char)
    requires |s| >= 1 && s[0] != c
    ensures var rest := Split(s[1..], [c]);
            Split(s, [c]) == [[s[0]] + rest[0]] + rest[1..]
  {
    assert !StartsWith(s, [c]);
  }

  /** One unfolding of a split on one character, at the separator. */
  lemma SplitMatchStep(s: string, c: char)
    requires |s| >= 1 && s[0] == c
    ensures Split(s, [c]) == [""] + Split(s[1..], [c])
  {
    assert StartsWith(s, [c]);
  }

  /** Splitting on one character cuts a string joined around that character in two. */
  lemma {:induction false} SplitAround(a: string, b: string, c: char)
    ensures Split(a + [c] + b, [c]) == Split(a, [c]) + Split(b, [c])
    decreases |a|
  {
    var s := a + [c] + b;
    if |a| == 0 {
      assert s[0] == c && s[1..] == b;
      SplitMatchStep(s, c);
    } else {
      assert s[1..] == a[1..] + [c] + b;
      SplitAround(a[1..], b, c);
      SplitAroundStep(a, b, c);
    }
  }

  /** The inductive step of `SplitAround`: from the rest of `a` to all of `a`. */
  lemma SplitAroundStep(a: string, b: string, c: char)
    requires |a| >= 1
    requires Split(a[1..] + [c] + b, [c]) == Split(a[1..], [c]) + Split(b, [c])
    ensures Split(a + [c] + b, [c]) == Split(a, [c]) + Split(b, [c])
  {
    var s := a + [c] + b;
    assert s[0] == a[0];
    assert s[1..] == a[1..] + [c] + b;
    if a[0] == c {
      SplitMatchStep(s, c);
      SplitMatchStep(a, c);
      SeqAssoc([""], Split(a[1..], [c]), Split(b, [c]));
    } else {
      SplitStep(s, c);
      SplitStep(a, c);
      ConsPieceAppend(a[0], Split(a[1..], [c]), Split(b, [c]));
    }
  }

  /** Prepending a character to the first piece commutes with appending more pieces. */
  lemma ConsPieceAppend(h: char, ra: seq<string>, rb: seq<string>)
    requires |ra| >= 1
    ensures [[h] + (ra + rb)[0]] + (ra + rb)[1..] == ([[h] + ra[0]] + ra[1..]) + rb
  {
    assert (ra + rb)[0] == ra[0];
    assert (ra + rb)[1..] == ra[1..] + rb;
  }

  /** A string without the separator character is a single piece. */
  lemma {:induction false} SplitWithout(s: string, c: char)
    requires c !in s
    ensures Split(s, [c]) == [s]
    decreases |s|
  {
    if |s| >= 1 {
      assert s[0] != c;
      assert !StartsWith(s, [c]);
      SplitWithout(s[1..], c);
      assert [s[0]] + s[1..] == s;
    }
  }

  /** No piece of a split on one character contains that character. */
  lemma {:induction false} SplitPiecesWithout(s: string, c: char)
    ensures forall k :: 0 <= k < |Split(s, [c])| ==> c !in Split(s, [c])[k]
    decreases |s|
  {
    if |s| >= 1 {
      SplitPiecesWithout(s[1..], c);
      if s[0] != c {
        assert !StartsWith(s, [c]);
      }
    }
  }

  /** Splitting a join of separator-free pieces gives back the pieces. */
  lemma {:induction false} SplitJoin(pieces: seq<string>, c: char)
    requires |pieces| >= 1
    requires forall k :: 0 <= k < |pieces| ==> c !in pieces[k]
    ensures Split(Join(pieces, [c]), [c]) == pieces
    decreases |pieces|
  {
    if |pieces| == 1 {
      SplitWithout(pieces[0], c);
    } else {
      SplitJoin(pieces[1..], c);
      SplitAround(pieces[0], Join(pieces[1..], [c]), c);
      SplitWithout(pieces[0], c);
      assert [pieces[0]] + pieces[1..] == pieces;
    }
  }

  /** A split has more than one piece exactly when the separator occurs. */
  lemma {:induction false} SplitCutsIffOccurs(s: string, sep: string)
    requires |sep| > 0
    ensures |Split(s, sep)| >= 2 <==> IsInfix(sep, s)
    decreases |s|
  {
    if |s| < |sep| {
      ShortHasNoInfix(sep, s);
    } else if StartsWith(s, sep) {
    } else {
      SplitCutsIffOccurs(s[1..], sep);
    }
  }

  /** Replacing the last `/`-piece by a piece without `/` keeps the other
      pieces and their number, and puts the new piece last. */
  lemma ReplaceLastPieces(url: string, piece: string)
    requires '/' !in piece
    ensures var parts := Split(url, "/");
            Split(ReplaceLast(url, piece), "/") == parts[..|parts| - 1] + [piece]
  {
    var parts := Split(url, "/");
    var replaced := parts[..|parts| - 1] + [piece];
    SplitPiecesWithout(url, '/');
    assert forall k :: 0 <= k < |replaced| ==> '/' !in replaced[k] by {
      forall k | 0 <= k < |replaced|
        ensures '/' !in replaced[k]
      {
        if k < |parts| - 1 {
          assert replaced[k] == parts[k];
        }
      }
    }
    SplitJoin(replaced, '/');
  }

  /** Putting the last `/`-piece back in its own place changes nothing. */
  lemma ReplaceLastSame(url: string)
    ensures ReplaceLast(url, Last(Split(url, "/"))) == url
  {
    var parts := Split(url, "/");
    assert parts[..|parts| - 1] + [Last(parts)] == parts;
    JoinSplit(url, "/");
  }

  /** The last `.`-piece of `a + "." + b`, for `b` without a dot, is `b`. */
  lemma LastPieceAfterDot(a: string, b: string)
    requires '.' !in b
    ensures Last(Split(a + "." + b, ".")) == b
  {
    SplitAround(a, b, '.');
    SplitWithout(b, '.');
  }

  /** A string in which the separator does not occur is a single piece. */
  lemma SplitWithoutSeparator(s: string, sep: string)
    requires |sep| > 0 && !IsInfix(sep, s)
    ensures Split(s, sep) == [s]
  {
    SplitCutsIffOccurs(s, sep);
    JoinSplit(s, sep);
  }

  /** The first piece of a split ends at the first occurrence of the
      separator: when `sep` occurs nowhere in `a` nor straddles the end of
      `a`, splitting `a + sep + b` gives `a` followed by the pieces of `b`. */
  lemma {:induction false} SplitFirstOccurrence(a: string, b: string, sep: string)
    requires |sep| > 0 && !IsInfix(sep, a + sep[..|sep| - 1])
    ensures Split(a + sep + b, sep) == [a] + Split(b, sep)
    decreases |a|
  {
    var s := a + sep + b;
    var t := a + sep[..|sep| - 1];
    if |a| == 0 {
      assert s[..|sep|] == sep && s[|sep|..] == b;
    } else {
      assert !StartsWith(s, sep) by {
        assert s[..|sep|] == t[..|sep|];
      }
      assert t[1..] == a[1..] + sep[..|sep| - 1];
      assert s[1..] == a[1..] + sep + b;
      SplitFirstOccurrence(a[1..], b, sep);
      assert [a[0]] + a[1..] == a;
    }
  }
}
