/** What a client makes of a location it follows: it requests the path before the query and the fragment,
    with its dot segments removed (sections 5.2.2 and 5.2.4 of RFC 3986). */
module ClientPaths {

  // ----- Query and fragment -----

  predicate EndsPath(c: char) { c == '?' || c == '#' }

  predicate IsPlain(s: string) { forall c | c in s :: !EndsPath(c) }

  /** What precedes the query and the fragment. */
  function Cut(location: string): string {
    if location == "" || EndsPath(location[0]) then "" else [location[0]] + Cut(location[1..])
  }

  lemma {:induction false} CutMeans(location: string)
    ensures Cut(location) <= location && IsPlain(Cut(location))
    ensures Cut(location) != location ==> EndsPath(location[|Cut(location)|])
    ensures IsPlain(location) <==> Cut(location) == location
  {
    if location == "" {
    } else {
      CutMeans(location[1..]);
      assert forall c :: c in location <==> c == location[0] || c in location[1..];
    }
  }

  lemma {:induction false} CutSum(a: string, b: string)
    ensures Cut(a + b) == if IsPlain(a) then a + Cut(b) else Cut(a)
  {
    if a == "" {
      assert a + b == b;
    } else {
      assert (a + b)[1..] == a[1..] + b;
      CutSum(a[1..], b);
      assert forall c :: c in a <==> c == a[0] || c in a[1..];
    }
  }

  lemma PlainSum(a: string, b: string)
    ensures IsPlain(a + b) <==> IsPlain(a) && IsPlain(b)
  {
    assert forall c :: c in a + b <==> c in a || c in b;
  }

  // ----- Segments -----

  predicate IsRooted(s: string) { s == "" || s[0] == '/' }

  predicate AreSegments(segments: seq<string>) { forall s | s in segments :: '/' !in s }

  /** Where the segment at `k` ends. */
  function SegmentEnd(s: string, k: nat): (end: nat)
    requires k <= |s|
    ensures k <= end <= |s| && '/' !in s[k..end] && (end == |s| || s[end] == '/')
    decreases |s| - k
  {
    if k == |s| || s[k] == '/' then k
    else
      var end := SegmentEnd(s, k + 1);
      assert s[k..end] == [s[k]] + s[k + 1..end];
      end
  }

  /** The segments of a path, each after a slash. */
  function Segments(s: string): seq<string>
    requires IsRooted(s)
    decreases |s|
  {
    if s == "" then [] else var end := SegmentEnd(s, 1); [s[1..end]] + Segments(s[end..])
  }

  function Path(segments: seq<string>): string {
    if segments == [] then "" else "/" + segments[0] + Path(segments[1..])
  }

  lemma OneMoreSegment(s: string)
    requires s != "" && s[0] == '/'
    ensures var end := SegmentEnd(s, 1);
            && IsRooted(s[end..]) && |s[end..]| < |s| && '/' !in s[1..end] && s == "/" + s[1..end] + s[end..]
            && Segments(s) == [s[1..end]] + Segments(s[end..])
  {
    ThreeParts(s, SegmentEnd(s, 1));
  }

  lemma ThreeParts(s: string, end: nat)
    requires 1 <= end <= |s| && s[0] == '/'
    ensures s == "/" + s[1..end] + s[end..]
  {
  }

  lemma {:induction false} PathOfSegments(s: string)
    requires IsRooted(s)
    ensures Path(Segments(s)) == s && AreSegments(Segments(s))
    decreases |s|
  {
    if s == "" {
    } else {
      OneMoreSegment(s);
      PathOfSegments(s[SegmentEnd(s, 1)..]);
      assert Segments(s)[1..] == Segments(s[SegmentEnd(s, 1)..]);
    }
  }

  lemma {:induction false} EndIsFirstSlash(s: string, k: nat, end: nat)
    requires k <= end <= |s| && '/' !in s[k..end] && (end == |s| || s[end] == '/')
    ensures SegmentEnd(s, k) == end
    decreases end - k
  {
    if k == end {
    } else {
      assert s[k..end][0] == s[k] && s[k + 1..end] == s[k..end][1..];
      EndIsFirstSlash(s, k + 1, end);
    }
  }

  lemma EndOfFirst(first: string, rest: string)
    requires '/' !in first && IsRooted(rest)
    ensures SegmentEnd("/" + first + rest, 1) == 1 + |first|
  {
    var s := "/" + first + rest;
    assert s[1..1 + |first|] == first;
    EndIsFirstSlash(s, 1, 1 + |first|);
  }

  lemma {:induction false} SegmentsOfPath(segments: seq<string>)
    requires AreSegments(segments)
    ensures IsRooted(Path(segments)) && Segments(Path(segments)) == segments
  {
    if segments == [] {
    } else {
      SegmentsOfPath(segments[1..]);
      var s, rest := Path(segments), Path(segments[1..]);
      EndOfFirst(segments[0], rest);
      assert s[1..1 + |segments[0]|] == segments[0] && s[1 + |segments[0]|..] == rest;
    }
  }

  lemma {:induction false} PathAppend(a: seq<string>, b: seq<string>)
    ensures Path(a + b) == Path(a) + Path(b)
  {
    if a == [] {
      assert a + b == b;
    } else {
      assert (a + b)[1..] == a[1..] + b;
      PathAppend(a[1..], b);
    }
  }

  lemma SegmentsAppend(a: string, b: string)
    requires IsRooted(a) && IsRooted(b)
    ensures IsRooted(a + b) && Segments(a + b) == Segments(a) + Segments(b)
  {
    PathOfSegments(a);
    PathOfSegments(b);
    PathAppend(Segments(a), Segments(b));
    SegmentsOfPath(Segments(a) + Segments(b));
  }

  // ----- Dot segments -----

  predicate IsDot(segment: string) { segment == "." || segment == ".." }

  predicate Dotless(segments: seq<string>) { forall s | s in segments :: !IsDot(s) }

  /** Appends `segments` to `out`, where `.` adds nothing and `..` takes the last segment back. */
  function Resolve(segments: seq<string>, out: seq<string>): seq<string> {
    if segments == [] then out
    else if segments[0] == "." then Resolve(segments[1..], out)
    else if segments[0] == ".." then Resolve(segments[1..], if out == [] then [] else out[..|out| - 1])
    else Resolve(segments[1..], out + [segments[0]])
  }

  /** Removing the dot segments: a path that ends in one keeps its last slash. */
  function RemoveDots(s: string): string
    requires IsRooted(s)
  {
    var segments := Segments(s);
    Path(Resolve(segments, []) + if segments != [] && IsDot(segments[|segments| - 1]) then [""] else [])
  }

  /** What remains of a path that others follow. */
  function Resolved(s: string): string
    requires IsRooted(s)
  {
    Path(Resolve(Segments(s), []))
  }

  lemma {:induction false} ResolveAppend(a: seq<string>, b: seq<string>, out: seq<string>)
    ensures Resolve(a + b, out) == Resolve(b, Resolve(a, out))
    decreases a
  {
    if a == [] {
      assert a + b == b;
    } else {
      assert (a + b)[1..] == a[1..] + b;
      var next := if a[0] == "." then out
                  else if a[0] == ".." then (if out == [] then [] else out[..|out| - 1])
                  else out + [a[0]];
      ResolveAppend(a[1..], b, next);
    }
  }

  lemma {:induction false} ResolveDotless(segments: seq<string>, out: seq<string>)
    requires Dotless(segments)
    ensures Resolve(segments, out) == out + segments
    decreases segments
  {
    if segments == [] {
    } else {
      assert !IsDot(segments[0]);
      ResolveDotless(segments[1..], out + [segments[0]]);
    }
  }

  /** What is left has no dot segment, and is made of what was there. */
  lemma {:induction false} ResolveLeaves(segments: seq<string>, out: seq<string>)
    requires Dotless(out)
    ensures Dotless(Resolve(segments, out))
    ensures forall s | s in Resolve(segments, out) :: s in segments || s in out
    decreases segments
  {
    if segments == [] {
    } else if segments[0] == "." {
      ResolveLeaves(segments[1..], out);
    } else if segments[0] == ".." {
      ResolveLeaves(segments[1..], if out == [] then [] else out[..|out| - 1]);
    } else {
      ResolveLeaves(segments[1..], out + [segments[0]]);
    }
  }

  lemma {:induction false} PathIsPlainIff(segments: seq<string>)
    ensures IsPlain(Path(segments)) <==> forall s | s in segments :: IsPlain(s)
  {
    if segments == [] {
    } else {
      PathIsPlainIff(segments[1..]);
      PlainSum("/" + segments[0], Path(segments[1..]));
      PlainSum("/", segments[0]);
      assert forall s :: s in segments <==> s == segments[0] || s in segments[1..];
    }
  }

  // ----- What is requested -----

  /** A path that a client requests as it stands. */
  predicate IsClean(s: string) { IsRooted(s) && IsPlain(s) && Dotless(Segments(s)) }

  /** The path that a client requests. */
  function Requested(location: string): string {
    if IsRooted(Cut(location)) then RemoveDots(Cut(location)) else Cut(location)
  }

  lemma CleanSum(a: string, b: string)
    requires IsRooted(a) && IsRooted(b)
    ensures IsClean(a + b) <==> IsClean(a) && IsClean(b)
  {
    PlainSum(a, b);
    SegmentsAppend(a, b);
    assert forall s :: s in Segments(a) + Segments(b) <==> s in Segments(a) || s in Segments(b);
  }

  lemma {:induction false} ResolveEnds(segments: seq<string>, out: seq<string>)
    requires segments != [] && !IsDot(segments[|segments| - 1])
    ensures Resolve(segments, out) != []
  {
    var front, last := segments[..|segments| - 1], segments[|segments| - 1];
    assert segments == front + [last];
    ResolveAppend(front, [last], out);
    assert [last][1..] == [];
  }

  lemma RemoveDotsIsClean(s: string)
    requires s != "" && IsRooted(s) && IsPlain(s)
    ensures RemoveDots(s) != "" && IsClean(RemoveDots(s))
  {
    var segments := Segments(s);
    var kept := Resolve(segments, []) + if segments != [] && IsDot(segments[|segments| - 1]) then [""] else [];
    PathOfSegments(s);
    PathIsPlainIff(segments);
    ResolveLeaves(segments, []);
    if !IsDot(segments[|segments| - 1]) { ResolveEnds(segments, []); }
    SegmentsOfPath(kept);
    PathIsPlainIff(kept);
  }

  /** A client always requests a clean path. */
  lemma RequestedIsClean(location: string)
    requires location != "" && location[0] == '/'
    ensures Requested(location) != "" && IsClean(Requested(location))
  {
    CutMeans(location);
    RemoveDotsIsClean(Cut(location));
  }

  lemma CleanIsResolved(s: string)
    requires IsClean(s)
    ensures Resolved(s) == s
  {
    ResolveDotless(Segments(s), []);
    assert [] + Segments(s) == Segments(s);
    PathOfSegments(s);
  }

  /** What is clean and follows something else is requested as it stands, after what remains of the
      rest. */
  lemma RequestedBelow(a: string, b: string)
    requires IsRooted(a) && IsPlain(a) && b != "" && IsClean(b)
    ensures Requested(a + b) == Resolved(a) + b
  {
    PlainSum(a, b);
    CutMeans(a + b);
    SegmentsAppend(a, b);
    PathOfSegments(b);
    RemoveDotsBelow(a + b, Segments(a), Segments(b));
  }

  lemma RemoveDotsBelow(s: string, above: seq<string>, below: seq<string>)
    requires IsRooted(s) && Segments(s) == above + below && below != [] && Dotless(below)
    ensures RemoveDots(s) == Path(Resolve(above, [])) + Path(below)
  {
    ResolveAppend(above, below, []);
    ResolveDotless(below, Resolve(above, []));
    PathAppend(Resolve(above, []), below);
    assert Segments(s)[|Segments(s)| - 1] == below[|below| - 1];
    assert !IsDot(below[|below| - 1]);
    assert Resolve(Segments(s), []) + [] == Resolve(Segments(s), []);
  }

  /** Nothing that follows a query or a fragment is requested. */
  lemma RequestedOfCut(a: string, b: string)
    requires !IsPlain(a)
    ensures Requested(a + b) == Requested(a)
  {
    CutSum(a, b);
  }
}
