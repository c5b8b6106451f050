/**
  Paths as the bot handles them (`std::path::Path` and utils/path.rs).

  A path is modelled by what `Path::components()` yields: whether it starts
  at the root, then its normal components ("segments"). The textual form is
  connected to this structure by `Parse` and `Render`, which round-trip.
 */
module Paths {
  import opened Outcome

  const Separator: char := '/'

  /** A normal path component: non-empty and free of separators. */
  predicate IsSegment(s: string) {
    |s| > 0 && Separator !in s
  }

  datatype Path = Path(rooted: bool, segments: seq<string>)

  predicate WellFormed(p: Path) {
    forall i :: 0 <= i < |p.segments| ==> IsSegment(p.segments[i])
  }

  /** `root_path()`, the path "/". */
  const Root: Path := Path(true, [])

  /**
    utils/path.rs `is_absolute`: the path's text starts with a separator.
    `None` stands for a path that is not valid UTF-8, which is read as "".
   */
  function IsAbsolute(text: Option<string>): (r: bool)
    ensures r <==> text.Some? && |text.value| > 0 && text.value[0] == Separator
    ensures text.None? ==> !r
  {
    var s := text.GetOr("");
    |s| > 0 && s[0] == Separator
  }

  lemma IsAbsoluteExamples()
    ensures IsAbsolute(Some("/"))
    ensures IsAbsolute(Some("/Documents"))
    ensures IsAbsolute(Some("/Documents/file.txt"))
    ensures !IsAbsolute(Some("Documents"))
    ensures !IsAbsolute(Some("Documents/"))
    ensures !IsAbsolute(Some("Documents/file.txt"))
  {
  }

  /** Index of the first separator of `s`, or `|s|` when there is none. */
  function SeparatorIndex(s: string): (k: nat)
    ensures k <= |s|
    ensures forall i :: 0 <= i < k ==> s[i] != Separator
    ensures k < |s| ==> s[k] == Separator
  {
    if |s| == 0 || s[0] == Separator then 0 else 1 + SeparatorIndex(s[1..])
  }

  /** The normal components of a path's text: the pieces between separators, empty pieces dropped. */
  function Split(s: string): (r: seq<string>)
    ensures forall i :: 0 <= i < |r| ==> IsSegment(r[i])
    decreases |s|
  {
    if |s| == 0 then []
    else if s[0] == Separator then Split(s[1..])
    else
      var k := SeparatorIndex(s);
      assert s[..k] == [s[0]] + s[1..k];
      [s[..k]] + Split(s[k..])
  }

  /** Segments separated by single separators. */
  function JoinSegments(segments: seq<string>): string
  {
    if |segments| == 0 then ""
    else if |segments| == 1 then segments[0]
    else segments[0] + [Separator] + JoinSegments(segments[1..])
  }

  /** The text of a path, as `Path::display` shows it. */
  function Render(p: Path): string {
    (if p.rooted then [Separator] else "") + JoinSegments(p.segments)
  }

  /** `PathBuf::from(text)` seen through `components()`. */
  function Parse(text: string): (r: Path)
    ensures WellFormed(r)
    ensures r.rooted == IsAbsolute(Some(text))
  {
    Path(IsAbsolute(Some(text)), Split(text))
  }

  lemma {:induction false} SplitAfterSegment(a: string, rest: string)
    requires IsSegment(a)
    requires |rest| == 0 || rest[0] == Separator
    ensures Split(a + rest) == [a] + Split(rest)
  {
    var s := a + rest;
    assert s[0] == a[0];
    var k := SeparatorIndex(s);
    assert forall i :: 0 <= i < |a| ==> s[i] == a[i] && a[i] != Separator;
    assert |rest| > 0 ==> s[|a|] == rest[0];
    assert k >= |a|;
    assert k <= |a|;
    assert s[..k] == a && s[k..] == rest;
  }

  lemma {:induction false} SplitJoinSegments(segments: seq<string>)
    requires forall i :: 0 <= i < |segments| ==> IsSegment(segments[i])
    ensures Split(JoinSegments(segments)) == segments
    decreases |segments|
  {
    if |segments| == 1 {
      SplitAfterSegment(segments[0], "");
      assert segments[0] + "" == segments[0];
    } else if |segments| > 1 {
      var rest := JoinSegments(segments[1..]);
      assert segments[0] + [Separator] + rest == segments[0] + ([Separator] + rest);
      SplitAfterSegment(segments[0], [Separator] + rest);
      assert ([Separator] + rest)[1..] == rest;
      SplitJoinSegments(segments[1..]);
      assert segments == [segments[0]] + segments[1..];
    }
  }

  /** Text of a relative path never starts with a separator. */
  lemma JoinSegmentsStart(segments: seq<string>)
    requires forall i :: 0 <= i < |segments| ==> IsSegment(segments[i])
    requires |segments| > 0
    ensures |JoinSegments(segments)| > 0
    ensures JoinSegments(segments)[0] != Separator
  {
    assert IsSegment(segments[0]);
    assert segments[0][0] in segments[0];
  }

  /** Rendering a well-formed path and parsing the text gives the path back. */
  lemma ParseRender(p: Path)
    requires WellFormed(p)
    ensures Parse(Render(p)) == p
  {
    var body := JoinSegments(p.segments);
    SplitJoinSegments(p.segments);
    if p.rooted {
      assert Render(p) == [Separator] + body;
      assert Render(p)[1..] == body;
    } else {
      assert Render(p) == body;
      if |p.segments| > 0 {
        JoinSegmentsStart(p.segments);
      }
    }
  }

  /** The textual check of utils/path.rs agrees with the structure `components()` reports. */
  lemma IsAbsoluteRender(p: Path)
    requires WellFormed(p)
    ensures IsAbsolute(Some(Render(p))) == p.rooted
  {
    ParseRender(p);
  }

  /** `PathBuf::join`: an absolute argument replaces the base, otherwise its components are appended. */
  function Join(base: Path, text: string): (r: Path)
    ensures IsAbsolute(Some(text)) ==> r == Parse(text)
    ensures !IsAbsolute(Some(text)) ==> r.rooted == base.rooted && r.segments == base.segments + Parse(text).segments
  {
    if IsAbsolute(Some(text)) then Parse(text)
    else Path(base.rooted, base.segments + Split(text))
  }

  /** Joining a single segment appends it. */
  lemma JoinSegment(base: Path, name: string)
    requires IsSegment(name)
    ensures Join(base, name) == Path(base.rooted, base.segments + [name])
  {
    assert name[0] in name;
    SplitAfterSegment(name, "");
    assert name + "" == name;
  }

  /** `Path::parent`: `None` exactly when there is no component to drop. */
  function Parent(p: Path): (r: Option<Path>)
    ensures r.None? <==> |p.segments| == 0
    ensures r.Some? ==> r.value.rooted == p.rooted && |r.value.segments| == |p.segments| - 1
    ensures r.Some? ==> r.value.segments == p.segments[..|r.value.segments|]
  {
    if |p.segments| == 0 then None
    else Some(Path(p.rooted, p.segments[..|p.segments| - 1]))
  }

  /** `Path::file_name`: the last component, if any. */
  function FileName(p: Path): (r: Option<string>)
    ensures r.None? <==> |p.segments| == 0
    ensures r.Some? ==> r.value in p.segments && r.value == p.segments[|p.segments| - 1]
  {
    if |p.segments| == 0 then None
    else Some(p.segments[|p.segments| - 1])
  }

  /** Parent and file name split a path, and undo a join of one segment. */
  lemma ParentFileNameOfJoin(base: Path, name: string)
    requires IsSegment(name)
    ensures Parent(Join(base, name)) == Some(base)
    ensures FileName(Join(base, name)) == Some(name)
  {
    JoinSegment(base, name);
    assert (base.segments + [name])[..|base.segments|] == base.segments;
  }

  lemma {:induction false} ParentJoinFileName(p: Path)
    requires |p.segments| > 0
    ensures Parent(p).Some? && FileName(p).Some?
    ensures Path(p.rooted, Parent(p).value.segments + [FileName(p).value]) == p
  {
    var n := |p.segments|;
    assert p.segments[..n - 1] + [p.segments[n - 1]] == p.segments;
  }

  /**
    `components().skip(1)`: for an absolute path the root component is
    skipped; for a relative one it is the first normal component.
   */
  function ComponentsAfterFirst(p: Path): (r: seq<string>)
    ensures p.rooted ==> r == p.segments
    ensures !p.rooted && |p.segments| > 0 ==> [p.segments[0]] + r == p.segments
    ensures !p.rooted && |p.segments| == 0 ==> r == []
  {
    if p.rooted then p.segments
    else if |p.segments| == 0 then []
    else p.segments[1..]
  }

  /** The two segment sequences part ways: neither is a prefix of the other. */
  predicate Diverge(a: seq<string>, b: seq<string>)
    decreases |a|
  {
    |a| > 0 && |b| > 0 && (a[0] != b[0] || Diverge(a[1..], b[1..]))
  }
}
