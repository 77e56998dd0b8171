/**
 * The path built by `View.route(...)`: its arguments joined with '/'
 * (`blocks.toArray(arguments).join('/')`), and the splitting of such a path
 * back into its segments.
 */
module Routing {

  /** `segments.join('/')`: no separator before the first segment or after the last. */
  function Join(segments: seq<string>): (r: string)
    ensures |segments| == 0 ==> r == ""
    ensures |segments| > 0 ==> segments[0] <= r
    ensures |segments| > 1 ==> |segments[0]| < |r| && r[|segments[0]|] == '/'
  {
    if |segments| == 0 then ""
    else if |segments| == 1 then segments[0]
    else segments[0] + "/" + Join(segments[1..])
  }

  /** A path cut at every '/'; always at least one (possibly empty) segment. */
  function Split(path: string): (r: seq<string>)
    ensures |r| >= 1
    ensures forall i :: 0 <= i < |r| ==> '/' !in r[i]
  {
    if |path| == 0 then [""]
    else
      var rest := Split(path[1..]);
      if path[0] == '/' then [""] + rest
      else [[path[0]] + rest[0]] + rest[1..]
  }

  /** A segment is a single path component. */
  predicate IsSegment(s: string) {
    '/' !in s
  }

  /** Joining the pieces of any path gives the path back. */
  lemma {:induction false} JoinSplit(path: string)
    ensures Join(Split(path)) == path
  {
    if |path| > 0 {
      var rest := Split(path[1..]);
      JoinSplit(path[1..]);
      if path[0] != '/' && |rest| > 1 {
        assert Join(rest) == rest[0] + "/" + Join(rest[1..]);
        assert [path[0]] + rest[0] + "/" + Join(rest[1..]) == [path[0]] + Join(rest);
      }
      assert path == [path[0]] + path[1..];
    }
  }

  lemma {:induction false} SplitSegment(s: string)
    requires IsSegment(s)
    ensures Split(s) == [s]
  {
    if |s| > 0 {
      SplitSegment(s[1..]);
      assert s == [s[0]] + s[1..];
    }
  }

  lemma {:induction false} SplitAfterSegment(s: string, tail: string)
    requires IsSegment(s)
    ensures Split(s + "/" + tail) == [s] + Split(tail)
  {
    var p := s + "/" + tail;
    if |s| > 0 {
      assert p[1..] == s[1..] + "/" + tail;
      SplitAfterSegment(s[1..], tail);
      assert s == [s[0]] + s[1..];
    } else {
      assert p[1..] == tail;
    }
  }

  /** A non-empty list of segments is recovered from the path it joins to. */
  lemma {:induction false} SplitJoin(segments: seq<string>)
    requires |segments| >= 1
    requires forall i :: 0 <= i < |segments| ==> IsSegment(segments[i])
    ensures Split(Join(segments)) == segments
  {
    if |segments| == 1 {
      SplitSegment(segments[0]);
    } else {
      SplitJoin(segments[1..]);
      SplitAfterSegment(segments[0], Join(segments[1..]));
      assert segments == [segments[0]] + segments[1..];
    }
  }
}
