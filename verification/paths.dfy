/** String building blocks of the mirror: joining path and URL segments,
    turning a dotted group name into a URL path, and splitting the
    comma-separated version list of a group catalog entry. */
module Paths {

  /** One more segment on a local path or a URL, separated by '/'. */
  function Join(base: string, name: string): string {
    base + "/" + name
  }

  /** The group name as a URL path: every '.' becomes '/', every other
      character is kept in place. */
  function ReplaceDots(s: string): (r: string)
    ensures |r| == |s|
    ensures forall i :: 0 <= i < |s| ==> r[i] == (if s[i] == '.' then '/' else s[i])
  {
    if |s| == 0 then "" else [if s[0] == '.' then '/' else s[0]] + ReplaceDots(s[1..])
  }

  /** Distinct group names without '/' (which a catalog element name
      cannot hold) never share a remote directory. */
  lemma ReplaceDotsInjective(a: string, b: string)
    requires '/' !in a && '/' !in b
    requires ReplaceDots(a) == ReplaceDots(b)
    ensures a == b
  {
    assert |a| == |b|;
    forall i | 0 <= i < |a|
      ensures a[i] == b[i]
    {
      assert ReplaceDots(a)[i] == ReplaceDots(b)[i];
      assert a[i] != '/' && b[i] != '/';
    }
  }

  /** Number of occurrences of `c` in `s`. */
  function Count(s: string, c: char): nat {
    if |s| == 0 then 0 else (if s[0] == c then 1 else 0) + Count(s[1..], c)
  }

  /** `String.prototype.split` with a one-character separator: every
      occurrence of the separator cuts, empty segments are kept and nothing
      is trimmed, so the empty string yields one empty segment. */
  function Split(s: string, sep: char): (r: seq<string>)
    ensures |r| == Count(s, sep) + 1
    ensures forall k :: 0 <= k < |r| ==> sep !in r[k]
  {
    if |s| == 0 then [""]
    else
      var rest := Split(s[1..], sep);
      if s[0] == sep then [""] + rest
      else [[s[0]] + rest[0]] + rest[1..]
  }

  /** The segments put back together with the separator between them. */
  function JoinWith(segs: seq<string>, sep: char): string
    requires |segs| > 0
  {
    if |segs| == 1 then segs[0] else segs[0] + [sep] + JoinWith(segs[1..], sep)
  }

  /** Splitting loses nothing: joining the segments gives back the string. */
  lemma {:induction false} JoinSplit(s: string, sep: char)
    ensures JoinWith(Split(s, sep), sep) == s
    decreases |s|
  {
    if |s| > 0 {
      var rest := Split(s[1..], sep);
      JoinSplit(s[1..], sep);
      if s[0] == sep {
        assert Split(s, sep) == [""] + rest;
        assert ([""] + rest)[1..] == rest;
      } else {
        var segs := [[s[0]] + rest[0]] + rest[1..];
        assert Split(s, sep) == segs;
        if |rest| > 1 {
          assert segs[1..] == rest[1..];
          assert JoinWith(rest, sep) == rest[0] + [sep] + JoinWith(rest[1..], sep);
        }
      }
    }
  }

  /** Splitting a segment free of the separator yields that segment alone. */
  lemma {:induction false} SplitPlain(x: string, sep: char)
    requires sep !in x
    ensures Split(x, sep) == [x]
    decreases |x|
  {
    if |x| > 0 {
      assert x[0] != sep;
      assert sep !in x[1..];
      SplitPlain(x[1..], sep);
      assert [x[0]] + x[1..] == x;
    }
  }

  /** A separator after a plain segment closes exactly that segment. */
  lemma {:induction false} SplitCut(x: string, sep: char, y: string)
    requires sep !in x
    ensures Split(x + [sep] + y, sep) == [x] + Split(y, sep)
    decreases |x|
  {
    if |x| == 0 {
      assert x + [sep] + y == [sep] + y;
      assert ([sep] + y)[1..] == y;
    } else {
      var s := x + [sep] + y;
      assert s[0] == x[0] && x[0] != sep;
      assert s[1..] == x[1..] + [sep] + y;
      assert sep !in x[1..];
      SplitCut(x[1..], sep, y);
      assert [x[0]] + x[1..] == x;
    }
  }

  /** The other direction: segments free of the separator come back
      unchanged, in order, empty ones included. */
  lemma {:induction false} SplitJoin(segs: seq<string>, sep: char)
    requires |segs| > 0
    requires forall k :: 0 <= k < |segs| ==> sep !in segs[k]
    ensures Split(JoinWith(segs, sep), sep) == segs
    decreases |segs|
  {
    if |segs| == 1 {
      SplitPlain(segs[0], sep);
    } else {
      SplitJoin(segs[1..], sep);
      SplitCut(segs[0], sep, JoinWith(segs[1..], sep));
      assert [segs[0]] + segs[1..] == segs;
    }
  }

  /** The version field "1.0.0,1.1.0,2.0.0-beta" yields those three
      versions, in that order. */
  lemma SplitExample()
    ensures Split("1.0.0,1.1.0,2.0.0-beta", ',') == ["1.0.0", "1.1.0", "2.0.0-beta"]
  {
    var segs := ["1.0.0", "1.1.0", "2.0.0-beta"];
    assert JoinWith(segs, ',') == "1.0.0,1.1.0,2.0.0-beta";
    SplitJoin(segs, ',');
  }

  /** Empty segments are kept: an empty version field yields one empty
      version, and a doubled comma yields an empty version between its
      neighbours. */
  lemma SplitKeepsEmpty()
    ensures Split("", ',') == [""]
    ensures Split("1.0,,2.0", ',') == ["1.0", "", "2.0"]
  {
    var segs := ["1.0", "", "2.0"];
    assert JoinWith(segs, ',') == "1.0,,2.0";
    SplitJoin(segs, ',');
  }
}
