/**
 * The parts of `pathlib.PurePosixPath` the programs rely on: `parts`, `name`
 * and `suffix` of a slash-separated path string.
 */
module Paths {
  import opened Text

  /** The longest prefix without a slash. */
  function Segment(p: string): (w: string)
    ensures |w| <= |p| && w == p[..|w|]
    ensures '/' !in w
    ensures |w| < |p| ==> p[|w|] == '/'
  {
    if p == [] || p[0] == '/' then [] else [p[0]] + Segment(p[1..])
  }

  /**
   * The components between slashes; empty components (repeated slashes)
   * and `.` components are dropped, as `PurePosixPath` does.
   */
  function Components(p: string): seq<string>
    decreases |p|
  {
    if p == [] then []
    else if p[0] == '/' then Components(p[1..])
    else
      var w := Segment(p);
      (if w == "." then [] else [w]) + Components(p[|w|..])
  }

  /** Components are non-empty, never `.`, and free of slashes. */
  lemma {:induction false} ComponentsShape(p: string)
    ensures forall c :: c in Components(p) ==> c != [] && c != "." && '/' !in c
    decreases |p|
  {
    if p != [] {
      if p[0] == '/' {
        ComponentsShape(p[1..]);
      } else {
        var w := Segment(p);
        ComponentsShape(p[|w|..]);
      }
    }
  }

  /** The first segment of `p + "/" + q` is the first segment of `p`. */
  lemma {:induction false} SegmentAppend(p: string, q: string)
    ensures Segment(p + "/" + q) == Segment(p)
  {
    if p != [] && p[0] != '/' {
      assert (p + "/" + q)[1..] == p[1..] + "/" + q;
      SegmentAppend(p[1..], q);
    }
  }

  /** Joining two paths with a slash joins their components. */
  lemma {:induction false} ComponentsAppend(p: string, q: string)
    ensures Components(p + "/" + q) == Components(p) + Components(q)
    decreases |p|
  {
    var pq := p + "/" + q;
    if p == [] {
      assert pq[1..] == q;
    } else if p[0] == '/' {
      assert pq[1..] == p[1..] + "/" + q;
      ComponentsAppend(p[1..], q);
    } else {
      var w := Segment(p);
      SegmentAppend(p, q);
      assert pq[|w|..] == p[|w|..] + "/" + q;
      ComponentsAppend(p[|w|..], q);
    }
  }

  /** `Path(p).parts`: the root `/` of an absolute path, then its components. */
  function Parts(p: string): (r: seq<string>)
    ensures |p| > 0 && p[0] == '/' ==> |r| > 0 && r[0] == "/"
  {
    (if p != [] && p[0] == '/' then ["/"] else []) + Components(p)
  }

  /**
   * `Path(p).name`: the last component, or "" when there is none. Trailing
   * slashes and trailing `.` components are passed over, as
   * `PurePosixPath` drops them.
   */
  function Name(p: string): (r: string)
    ensures '/' !in r
    decreases |p|
  {
    if p == [] then []
    else if p[|p| - 1] == '/' then Name(p[..|p| - 1])
    else
      var i := LastIndex(p, '/');
      var last := p[i + 1..];
      if last == "." then Name(p[..i + 1]) else last
  }

  /** The index of the last `c` in `s`, or -1. */
  function LastIndex(s: string, c: char): (i: int)
    ensures -1 <= i < |s|
    ensures 0 <= i ==> s[i] == c
    ensures forall j :: i < j < |s| ==> s[j] != c
  {
    if s == [] then -1
    else if s[|s| - 1] == c then |s| - 1
    else LastIndex(s[..|s| - 1], c)
  }

  /**
   * `Path(name).suffix`: from the last dot to the end, provided that dot is
   * neither the first nor the last character; otherwise "".
   */
  function Suffix(name: string): (r: string)
    ensures r != [] ==> 2 <= |r| < |name| && r == name[|name| - |r|..] && r[0] == '.'
    ensures forall j :: 1 <= j < |r| ==> r[j] != '.'
  {
    var i := LastIndex(name, '.');
    if 0 < i < |name| - 1 then name[i..] else []
  }

  /** Two names that differ only in letter case have the same last dot. */
  lemma {:induction false} LastIndexLower(a: string, b: string)
    requires Lower(a) == Lower(b)
    ensures LastIndex(a, '.') == LastIndex(b, '.')
    decreases |a|
  {
    assert |a| == |Lower(a)| == |b|;
    if a != [] {
      var n := |a| - 1;
      assert LowerChar(a[n]) == LowerChar(b[n]);
      assert a[n] == '.' <==> b[n] == '.';
      if a[n] != '.' {
        assert Lower(a[..n]) == Lower(b[..n]) by {
          forall k | 0 <= k < n ensures Lower(a[..n])[k] == Lower(b[..n])[k] {
            assert Lower(a)[k] == Lower(b)[k];
          }
        }
        LastIndexLower(a[..n], b[..n]);
      }
    }
  }

  lemma LowerDrop(s: string, i: nat)
    requires i <= |s|
    ensures Lower(s[i..]) == Lower(s)[i..]
  {
  }

  /** Suffix tests that compare `suffix.lower()` do not depend on letter case. */
  lemma SuffixLower(a: string, b: string)
    requires Lower(a) == Lower(b)
    ensures Lower(Suffix(a)) == Lower(Suffix(b))
  {
    LastIndexLower(a, b);
    var i := LastIndex(a, '.');
    assert |a| == |Lower(a)| == |b|;
    if 0 < i < |a| - 1 {
      assert Suffix(a) == a[i..] && Suffix(b) == b[i..];
      LowerDrop(a, i);
      LowerDrop(b, i);
      calc {
        Lower(Suffix(a));
        Lower(a)[i..];
        Lower(b)[i..];
        Lower(Suffix(b));
      }
    } else {
      assert Suffix(a) == [] && Suffix(b) == [];
    }
  }
}
