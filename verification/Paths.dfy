/** Scope paths: the string form against lists of segments. */
module Paths {

  /** What `str.strip` strips. */
  predicate IsSpace(c: char) {
    var n := c as int;
    || 9 <= n <= 13 || 28 <= n <= 32 || n == 133 || n == 160 || n == 0x1680 || 0x2000 <= n <= 0x200a
    || n == 0x2028 || n == 0x2029 || n == 0x202f || n == 0x205f || n == 0x3000
  }

  /** `s == s.strip()`. */
  predicate Trimmed(s: string) {
    s != "" ==> !IsSpace(s[0]) && !IsSpace(s[|s| - 1])
  }

  /** `s.strip()`. */
  function Strip(s: string): (r: string)
    ensures |r| <= |s|
    decreases |s|
  {
    if s == "" then ""
    else if IsSpace(s[0]) then Strip(s[1..])
    else if IsSpace(s[|s| - 1]) then Strip(s[..|s| - 1])
    else s
  }

  /** Nothing to strip at either end is what stripping leaves. */
  lemma TrimmedIff(s: string)
    ensures Trimmed(s) <==> Strip(s) == s
  {
    if s != "" {
      assert |Strip(s[1..])| < |s| && |Strip(s[..|s| - 1])| < |s|;
    }
  }

  /** A name `_validate_name` lets through. */
  predicate IsSegment(s: string) {
    s != "" && Trimmed(s) && '/' !in s && s != "." && s != ".."
  }

  const ROOT_PATH := "/"

  /** `s.split("/")`. */
  function Split(s: string): (r: seq<string>)
    ensures |r| > 0 && forall x :: x in r ==> '/' !in x
  {
    if s == "" then [""]
    else
      var rest := Split(s[1..]);
      assert forall i :: 0 <= i < |rest| ==> rest[i] in rest;
      if s[0] == '/' then [""] + rest else [[s[0]] + rest[0]] + rest[1..]
  }

  /** `"/".join(segments)`. */
  function Joined(segments: seq<string>): string {
    if segments == [] then ""
    else if |segments| == 1 then segments[0]
    else segments[0] + "/" + Joined(segments[1..])
  }

  lemma {:induction false} SplitConcat(a: string, b: string)
    ensures Split(a + "/" + b) == Split(a) + Split(b)
    decreases |a|
  {
    var s := a + "/" + b;
    if a == "" {
      assert s[1..] == b;
    } else {
      assert s[1..] == a[1..] + "/" + b;
      SplitConcat(a[1..], b);
    }
  }

  lemma {:induction false} SplitWhole(a: string)
    requires '/' !in a
    ensures Split(a) == [a]
    decreases |a|
  {
    if a != "" {
      assert a == [a[0]] + a[1..];
      SplitWhole(a[1..]);
    }
  }

  /** Splitting undoes joining, whenever no segment holds a separator. */
  lemma {:induction false} SplitJoined(segments: seq<string>)
    requires segments != [] && forall x :: x in segments ==> '/' !in x
    ensures Split(Joined(segments)) == segments
    decreases |segments|
  {
    assert segments[0] in segments;
    SplitWhole(segments[0]);
    if |segments| > 1 {
      assert forall x :: x in segments[1..] ==> x in segments;
      SplitJoined(segments[1..]);
      SplitConcat(segments[0], Joined(segments[1..]));
    }
  }

  /** And joining undoes splitting. */
  lemma {:induction false} JoinedSplit(s: string)
    ensures Joined(Split(s)) == s
    decreases |s|
  {
    if s != "" {
      var rest := Split(s[1..]);
      JoinedSplit(s[1..]);
      if s[0] == '/' {
        assert ([""] + rest)[1..] == rest;
      } else {
        assert ([[s[0]] + rest[0]] + rest[1..])[1..] == rest[1..];
        assert s == [s[0]] + s[1..];
      }
    }
  }

  lemma {:induction false} JoinedConcat(a: seq<string>, b: seq<string>)
    requires a != [] && b != []
    ensures Joined(a + b) == Joined(a) + "/" + Joined(b)
    decreases |a|
  {
    if |a| == 1 {
      assert (a + b)[1..] == b;
    } else {
      assert (a + b)[1..] == a[1..] + b;
      JoinedConcat(a[1..], b);
    }
  }

  // ---- Paths

  function Join(parent: string, name: string): string {
    if parent == ROOT_PATH then ROOT_PATH + name else parent + "/" + name
  }

  predicate AllSegments(segments: seq<string>) {
    forall s :: s in segments ==> IsSegment(s)
  }

  /** A scope's path, from the names along its lineage. */
  function PathOf(segments: seq<string>): string {
    if segments == [] then ROOT_PATH else Join(PathOf(segments[..|segments| - 1]), segments[|segments| - 1])
  }

  lemma {:induction false} PathIsJoined(segments: seq<string>)
    requires AllSegments(segments)
    ensures PathOf(segments) == "/" + Joined(segments)
    ensures segments != [] ==> PathOf(segments) != ROOT_PATH
    decreases |segments|
  {
    if segments != [] {
      var n := |segments| - 1;
      var front, last := segments[..n], segments[n];
      assert segments == front + [last] && last in segments;
      assert forall s :: s in front ==> s in segments;
      PathIsJoined(front);
      if front != [] {
        JoinedConcat(front, [last]);
      }
    }
  }

  /** `canonical_scope_path` returns its argument rather than raising. */
  predicate Canonical(path: string) {
    && path != "" && path[0] == '/'
    && (path == ROOT_PATH ||
        (path[|path| - 1] != '/' &&
         forall s :: s in Split(path[1..]) ==> s != "" && Trimmed(s) && s != "." && s != ".."))
  }

  function Segments(path: string): seq<string>
    requires Canonical(path)
  {
    if path == ROOT_PATH then [] else Split(path[1..])
  }

  /** Canonical paths are exactly the paths of segment lists, one list each. */
  lemma CanonicalIff(path: string)
    ensures Canonical(path) ==> AllSegments(Segments(path)) && PathOf(Segments(path)) == path
  {
    if Canonical(path) && path != ROOT_PATH {
      JoinedSplit(path[1..]);
      PathIsJoined(Split(path[1..]));
      assert path == "/" + path[1..];
    }
  }

  lemma PathIsCanonical(segments: seq<string>)
    requires AllSegments(segments)
    ensures Canonical(PathOf(segments)) && Segments(PathOf(segments)) == segments
  {
    if segments != [] {
      PathIsJoined(segments);
      SplitJoined(segments);
      var p := PathOf(segments);
      assert p[1..] == Joined(segments);
      LastOfJoined(segments);
    }
  }

  lemma {:induction false} LastOfJoined(segments: seq<string>)
    requires segments != [] && AllSegments(segments)
    ensures Joined(segments) != "" && Joined(segments)[|Joined(segments)| - 1] != '/'
    decreases |segments|
  {
    assert segments[0] in segments;
    if |segments| > 1 {
      assert forall s :: s in segments[1..] ==> s in segments;
      LastOfJoined(segments[1..]);
    } else {
      assert segments[0][|segments[0]| - 1] in segments[0];
    }
  }

  /** The canonical paths, character by character: absolute, their segments neither empty nor
      reserved nor with anything to strip, and no trailing separator but the root's. */
  lemma CanonicalMeans(path: string)
    ensures Canonical(path) <==>
      path == "/" || exists segments: seq<string> ::
        && segments != [] && path == "/" + Joined(segments)
        && forall i :: 0 <= i < |segments| ==>
             segments[i] != "" && '/' !in segments[i] && Strip(segments[i]) == segments[i] && segments[i] != "." && segments[i] != ".."
  {
    hide Strip, Trimmed;
    if Canonical(path) && path != ROOT_PATH {
      CanonicalIff(path);
      var segments := Segments(path);
      PathIsJoined(segments);
      forall i | 0 <= i < |segments|
        ensures segments[i] != "" && '/' !in segments[i] && Strip(segments[i]) == segments[i] && segments[i] != "." && segments[i] != ".."
      {
        assert segments[i] in segments;
        TrimmedIff(segments[i]);
      }
    }
    if segments: seq<string> :|
      && segments != [] && path == "/" + Joined(segments)
      && forall i :: 0 <= i < |segments| ==>
           segments[i] != "" && '/' !in segments[i] && Strip(segments[i]) == segments[i] && segments[i] != "." && segments[i] != ".."
    {
      forall x | x in segments ensures IsSegment(x) {
        var i :| 0 <= i < |segments| && segments[i] == x;
        TrimmedIff(x);
      }
      PathIsJoined(segments);
      PathIsCanonical(segments);
    }
  }

  /** Below 128 the spaces are the blank, the control characters from tab to carriage return and
      the four separators. */
  lemma SpacesMean(c: char)
    ensures c as int < 128 ==>
      (IsSpace(c) <==> c in [' ', '\t', '\n', 11 as char, 12 as char, '\r', 28 as char, 29 as char, 30 as char, 31 as char])
    ensures c as int >= 128 ==>
      (IsSpace(c) <==>
        c in ['\U{0085}', '\U{00A0}', '\U{1680}', '\U{2000}', '\U{2001}', '\U{2002}', '\U{2003}', '\U{2004}', '\U{2005}', '\U{2006}',
              '\U{2007}', '\U{2008}', '\U{2009}', '\U{200A}', '\U{2028}', '\U{2029}', '\U{202F}', '\U{205F}', '\U{3000}'])
  {
  }

  // ---- Containment

  /** `str.startswith`. */
  predicate StartsWith(s: string, prefix: string) {
    prefix <= s
  }

  predicate IsWithin(path: string, ancestor: string) {
    ancestor == ROOT_PATH || path == ancestor || StartsWith(path, ancestor + "/")
  }

  lemma StartingWith(p: string, q: string)
    requires StartsWith("/" + p, "/" + q + "/")
    ensures exists b :: p == q + "/" + b
  {
    var b := p[|q| + 1..];
    var whole, prefix := "/" + p, "/" + q + "/";
    assert whole[..|prefix|] == prefix;
    assert p[..|q| + 1] == whole[1..|prefix|] == prefix[1..] == q + "/";
    assert p == p[..|q| + 1] + b;
  }

  lemma JoinedPrefix(s: seq<string>, t: seq<string>, b: string)
    requires AllSegments(s) && AllSegments(t) && t != [] && s != [] && Joined(s) == Joined(t) + "/" + b
    ensures t <= s
  {
    SplitConcat(Joined(t), b);
    SplitJoined(t);
    SplitJoined(s);
    assert s == t + Split(b);
  }

  /** A path lies within another exactly when the other's segments are a prefix of its own. */
  lemma WithinIffPrefix(s: seq<string>, t: seq<string>)
    requires AllSegments(s) && AllSegments(t)
    ensures IsWithin(PathOf(s), PathOf(t)) <==> t <= s
  {
    PathIsJoined(s);
    PathIsJoined(t);
    hide PathOf, AllSegments, Joined;
    if t != [] {
      if t <= s && s != t {
        var rest := s[|t|..];
        assert s == t + rest;
        JoinedConcat(t, rest);
      }
      if StartsWith(PathOf(s), PathOf(t) + "/") {
        StartingWith(Joined(s), Joined(t));
        var b :| Joined(s) == Joined(t) + "/" + b;
        EmptyIsRoot(s, t, b);
        JoinedPrefix(s, t, b);
      }
      if PathOf(s) == PathOf(t) {
        PathIsCanonical(s);
        PathIsCanonical(t);
      }
    }
  }

  lemma EmptyIsRoot(s: seq<string>, t: seq<string>, b: string)
    requires Joined(s) == Joined(t) + "/" + b
    ensures s != []
  {
  }

  /** Two segment lists with one path are one list. */
  lemma PathDecides(s: seq<string>, t: seq<string>)
    requires AllSegments(s) && AllSegments(t) && PathOf(s) == PathOf(t)
    ensures s == t
  {
    PathIsCanonical(s);
    PathIsCanonical(t);
  }

  /** `s.rpartition("/")`, without the separator. */
  function RPartition(s: string): (r: (string, string))
    requires '/' in s
    ensures s == r.0 + "/" + r.1 && '/' !in r.1
    decreases |s|
  {
    var n := |s| - 1;
    assert s == s[..n] + [s[n]];
    if s[n] == '/' then (s[..n], "")
    else
      var r := RPartition(s[..n]);
      assert s == r.0 + "/" + (r.1 + [s[n]]);
      (r.0, r.1 + [s[n]])
  }

  lemma PartitionIsUnique(a: string, b: string, c: string, d: string)
    requires a + "/" + b == c + "/" + d && '/' !in b && '/' !in d
    ensures a == c && b == d
  {
    SplitConcat(a, b);
    SplitConcat(c, d);
    SplitWhole(b);
    SplitWhole(d);
    var s := a + "/" + b;
    assert Split(s)[|Split(s)| - 1] == b && Split(s)[|Split(s)| - 1] == d;
    assert s[..|s| - |b| - 1] == a && s[..|s| - |d| - 1] == c;
  }

  /** Partitioning a path takes its last name off; above a child of the root nothing is left. */
  lemma PartitionOfPath(segments: seq<string>)
    requires AllSegments(segments) && segments != []
    ensures '/' in PathOf(segments)
    ensures var (before, name) := RPartition(PathOf(segments));
      name == segments[|segments| - 1] &&
      (if before == "" then ROOT_PATH else before) == PathOf(segments[..|segments| - 1])
  {
    var n := |segments| - 1;
    var front, last := segments[..n], segments[n];
    assert last in segments;
    assert forall x :: x in front ==> x in segments;
    PathIsJoined(front);
    PathIsJoined(segments);
    var p := PathOf(segments);
    assert p == Join(PathOf(front), last) && '/' !in last;
    hide PathOf, AllSegments, IsSegment, RPartition, Joined;
    assert p[0] == '/';
    PartitionOfJoin(PathOf(front), last);
  }

  lemma PartitionOfJoin(parent: string, last: string)
    requires '/' !in last && parent != ""
    ensures '/' in Join(parent, last)
    ensures RPartition(Join(parent, last)) == (if parent == ROOT_PATH then "" else parent, last)
  {
    var before, p := if parent == ROOT_PATH then "" else parent, Join(parent, last);
    assert p == before + "/" + last;
    assert p[|before|] == '/';
    hide RPartition;
    var r := RPartition(p);
    PartitionIsUnique(before, last, r.0, r.1);
  }
}
