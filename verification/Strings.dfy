// String operations of the Rust standard library that the core relies on:
// `str::cmp`, `str::find('/')`, `str::split('/')` and the inverse join.
module Strings {
  import opened Wrappers

  datatype Ordering = Less | Equal | Greater

  // Byte order of UTF-8 strings is the lexicographic order of their scalar values.
  function Compare(a: string, b: string): (r: Ordering) {
    if a == [] then (if b == [] then Equal else Less)
    else if b == [] then Greater
    else if a[0] < b[0] then Less
    else if a[0] > b[0] then Greater
    else Compare(a[1..], b[1..])
  }

  predicate AtMost(a: string, b: string) {
    Compare(a, b) != Greater
  }

  lemma {:induction false} CompareEqual(a: string, b: string)
    ensures Compare(a, b) == Equal <==> a == b
  {
    if a != [] && b != [] {
      CompareEqual(a[1..], b[1..]);
      assert a == [a[0]] + a[1..] && b == [b[0]] + b[1..];
    }
  }

  function Flip(o: Ordering): (r: Ordering) {
    match o
    case Less => Greater
    case Equal => Equal
    case Greater => Less
  }

  lemma {:induction false} CompareFlip(a: string, b: string)
    ensures Compare(b, a) == Flip(Compare(a, b))
  {
    if a != [] && b != [] && a[0] == b[0] {
      CompareFlip(a[1..], b[1..]);
    }
  }

  lemma {:induction false} AtMostTotal(a: string, b: string)
    ensures AtMost(a, b) || AtMost(b, a)
    ensures AtMost(a, b) && AtMost(b, a) ==> a == b
  {
    if a != [] && b != [] {
      AtMostTotal(a[1..], b[1..]);
      assert a == [a[0]] + a[1..] && b == [b[0]] + b[1..];
    }
  }

  lemma {:induction false} AtMostTransitive(a: string, b: string, c: string)
    requires AtMost(a, b) && AtMost(b, c)
    ensures AtMost(a, c)
  {
    if a != [] && b != [] && c != [] && a[0] == b[0] == c[0] {
      AtMostTransitive(a[1..], b[1..], c[1..]);
    }
  }

  // `a` comes before `b`: it is a proper prefix, or smaller at the first difference.
  ghost predicate Before(a: string, b: string) {
    exists k :: 0 <= k <= |a| && FirstDifference(a, b, k)
  }

  ghost predicate FirstDifference(a: string, b: string, k: nat)
    requires k <= |a|
  {
    k < |b| && a[..k] == b[..k] && (k == |a| || a[k] < b[k])
  }

  lemma {:induction false} LessMeansBefore(a: string, b: string)
    ensures Compare(a, b) == Less <==> Before(a, b)
  {
    if a == [] {
      assert b != [] ==> FirstDifference(a, b, 0);
    } else if b != [] && a[0] < b[0] {
      assert FirstDifference(a, b, 0);
    } else if b != [] && a[0] == b[0] {
      LessMeansBefore(a[1..], b[1..]);
      forall k | 0 <= k < |a| && k < |b| ensures a[..k + 1] == [a[0]] + a[1..][..k] {}
      forall k | 0 <= k < |b| ensures b[..k + 1] == [b[0]] + b[1..][..k] {}
      if k :| 0 <= k <= |a[1..]| && FirstDifference(a[1..], b[1..], k) {
        assert FirstDifference(a, b, k + 1);
      }
      if k :| 0 <= k <= |a| && FirstDifference(a, b, k) {
        assert k > 0;
        assert a[..k] == [a[0]] + a[1..][..k - 1] && b[..k] == [b[0]] + b[1..][..k - 1];
        assert FirstDifference(a[1..], b[1..], k - 1);
      }
    }
  }

  // An identifier that can stand as one path segment.
  predicate SlashFree(s: string) {
    '/' !in s
  }

  type Id = s: string | SlashFree(s) witness ""

  function FindSlash(s: string): (r: Option<nat>)
    ensures r.Some? ==> r.value < |s| && s[r.value] == '/' && SlashFree(s[..r.value])
    ensures r.None? ==> SlashFree(s)
  {
    if s == [] then None
    else if s[0] == '/' then Some(0)
    else
      match FindSlash(s[1..])
      case None => assert s == [s[0]] + s[1..]; None
      case Some(i) => assert s[..i + 1] == [s[0]] + s[1..][..i]; Some(i + 1)
  }

  // `s.split('/').collect()`: never empty, one more segment than there are slashes.
  function Split(s: string): (r: seq<string>)
    ensures r != []
  {
    match FindSlash(s)
    case None => [s]
    case Some(i) => [s[..i]] + Split(s[i + 1..])
  }

  function Join(parts: seq<string>): (r: string)
    requires parts != []
  {
    if |parts| == 1 then parts[0] else parts[0] + "/" + Join(parts[1..])
  }

  ghost predicate Segments(parts: seq<string>) {
    parts != [] && forall i :: 0 <= i < |parts| ==> SlashFree(parts[i])
  }

  // Splitting and joining are inverse: on every string, and on every list of segments.
  lemma {:induction false} JoinSplit(s: string)
    ensures Segments(Split(s)) && Join(Split(s)) == s
  {
    match FindSlash(s)
    case None =>
    case Some(i) =>
      JoinSplit(s[i + 1..]);
      assert s == s[..i] + "/" + s[i + 1..];
      assert Split(s)[1..] == Split(s[i + 1..]);
  }

  lemma {:induction false} FindFirst(s: string, k: nat)
    requires k < |s| && s[k] == '/' && SlashFree(s[..k])
    ensures FindSlash(s) == Some(k)
  {
  }

  lemma SplitFirst(a: string, rest: string)
    requires SlashFree(a)
    ensures Split(a + "/" + rest) == [a] + Split(rest)
  {
    var s := a + "/" + rest;
    FindFirst(s, |a|);
    assert s[..|a|] == a && s[|a| + 1..] == rest;
  }

  lemma {:induction false} SplitJoin(parts: seq<string>)
    requires Segments(parts)
    ensures Split(Join(parts)) == parts
  {
    if |parts| > 1 {
      SplitJoin(parts[1..]);
      SplitFirst(parts[0], Join(parts[1..]));
      assert parts == [parts[0]] + parts[1..];
    }
  }

  // `s.contains("//")`.
  predicate HasDoubleSlash(s: string) {
    exists i :: 0 <= i < |s| - 1 && s[i] == '/' && s[i + 1] == '/'
  }

  // A joined path has `//` exactly when some segment other than the first and last is empty.
  lemma {:induction false} DoubleSlashIffEmptyInner(parts: seq<string>)
    requires Segments(parts)
    ensures HasDoubleSlash(Join(parts)) <==> exists i :: 0 < i < |parts| - 1 && parts[i] == ""
  {
    if |parts| > 1 {
      var p, rest := parts[0], parts[1..];
      var tail := Join(rest);
      var s := Join(parts);
      assert s == p + "/" + tail;
      DoubleSlashIffEmptyInner(rest);
      HeadSlash(rest);
      if HasDoubleSlash(s) {
        var i :| 0 <= i < |s| - 1 && s[i] == '/' && s[i + 1] == '/';
        assert s[..|p|] == p;
        if i == |p| {
          assert tail[0] == '/';
          assert parts[1] == "";
        } else if i > |p| {
          assert tail[i - |p| - 1] == '/' && tail[i - |p|] == '/';
          var j :| 0 < j < |rest| - 1 && rest[j] == "";
          assert parts[j + 1] == "";
        }
      }
      if i :| 0 < i < |parts| - 1 && parts[i] == "" {
        if i == 1 {
          assert s[|p|] == '/' && s[|p| + 1] == tail[0];
        } else {
          assert rest[i - 1] == "";
          var j :| 0 <= j < |tail| - 1 && tail[j] == '/' && tail[j + 1] == '/';
          assert s[|p| + 1 + j] == '/' && s[|p| + 2 + j] == '/';
        }
      }
    }
  }

  lemma HeadSlash(parts: seq<string>)
    requires Segments(parts)
    ensures (Join(parts) != "" && Join(parts)[0] == '/') <==> (|parts| > 1 && parts[0] == "")
  {
  }
}
