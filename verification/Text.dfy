/** Searching in byte strings, as the Go standard library does it. A string is a sequence of
    bytes, each written as one `char`. */
module Text {

  datatype Option<+T> = None | Some(value: T) {
    function GetOr(default: T): T {
      if Some? then value else default
    }
  }

  predicate OccursAt(s: string, t: string, i: int) {
    0 <= i && i + |t| <= |s| && s[i..i + |t|] == t
  }

  predicate StartsWith(s: string, t: string) {
    OccursAt(s, t, 0)
  }

  predicate EndsWith(s: string, t: string) {
    OccursAt(s, t, |s| - |t|)
  }

  predicate IsLeftmost(s: string, t: string, i: int) {
    OccursAt(s, t, i) && forall j :: 0 <= j < i ==> !OccursAt(s, t, j)
  }

  /** The leftmost position at which `t` occurs in `s`, or -1. */
  function Index(s: string, t: string): (r: int)
    ensures r == -1 || OccursAt(s, t, r)
    ensures forall j :: OccursAt(s, t, j) ==> r != -1 && r <= j
  {
    if exists i :: 0 <= i <= |s| && OccursAt(s, t, i) then
      LeftmostExists(s, t);
      var i :| 0 <= i <= |s| && IsLeftmost(s, t, i);
      i
    else -1
  }

  lemma IndexIs(s: string, t: string, i: int)
    requires OccursAt(s, t, i) && forall j :: 0 <= j < i ==> !OccursAt(s, t, j)
    ensures Index(s, t) == i
  {
  }

  lemma LeftmostExists(s: string, t: string)
    requires exists i :: 0 <= i <= |s| && OccursAt(s, t, i)
    ensures exists i :: 0 <= i <= |s| && IsLeftmost(s, t, i)
  {
    var i :| 0 <= i <= |s| && OccursAt(s, t, i);
    var n := 0;
    while !OccursAt(s, t, n)
      invariant 0 <= n <= i && forall j :: 0 <= j < n ==> !OccursAt(s, t, j)
      decreases i - n
    {
      n := n + 1;
    }
    assert IsLeftmost(s, t, n);
  }

  /** Occurrences are preserved by cutting off a front part that lies before them. */
  lemma OccursInTail(s: string, t: string, cut: nat, i: int)
    requires cut <= |s| && cut <= i
    ensures OccursAt(s, t, i) <==> OccursAt(s[cut..], t, i - cut)
  {
    if i + |t| <= |s| {
      assert s[cut..][i - cut..i - cut + |t|] == s[i..i + |t|];
    }
  }

  /** Occurrences are preserved by appending. */
  lemma OccursInFront(s: string, more: string, t: string, i: int)
    requires i + |t| <= |s|
    ensures OccursAt(s, t, i) <==> OccursAt(s + more, t, i)
  {
    if 0 <= i {
      assert (s + more)[i..i + |t|] == s[i..i + |t|];
    }
  }

  lemma Regroup(a: string, b: string, c: string, d: string)
    ensures "" + a == a && a + "" == a
    ensures a + (b + c) == a + b + c
    ensures a + (b + c + d) == a + b + c + d
    ensures a + b + c + d == a + b + (c + d)
  {
  }

  /** A separator tells what stands in front of it and what behind, if there is none in front. */
  lemma SplitAt(c: char, a: string, x: string, b: string, y: string)
    requires a + [c] + x == b + [c] + y && c !in a && c !in b
    ensures a == b && x == y
  {
    var s := a + [c] + x;
    assert s[|a|] == c && s[|b|] == c;
    assert a == s[..|a|] && b == s[..|b|];
    assert x == s[|a| + 1..] && y == s[|b| + 1..];
  }

  lemma FirstField(a: string, x: string, b: string, y: string)
    requires a + ":" + x == b + ":" + y && ':' !in a && ':' !in b
    ensures a == b && x == y
  {
    SplitAt(':', a, x, b, y);
  }
}
