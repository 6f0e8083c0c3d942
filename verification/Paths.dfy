/** Slash-separated paths as strings, compared the way the planner compares them, with the slash. */
module Paths {

  /** `path.startswith(d + "/")`. */
  predicate Below(path: string, d: string) {
    d + "/" <= path
  }

  /** `path == d or path.startswith(d + "/")`. */
  predicate Under(path: string, d: string) {
    path == d || Below(path, d)
  }

  predicate UnderAny(path: string, ds: seq<string>) {
    exists d :: d in ds && Under(path, d)
  }

  ghost predicate Comparable(a: string, b: string) {
    Under(a, b) || Under(b, a)
  }

  lemma UnderTransitive(a: string, b: string, c: string)
    requires Under(a, b) && Under(b, c)
    ensures Under(a, c)
  {
    if b != c && a != b {
      assert c + "/" <= b <= b + "/" <= a;
    }
  }

  /** Two directories that both hold a path hold one another: paths form a tree. */
  lemma UnderComparable(path: string, a: string, b: string)
    requires Under(path, a) && Under(path, b)
    ensures Comparable(a, b)
  {
    if |a| < |b| {
      assert b == path[..|b|];
      assert a + "/" == path[..|a| + 1] == b[..|a| + 1];
    } else if |b| < |a| {
      assert a == path[..|a|];
      assert b + "/" == path[..|b| + 1] == a[..|b| + 1];
    } else {
      assert a == path[..|a|] && b == path[..|b|];
    }
  }

  lemma UnderLonger(a: string, b: string)
    requires Under(a, b)
    ensures a != b ==> |b| < |a|
  {
  }

  /** No path of the list holds or repeats another. */
  ghost predicate Antichain(units: seq<string>) {
    forall i, j | 0 <= i < j < |units| :: !Comparable(units[i], units[j])
  }

  lemma ApartMembers(units: seq<string>, u: string, d: string)
    requires Antichain(units) && u in units && d in units
    ensures u != d ==> !Comparable(u, d)
  {
    var i :| 0 <= i < |units| && units[i] == u;
    var j :| 0 <= j < |units| && units[j] == d;
    assert i < j ==> !Comparable(units[i], units[j]);
    assert j < i ==> !Comparable(units[j], units[i]);
  }
}
