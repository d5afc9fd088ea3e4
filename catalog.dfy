/**
 * The portfolio catalog: the project record and the list of category tabs
 * derived from it ("All" followed by the distinct categories, first seen first).
 */
module Catalog {

  import opened Wrappers

  /** One portfolio work item. `description` and `images` are optional fields
      of the record: `None` is an undefined field. */
  datatype Project = Project(
    id: string,
    title: string,
    category: string,
    imageUrl: string,
    description: Option<string>,
    images: Option<seq<string>>
  )

  /** The synthetic tab that stands for every project. */
  const AllTab: string := "All"

  /** No value occurs twice. */
  predicate Distinct<T(==)>(s: seq<T>) {
    forall i, j :: 0 <= i < j < |s| ==> s[i] != s[j]
  }

  /** The category of every project, in catalog order (`projects.map(p => p.category)`). */
  function CategoryColumn(ps: seq<Project>): (r: seq<string>)
    ensures |r| == |ps|
    ensures forall i :: 0 <= i < |ps| ==> r[i] == ps[i].category
  {
    seq(|ps|, i requires 0 <= i < |ps| => ps[i].category)
  }

  /** What a JavaScript `Set` built from `s` holds, in its iteration order:
      each value of `s` once, a value kept where it is first inserted. */
  function InsertionOrderSet(s: seq<string>): (r: seq<string>)
    ensures forall x :: x in r <==> x in s
    ensures Distinct(r)
    ensures |r| <= |s|
    decreases |s|
  {
    if |s| == 0 then []
    else
      var rest := InsertionOrderSet(s[..|s| - 1]);
      var last := s[|s| - 1];
      assert s == s[..|s| - 1] + [last];
      if last in rest then rest else rest + [last]
  }

  /** The index at which `x` first occurs in `s`. */
  function FirstIndex(s: seq<string>, x: string): (k: nat)
    requires x in s
    ensures k < |s| && s[k] == x
    ensures forall j :: 0 <= j < k ==> s[j] != x
    decreases |s|
  {
    if x in s[..|s| - 1] then FirstIndex(s[..|s| - 1], x) else |s| - 1
  }

  /** The category tabs derived from the catalog (PortfolioSection.tsx, 84-87). */
  function Categories(ps: seq<Project>): (r: seq<string>)
    ensures |r| >= 1 && r[0] == AllTab
    ensures ps == [] ==> r == [AllTab]
    ensures forall c :: c in r[1..] <==> exists i :: 0 <= i < |ps| && ps[i].category == c
  {
    var r := [AllTab] + InsertionOrderSet(CategoryColumn(ps));
    assert r[1..] == InsertionOrderSet(CategoryColumn(ps));
    r
  }

  /** The set keeps values in the order of their first occurrence. */
  lemma {:induction false} InsertionOrderIsFirstSeen(s: seq<string>, i: nat, j: nat)
    requires i < j < |InsertionOrderSet(s)|
    ensures FirstIndex(s, InsertionOrderSet(s)[i]) < FirstIndex(s, InsertionOrderSet(s)[j])
    decreases |s|
  {
    var r := InsertionOrderSet(s);
    var front := s[..|s| - 1];
    var rest := InsertionOrderSet(front);
    var last := s[|s| - 1];
    FirstIndexOfPrefix(s, r[i]);
    if last in rest {
      FirstIndexOfPrefix(s, r[j]);
      InsertionOrderIsFirstSeen(front, i, j);
    } else if j < |rest| {
      FirstIndexOfPrefix(s, r[j]);
      InsertionOrderIsFirstSeen(front, i, j);
    } else {
      assert r[j] == last && last !in front;
    }
  }

  /** A value that already occurs before the last element keeps its first index. */
  lemma FirstIndexOfPrefix(s: seq<string>, x: string)
    requires x in s && |s| > 0
    ensures x in s[..|s| - 1] ==> FirstIndex(s, x) == FirstIndex(s[..|s| - 1], x)
    ensures x !in s[..|s| - 1] ==> FirstIndex(s, x) == |s| - 1
  {
  }

  /** The tabs after "All" are the catalog's categories in first-seen order. */
  lemma CategoriesInFirstSeenOrder(ps: seq<Project>, i: nat, j: nat)
    requires 1 <= i < j < |Categories(ps)|
    ensures FirstIndex(CategoryColumn(ps), Categories(ps)[i])
          < FirstIndex(CategoryColumn(ps), Categories(ps)[j])
  {
    var d := InsertionOrderSet(CategoryColumn(ps));
    assert Categories(ps)[i] == d[i - 1] && Categories(ps)[j] == d[j - 1];
    InsertionOrderIsFirstSeen(CategoryColumn(ps), i - 1, j - 1);
  }

  /** Each category occurs exactly once after "All". */
  lemma CategoriesAfterAllAreDistinct(ps: seq<Project>)
    ensures Distinct(Categories(ps)[1..])
  {
  }

  /** The tab list is duplicate-free exactly when no project is itself in a
      category named "All": nothing keeps such a category from showing a
      second "All" tab. */
  lemma {:induction false} CategoriesDistinctIff(ps: seq<Project>)
    ensures Distinct(Categories(ps)) <==> forall i :: 0 <= i < |ps| ==> ps[i].category != AllTab
  {
    var r := Categories(ps);
    var d := InsertionOrderSet(CategoryColumn(ps));
    assert r == [AllTab] + d;
    if forall i :: 0 <= i < |ps| ==> ps[i].category != AllTab {
      assert AllTab !in d;
      forall a, b | 0 <= a < b < |r| ensures r[a] != r[b] {
        if a == 0 {
          assert r[b] == d[b - 1];
        } else {
          assert r[a] == d[a - 1] && r[b] == d[b - 1];
        }
      }
    } else {
      var i :| 0 <= i < |ps| && ps[i].category == AllTab;
      assert AllTab in r[1..];
      var b :| 0 <= b < |r[1..]| && r[1..][b] == AllTab;
      assert r[0] == r[b + 1];
    }
  }
}
