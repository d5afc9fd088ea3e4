/**
 * The project grid: the category filter over the catalog, the
 * "No projects found" state, and the click a card forwards.
 */
module ProjectGrid {

  import opened Catalog

  /** `a` is obtained from `b` by deleting elements, relative order kept. */
  predicate IsSubsequence<T(==)>(a: seq<T>, b: seq<T>)
    decreases |b|
  {
    if a == [] then true
    else if b == [] then false
    else if a[0] == b[0] then IsSubsequence(a[1..], b[1..])
    else IsSubsequence(a, b[1..])
  }

  /** The projects whose category is exactly `c`, in catalog order
      (`projects.filter(p => p.category === c)`). */
  function FilterByCategory(ps: seq<Project>, c: string): (r: seq<Project>)
    ensures |r| <= |ps|
    ensures forall p :: p in r <==> p in ps && p.category == c
    decreases |ps|
  {
    if ps == [] then []
    else if ps[0].category == c then [ps[0]] + FilterByCategory(ps[1..], c)
    else FilterByCategory(ps[1..], c)
  }

  /** The projects the grid renders for `selected`: an empty string is falsy
      and shows the whole catalog, any other string filters by it
      (ProjectGrid.tsx, 52-54). */
  function FilteredProjects(ps: seq<Project>, selected: string): (r: seq<Project>)
    ensures selected == "" ==> r == ps
    ensures selected != "" ==> r == FilterByCategory(ps, selected)
    ensures selected != "" ==> forall p :: p in r <==> p in ps && p.category == selected
    ensures |r| <= |ps|
  {
    if selected == "" then ps else FilterByCategory(ps, selected)
  }

  /** The explicit empty state is rendered iff nothing is left to show
      (ProjectGrid.tsx, 84). */
  predicate ShowsNoProjectsFound(ps: seq<Project>, selected: string) {
    |FilteredProjects(ps, selected)| == 0
  }

  /** The id a card reports when clicked (ProjectGrid.tsx, 78). */
  function CardClickId(p: Project): string
  {
    p.id
  }

  /** Filtering never reorders: the result is a subsequence of the catalog. */
  lemma {:induction false} FilterIsSubsequence(ps: seq<Project>, c: string)
    ensures IsSubsequence(FilterByCategory(ps, c), ps)
    decreases |ps|
  {
    if ps != [] {
      FilterIsSubsequence(ps[1..], c);
      var r := FilterByCategory(ps, c);
      if ps[0].category == c {
        assert r[0] == ps[0] && r[1..] == FilterByCategory(ps[1..], c);
      } else if r != [] {
        assert r[0] in r;
        assert r[0] != ps[0];
      }
    }
  }

  /** Whatever the selection, the grid shows a subsequence of the catalog. */
  lemma FilteredIsSubsequence(ps: seq<Project>, selected: string)
    ensures IsSubsequence(FilteredProjects(ps, selected), ps)
  {
    if selected == "" {
      SubsequenceReflexive(ps);
    } else {
      FilterIsSubsequence(ps, selected);
    }
  }

  lemma {:induction false} SubsequenceReflexive<T>(s: seq<T>)
    ensures IsSubsequence(s, s)
    decreases |s|
  {
    if s != [] {
      SubsequenceReflexive(s[1..]);
    }
  }

  /** The filter keeps every project of the category as often as the catalog
      holds it, and drops every other project. */
  lemma {:induction false} FilterKeepsMultiplicity(ps: seq<Project>, c: string, p: Project)
    ensures multiset(FilterByCategory(ps, c))[p] == if p.category == c then multiset(ps)[p] else 0
    decreases |ps|
  {
    if ps != [] {
      FilterKeepsMultiplicity(ps[1..], c, p);
      assert ps == [ps[0]] + ps[1..];
    }
  }

  /** The empty state appears exactly when the catalog is empty or no project
      is in the selected (non-empty) category. */
  lemma ShowsNoProjectsFoundIff(ps: seq<Project>, selected: string)
    ensures ShowsNoProjectsFound(ps, selected)
        <==> ps == [] || (selected != "" && forall i :: 0 <= i < |ps| ==> ps[i].category != selected)
  {
    if selected != "" && ps != [] && forall i :: 0 <= i < |ps| ==> ps[i].category != selected {
      var r := FilteredProjects(ps, selected);
      if r != [] {
        assert r[0] in ps;
      }
    } else if selected != "" && ps != [] {
      var i :| 0 <= i < |ps| && ps[i].category == selected;
      assert ps[i] in FilteredProjects(ps, selected);
    }
  }
}
