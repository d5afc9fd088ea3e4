/**
 * The row of category tabs. It keeps its own copy of the selected category,
 * seeded once from the parent's `activeCategory`, and forwards every click.
 */
module CategoryFilter {

  import opened Catalog

  /** A tab is drawn as the active one iff its category is the selected one
      (CategoryFilter.tsx, 34 and 36). */
  predicate IsActiveTab(category: string, selected: string) {
    selected == category
  }

  /** How many of the tabs `tabs` are drawn as active. */
  function ActiveTabCount(tabs: seq<string>, selected: string): (n: nat)
    ensures n <= |tabs|
    ensures n == 0 <==> selected !in tabs
    decreases |tabs|
  {
    if tabs == [] then 0
    else (if IsActiveTab(tabs[0], selected) then 1 else 0) + ActiveTabCount(tabs[1..], selected)
  }

  /** With duplicate-free tabs exactly one tab is active when the selection is
      one of them, and none otherwise. */
  lemma {:induction false} ActiveTabCountDistinct(tabs: seq<string>, selected: string)
    requires Distinct(tabs)
    ensures ActiveTabCount(tabs, selected) == if selected in tabs then 1 else 0
    decreases |tabs|
  {
    if tabs != [] {
      assert Distinct(tabs[1..]);
      ActiveTabCountDistinct(tabs[1..], selected);
      if tabs[0] == selected {
        assert selected !in tabs[1..];
      } else {
        assert selected in tabs <==> selected in tabs[1..];
      }
    }
  }

  /** For the tabs derived from a catalog with no project in a category named
      "All", at most one tab is ever active. */
  lemma AtMostOneActiveTab(ps: seq<Project>, selected: string)
    requires forall i :: 0 <= i < |ps| ==> ps[i].category != AllTab
    ensures ActiveTabCount(Categories(ps), selected) <= 1
  {
    CategoriesDistinctIff(ps);
    ActiveTabCountDistinct(Categories(ps), selected);
  }

  class CategoryFilter {
    const categories: seq<string>
    var selectedCategory: string

    /** The local cell starts as the `activeCategory` prop, "All" when it is
        not given (CategoryFilter.tsx, 18 and 21). */
    constructor (categories: seq<string>, activeCategory: string := AllTab)
      ensures this.categories == categories
      ensures selectedCategory == activeCategory
    {
      this.categories := categories;
      selectedCategory := activeCategory;
    }

    /** A tab click stores the category and forwards the same value to
        `onCategoryChange`, once (CategoryFilter.tsx, 23-26). */
    method HandleCategoryClick(category: string) returns (forwarded: string)
      modifies this
      ensures selectedCategory == category
      ensures forwarded == category
      ensures old(selectedCategory) == category ==> unchanged(this)
    {
      selectedCategory := category;
      forwarded := category;
    }

    function ActiveCount(): (n: nat)
      reads this
      ensures n == 0 <==> selectedCategory !in categories
    {
      ActiveTabCount(categories, selectedCategory)
    }
  }
}
