/**
 * The portfolio section: its selection state (selected category, selected
 * project, whether the detail dialog is open), the handlers that move it, and
 * the wiring to the tab row and the grid.
 */
module PortfolioSection {

  import opened Wrappers
  import opened Catalog
  import opened ProjectGrid
  import CategoryFilter

  /** The position of the first project whose id is exactly `id`
      (case-sensitive string equality, as `===`). */
  function FindIndex(ps: seq<Project>, id: string): (r: Option<nat>)
    ensures r.None? <==> forall i :: 0 <= i < |ps| ==> ps[i].id != id
    ensures r.Some? ==> r.value < |ps| && ps[r.value].id == id
    ensures r.Some? ==> forall k :: 0 <= k < r.value ==> ps[k].id != id
    decreases |ps|
  {
    if ps == [] then None
    else if ps[0].id == id then Some(0)
    else match FindIndex(ps[1..], id)
      case None => None
      case Some(i) => Some(i + 1)
  }

  /** `projects.find(p => p.id === id)`: the first project with that id, or
      nothing (PortfolioSection.tsx, 94). */
  function Find(ps: seq<Project>, id: string): (r: Option<Project>)
    ensures r.None? <==> forall i :: 0 <= i < |ps| ==> ps[i].id != id
    ensures r.Some? ==> r.value in ps && r.value.id == id
    ensures r.Some? ==> exists k :: 0 <= k < |ps| && ps[k] == r.value && forall j :: 0 <= j < k ==> ps[j].id != id
  {
    match FindIndex(ps, id)
    case None => None
    case Some(i) => Some(ps[i])
  }

  /** No two projects share an id. */
  predicate UniqueIds(ps: seq<Project>) {
    forall i, j :: 0 <= i < j < |ps| ==> ps[i].id != ps[j].id
  }

  /** With unique ids the lookup returns the one project carrying the id. */
  lemma FindUnique(ps: seq<Project>, k: nat)
    requires UniqueIds(ps) && k < |ps|
    ensures Find(ps, ps[k].id) == Some(ps[k])
  {
  }

  /** The tab value "All" reaches the grid as the empty string, every other
      selection unchanged (PortfolioSection.tsx, 157). */
  function GridCategory(selected: string): string
  {
    if selected == AllTab then "" else selected
  }

  /** What the grid shows for a tab selection: every project under "All",
      otherwise the projects of that category, in catalog order. */
  lemma GridForSelection(ps: seq<Project>, selected: string)
    ensures selected == AllTab ==> FilteredProjects(ps, GridCategory(selected)) == ps
    ensures selected != AllTab && selected != "" ==>
      FilteredProjects(ps, GridCategory(selected)) == FilterByCategory(ps, selected)
    ensures selected != AllTab && selected != "" ==>
      forall p :: p in FilteredProjects(ps, GridCategory(selected)) <==> p in ps && p.category == selected
    ensures IsSubsequence(FilteredProjects(ps, GridCategory(selected)), ps)
  {
    FilteredIsSubsequence(ps, GridCategory(selected));
  }

  /** The three `useState` cells of the section. */
  datatype ViewState = ViewState(
    selectedCategory: string,
    selectedProject: Option<Project>,
    isModalOpen: bool
  )

  /** What the detail dialog shows: a project, or none. `NoDetail` covers a
      closed dialog and also an open dialog whose content is empty because no
      project is selected. */
  datatype Detail = NoDetail | Showing(project: Project)

  function DetailOf(s: ViewState): (d: Detail)
    ensures d.Showing? <==> s.isModalOpen && s.selectedProject.Some?
    ensures d.Showing? ==> d.project == s.selectedProject.value
  {
    if s.isModalOpen && s.selectedProject.Some? then Showing(s.selectedProject.value) else NoDetail
  }

  /** The dialog is never open without a project to show. */
  predicate Consistent(s: ViewState) {
    s.isModalOpen ==> s.selectedProject.Some?
  }

  /** The state at mount: "All", no project, dialog closed (PortfolioSection.tsx, 80-82). */
  const Initial: ViewState := ViewState(AllTab, None, false)

  /** `handleCategoryChange` (PortfolioSection.tsx, 89-91). */
  function CategoryChanged(s: ViewState, c: string): (r: ViewState)
    ensures r.selectedCategory == c
    ensures r.selectedProject == s.selectedProject && r.isModalOpen == s.isModalOpen
  {
    s.(selectedCategory := c)
  }

  /** `handleProjectClick` (PortfolioSection.tsx, 93-99): a found project
      becomes the selection and opens the dialog, whatever the dialog showed
      before; a missing id changes nothing. */
  function ProjectClicked(s: ViewState, ps: seq<Project>, id: string): (r: ViewState)
    ensures FindIndex(ps, id).None? ==> r == s
    ensures FindIndex(ps, id).Some? ==>
      r.selectedProject == Some(ps[FindIndex(ps, id).value]) && r.isModalOpen
    ensures r.selectedCategory == s.selectedCategory
  {
    match Find(ps, id)
    case None => s
    case Some(p) => s.(selectedProject := Some(p), isModalOpen := true)
  }

  /** `closeModal` (PortfolioSection.tsx, 101-103): only the dialog flag changes. */
  function ModalClosed(s: ViewState): (r: ViewState)
    ensures !r.isModalOpen
    ensures r.selectedCategory == s.selectedCategory && r.selectedProject == s.selectedProject
  {
    s.(isModalOpen := false)
  }

  /** The dialog library's own open/close event (PortfolioSection.tsx, 161). */
  function OpenChanged(s: ViewState, open: bool): (r: ViewState)
    ensures r.isModalOpen == open
    ensures r.selectedCategory == s.selectedCategory && r.selectedProject == s.selectedProject
  {
    s.(isModalOpen := open)
  }

  /** Closing twice is closing once. */
  lemma ModalClosedIdempotent(s: ViewState)
    ensures ModalClosed(ModalClosed(s)) == ModalClosed(s)
  {
  }

  /** The detail dialog as a state machine: a found id opens (or replaces)
      the detail, a missing id leaves it as it was, closing closes it. */
  lemma DetailTransitions(s: ViewState, ps: seq<Project>, id: string, category: string)
    ensures (exists i :: 0 <= i < |ps| && ps[i].id == id) ==>
      DetailOf(ProjectClicked(s, ps, id)).Showing? && DetailOf(ProjectClicked(s, ps, id)).project.id == id
    ensures (forall i :: 0 <= i < |ps| ==> ps[i].id != id) ==>
      DetailOf(ProjectClicked(s, ps, id)) == DetailOf(s)
    ensures DetailOf(ModalClosed(s)) == NoDetail
    ensures DetailOf(CategoryChanged(s, category)) == DetailOf(s)
  {
  }

  /** Every handler, and the dialog closing itself, keeps the state consistent. */
  lemma ConsistentPreserved(s: ViewState, ps: seq<Project>, id: string, category: string)
    requires Consistent(s)
    ensures Consistent(CategoryChanged(s, category))
    ensures Consistent(ProjectClicked(s, ps, id))
    ensures Consistent(ModalClosed(s))
    ensures Consistent(OpenChanged(s, false))
  {
  }

  /** Clicking any card the grid shows finds a project, so the guard in
      `handleProjectClick` is never what stops it; with unique ids the dialog
      opens on exactly that card's project. */
  lemma CardClickOpensProject(s: ViewState, ps: seq<Project>, selected: string, p: Project)
    requires p in FilteredProjects(ps, selected)
    ensures ProjectClicked(s, ps, CardClickId(p)).isModalOpen
    ensures UniqueIds(ps) ==> DetailOf(ProjectClicked(s, ps, CardClickId(p))) == Showing(p)
  {
  }

  /** Three projects, two of them branding: the tabs, the branding grid and
      the two lookups, one that opens the dialog and one that does not. */
  lemma ThreeProjectScenario(s: ViewState)
    requires !s.isModalOpen
    ensures var p1 := Project("p1", "", "Branding", "", None, None);
      var p2 := Project("p2", "", "Packaging", "", None, None);
      var p3 := Project("p3", "", "Branding", "", None, None);
      var ps := [p1, p2, p3];
      && Categories(ps) == [AllTab, "Branding", "Packaging"]
      && FilteredProjects(ps, GridCategory("Branding")) == [p1, p3]
      && DetailOf(ProjectClicked(s, ps, "p2")) == Showing(p2)
      && DetailOf(ProjectClicked(s, ps, "p9")) == NoDetail
  {
  }

  class PortfolioSection {
    const projects: seq<Project>
    var selectedCategory: string
    var selectedProject: Option<Project>
    var isModalOpen: bool

    function State(): ViewState
      reads this
    {
      ViewState(selectedCategory, selectedProject, isModalOpen)
    }

    constructor (projects: seq<Project>)
      ensures this.projects == projects
      ensures State() == Initial
    {
      this.projects := projects;
      selectedCategory := AllTab;
      selectedProject := None;
      isModalOpen := false;
    }

    /** The tabs handed to the tab row (PortfolioSection.tsx, 84-87 and 150). */
    function Tabs(): seq<string>
    {
      Categories(projects)
    }

    /** The projects the grid renders for the current selection (PortfolioSection.tsx, 155-159). */
    function GridProjects(): (r: seq<Project>)
      reads this
      ensures IsSubsequence(r, projects)
      ensures selectedCategory == AllTab ==> r == projects
      ensures selectedCategory != AllTab && selectedCategory != "" ==> r == FilterByCategory(projects, selectedCategory)
    {
      GridForSelection(projects, selectedCategory);
      FilteredProjects(projects, GridCategory(selectedCategory))
    }

    method HandleCategoryChange(category: string)
      modifies this
      ensures State() == CategoryChanged(old(State()), category)
    {
      selectedCategory := category;
    }

    method HandleProjectClick(projectId: string)
      modifies this
      ensures State() == ProjectClicked(old(State()), projects, projectId)
    {
      var project := Find(projects, projectId);
      if project.Some? {
        selectedProject := project;
        isModalOpen := true;
      }
    }

    method CloseModal()
      modifies this
      ensures State() == ModalClosed(old(State()))
    {
      isModalOpen := false;
    }

    /** `onOpenChange={setIsModalOpen}`: the dialog sets the flag itself.
        The section has no dialog trigger, so in practice only the close
        event (`open == false`) arrives; an `open == true` with no project
        selected would show an open, empty dialog, which `DetailOf` reports
        as `NoDetail` and `Consistent` rules out. */
    method HandleOpenChange(open: bool)
      modifies this
      ensures State() == OpenChanged(old(State()), open)
    {
      isModalOpen := open;
    }

    /** A click on a tab: the tab row stores and forwards the category, and
        the section stores what was forwarded, so both copies of the
        selection end equal, whatever they held before (PortfolioSection.tsx, 149-153). */
    method ClickTab(tabs: CategoryFilter.CategoryFilter, category: string)
      modifies this, tabs
      ensures tabs.selectedCategory == selectedCategory == category
      ensures selectedProject == old(selectedProject) && isModalOpen == old(isModalOpen)
    {
      var forwarded := tabs.HandleCategoryClick(category);
      HandleCategoryChange(forwarded);
    }
  }

  /** Mounting the section and its tab row: the tab row is seeded with the
      section's selection and shows the derived tabs. */
  method Mount(projects: seq<Project>) returns (section: PortfolioSection, tabs: CategoryFilter.CategoryFilter)
    ensures fresh(section) && fresh(tabs)
    ensures section.projects == projects && section.State() == Initial
    ensures tabs.categories == Categories(projects) && tabs.selectedCategory == section.selectedCategory
  {
    section := new PortfolioSection(projects);
    tabs := new CategoryFilter.CategoryFilter(section.Tabs(), section.selectedCategory);
  }
}
