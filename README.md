# Portfolio catalog, filter, selection and scroll-spy — a Dafny model

This project models the logic of a single-page designer portfolio. The site
itself is mostly markup and animation. The parts with behaviour are:

- the **catalog**: a list of `Project` records, and the category tabs derived
  from it. The tabs are `"All"` followed by each distinct category, in the
  order each category is first seen.
- the **project grid**: it filters the catalog by the selected category. An
  empty selection shows everything. An empty result shows an explicit
  "No projects found" state. A card click reports the card's project id.
- the **category tab row**: it keeps its own copy of the selected category.
  That copy is seeded from the parent once, and every click updates it and
  forwards the value to the parent.
- the **portfolio section** state: the selected category, the selected
  project and whether the detail dialog is open. Three handlers move it:
  change category, click a project (looked up by exact id, ignored when no
  project has it) and close the dialog. The tab value `"All"` reaches the grid
  as the empty string.
- the **scroll-spy** of the page shell. It scans the sections `home, skills,
  portfolio, process, contact` from last to first and highlights the first one
  that exists whose top is at or above `scrollY + 100`. If none qualifies, the
  highlight stays where it was. A navigation click highlights its entry
  unconditionally, and asks for a scroll to `offsetTop - 70` when the element
  exists.

Files: `wrappers.dfy` (Option), `catalog.dfy`, `project_grid.dfy`,
`category_filter.dfy`, `portfolio_section.dfy`, `home.dfy`.

Pure code is written as functions and lemmas. The section's state cells, the
tab row's local cell and the page's active section are classes whose methods
update fields. The pure transition functions (`CategoryChanged`,
`ProjectClicked`, `ModalClosed`, `OpenChanged`) specify the section's methods.
The countdown loop of the scroll handler is the method `ScanSections`, proved
against the function `ActiveIndex`.

The DOM is a parameter `dom: map<string, int>` from element id to `offsetTop`.
An id with no entry means `getElementById` found no element. It is used both by
the scan and by the navigation click. The callback props (`onCategoryChange`,
`onProjectClick`) become returned values (`HandleCategoryClick`'s `forwarded`,
`CardClickId`) that the caller passes on, as `PortfolioSection.ClickTab` does.

Where the code's behaviour differs from what a reader might expect, the model follows the code:

- Closing the dialog only clears the open flag. The selected project keeps its
  value (`ModalClosed`).
- The tabs are duplicate-free only when no project is itself in a category
  named `"All"`. `CategoriesDistinctIff` proves both directions.
- The filter treats only the empty string as "everything". `"All"` becomes
  `""` only in the section, before the grid sees it (`GridCategory`).

## Model

| member | source | states |
|---|---|---|
| Catalog.Categories | src/components/PortfolioSection.tsx:84-87 | the tab list starts with "All" and is exactly `["All"]` for an empty catalog; after "All" a value occurs iff some project has that category |
| Catalog.CategoryColumn | src/components/PortfolioSection.tsx:86 | `projects.map(p => p.category)`: one entry per project, position by position |
| Catalog.InsertionOrderSet | src/components/PortfolioSection.tsx:86 | the JavaScript `Set` built from the categories holds exactly the values of its input, each once, and is no longer than the input |
| Catalog.InsertionOrderIsFirstSeen | src/components/PortfolioSection.tsx:86 | the set iterates its values in the order of their first occurrence in the input |
| Catalog.CategoriesInFirstSeenOrder | src/components/PortfolioSection.tsx:84-87 | tabs after "All" are ordered by the catalog position at which each category first appears |
| Catalog.CategoriesAfterAllAreDistinct | src/components/PortfolioSection.tsx:86 | no category occurs twice after "All" |
| Catalog.CategoriesDistinctIff | src/components/PortfolioSection.tsx:84-87 | the whole tab list is duplicate-free iff no project has category "All" |
| ProjectGrid.FilterByCategory | src/components/ProjectGrid.tsx:53 | the filter keeps exactly the catalog's projects of that category and is no longer than the catalog |
| ProjectGrid.FilteredProjects | src/components/ProjectGrid.tsx:52-54 | an empty selection returns the catalog unchanged; any other selection returns the category filter, which holds exactly the projects of that category |
| ProjectGrid.FilterIsSubsequence | src/components/ProjectGrid.tsx:53 | the filtered list is a subsequence of the catalog (relative order kept) |
| ProjectGrid.FilteredIsSubsequence | src/components/ProjectGrid.tsx:52-54 | whatever the selection, the grid shows a subsequence of the catalog |
| ProjectGrid.FilterKeepsMultiplicity | src/components/ProjectGrid.tsx:53 | every project of the category is kept as many times as the catalog holds it; every other project is dropped |
| ProjectGrid.ShowsNoProjectsFoundIff | src/components/ProjectGrid.tsx:84-90 | the "No projects found" state appears iff the catalog is empty or the non-empty selection matches no project |
| CategoryFilter.ActiveTabCount | src/components/CategoryFilter.tsx:31-36 | the number of tabs drawn active is zero iff the selection is not among the tabs |
| CategoryFilter.ActiveTabCountDistinct | src/components/CategoryFilter.tsx:34 | with duplicate-free tabs exactly one tab is active when the selection is a tab, none otherwise |
| CategoryFilter.AtMostOneActiveTab | src/components/CategoryFilter.tsx:34-36 | for tabs derived from a catalog with no "All" category, at most one tab is active |
| CategoryFilter.CategoryFilter.constructor | src/components/CategoryFilter.tsx:18-21 | the local selection starts as `activeCategory`, which defaults to "All" |
| CategoryFilter.CategoryFilter.HandleCategoryClick | src/components/CategoryFilter.tsx:23-26 | a click stores the category and forwards the same value; clicking the selected tab leaves the state unchanged |
| CategoryFilter.CategoryFilter.ActiveCount | src/components/CategoryFilter.tsx:34 | no tab is active iff the local selection is not one of the tabs |
| PortfolioSection.FindIndex | src/components/PortfolioSection.tsx:94 | the position of the first project whose id equals the argument exactly; none iff no project has it |
| PortfolioSection.Find | src/components/PortfolioSection.tsx:94 | `find` returns the first catalog project carrying the id, or nothing iff no project carries it |
| PortfolioSection.FindUnique | src/components/PortfolioSection.tsx:94 | with unique ids, looking up a project's id returns that project |
| PortfolioSection.GridForSelection | src/components/PortfolioSection.tsx:155-159 | the "All" tab reaches the grid as "" and shows the whole catalog; another non-empty tab reaches it unchanged and shows exactly that category's projects, filtered in order; always a subsequence |
| PortfolioSection.DetailOf | src/components/PortfolioSection.tsx:161-166 | the dialog shows a project iff it is open and a project is selected, and then it shows the selected project |
| PortfolioSection.CategoryChanged | src/components/PortfolioSection.tsx:89-91 | the category is replaced; project and dialog state are untouched |
| PortfolioSection.ProjectClicked | src/components/PortfolioSection.tsx:93-99 | a found id selects the first project with it and opens the dialog, open or not before; a missing id changes nothing |
| PortfolioSection.ModalClosed | src/components/PortfolioSection.tsx:101-103 | closing clears only the open flag; the selected project is kept |
| PortfolioSection.OpenChanged | src/components/PortfolioSection.tsx:161 | the dialog's own event sets the open flag and nothing else |
| PortfolioSection.ModalClosedIdempotent | src/components/PortfolioSection.tsx:101-103 | closing twice equals closing once |
| PortfolioSection.DetailTransitions | src/components/PortfolioSection.tsx:93-103 | found id opens (or replaces) the detail with a project of that id; a missing id keeps the detail; close closes; a category change keeps it |
| PortfolioSection.ConsistentPreserved | src/components/PortfolioSection.tsx:80-103 | every handler, and the dialog closing itself, keeps "open implies a project is selected" |
| PortfolioSection.CardClickOpensProject | src/components/ProjectGrid.tsx:73-79 | a card click reports its project's id, which is always found and opens the dialog; with unique ids, on exactly that card's project |
| PortfolioSection.ThreeProjectScenario | src/components/PortfolioSection.tsx:84-99 | for a three-project catalog: the tabs, the branding grid, one lookup that opens the detail and one that leaves it closed |
| PortfolioSection.PortfolioSection.constructor | src/components/PortfolioSection.tsx:80-82 | the section mounts on "All", no project, dialog closed |
| PortfolioSection.PortfolioSection.GridProjects | src/components/PortfolioSection.tsx:155-159 | the grid's list is a subsequence of the catalog: the whole catalog under "All", the category's filtered projects under any other non-empty tab |
| PortfolioSection.PortfolioSection.HandleCategoryChange | src/components/PortfolioSection.tsx:89-91 | the new state is `CategoryChanged` of the old |
| PortfolioSection.PortfolioSection.HandleProjectClick | src/components/PortfolioSection.tsx:93-99 | the new state is `ProjectClicked` of the old |
| PortfolioSection.PortfolioSection.CloseModal | src/components/PortfolioSection.tsx:101-103 | the new state is `ModalClosed` of the old |
| PortfolioSection.PortfolioSection.HandleOpenChange | src/components/PortfolioSection.tsx:161 | the new state is `OpenChanged` of the old |
| PortfolioSection.PortfolioSection.ClickTab | src/components/PortfolioSection.tsx:149-153 | after a tab click the tab row and the section hold the same, clicked category; project and dialog untouched |
| PortfolioSection.Mount | src/components/PortfolioSection.tsx:149-153 | the tab row is seeded with the section's selection and shows the derived tabs |
| Home.LastReachedBelow | src/components/home.tsx:27-36 | the largest index below `n` whose element exists and whose top is reached, or none if no such index |
| Home.ActiveIndex | src/components/home.tsx:27-36 | the largest section index that exists with `offsetTop <= position`; none iff no section qualifies |
| Home.ScanSections | src/components/home.tsx:27-36 | the backward loop with `break` finds exactly `ActiveIndex` at `scrollY + 100` |
| Home.ActiveIndexMonotone | src/components/home.tsx:27-35 | with offsets fixed, a larger scroll position never picks a smaller section index |
| Home.ActiveIndexExists | src/components/home.tsx:27-35 | once a section exists and is reached, a section at or after it is active |
| Home.Home.constructor | src/components/home.tsx:13 | the highlight starts on "home" |
| Home.Home.HandleScroll | src/components/home.tsx:17-37 | the active section becomes the scanned one, which is one of the five ids; with none qualifying it stays |
| Home.Home.HandleSectionChange | src/components/home.tsx:44-53 | the clicked id becomes active unconditionally; a scroll to `offsetTop - 70` is requested iff the element exists |

## Left out

- DOM lookup, `addEventListener`/`removeEventListener` and smooth scrolling: the
  DOM is the `dom` map parameter, and a requested scroll is a returned value.
- Scroll positions and offsets are integers. The browser's fractional pixels
  are not modelled.
- Rendering and animation (framer-motion, the dialog component, the inline
  detail view's markup) are not modelled. Only what decides which projects and
  which detail are shown is.
- React's re-render cycle: a state update takes effect at once in the model.
  Later changes to the `activeCategory` prop do not reach the tab row, as with
  `useState`; the model has no other way for them to arrive.
- The contact form (simulated delayed submit, `window.open`), header, skills,
  process, testimonials, project card, project detail, navigation bar and
  footer: presentation, timers, browser calls and view-only state cells
  (`isScrolled` of the navigation bar, `isHovered` of a project card,
  `isSubmitting`/`isSubmitted` of the contact form around its timer, and the
  never-updated `currentImageIndex` of the project detail) that nothing in the
  modelled core reads.
- The built-in default catalogs, tab lists and other fixture data are not part
  of the model. Constructors take the catalog and the tabs as arguments.
- CategoryFilter.CategoryFilter.HandleCategoryClick: the `onCategoryChange`
  callback is modelled as the returned value `forwarded`. A caller that wants the
  callback's effect passes it on itself, as `ClickTab` does.
