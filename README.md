# Navigation menu of the Rangle style guide

The style guide application shows, beside the rendered guide, a navigation
menu. `NavComponent` (src/app/nav/nav.component.ts) builds that menu. Its
`styleGuides` input setter walks the guide's content tree in document order:
top sections, then their subsections, then the rules of a subsection. It
appends one entry `{title, level, id}` per node it visits. Levels are 1, 2
and 3. The id is the node's position: the section index as a number, then
`i-j` and `i-j-k` as hyphen-joined text. After the walk, the setter shows
the whole menu. `filterMenu` recomputes the menu on show from the full
menu. It keeps, in order, the entries whose lower-cased title contains the
lower-cased query.

The project has seven modules:

- `ContentTree` (content.dfy): the part of the content tree the builder
  reads. `WellFormed` says every top section carries its `sections` list.
- `MenuIds` (ids.dfy): decimal rendering and the hyphen-joined ids. The
  rendering is proved injective, so ids determine positions.
- `Preorder` (preorder.dfy): document pre-order on positions. A set of
  positions has exactly one strictly increasing listing.
- `MenuBuilder` (menu.dfy): the specification of the setter.
  - `Paths(data)` lists the visited positions in visiting order.
  - `Menu(data)` gives the entry of each visited position.
  - `Count(data)` gives the number of entries.
  - The lemmas state where every entry stands, that the listing is the
    pre-order, that ids are distinct, and that nested subsections are
    never read.
- `MenuFilter` (filter.dfy): the filter as a function, and what it keeps.
- `Nav` (nav.dfy): the component as a class.
  - It has the two fields the source updates.
  - The setter and its two `forEach` callbacks are written as loops.
  - The setter's loop is proved to append exactly `Menu(data)`.
  - Each callback's loop is proved to append exactly its own node's block
    of entries: a section's entry and its subsections' blocks, or a
    subsection's entry and its rules' entries.
  - The file also has scenarios over a fresh component.
- `Fixtures` (fixtures.dfy): two concrete trees.
  - The shipped guide, of src/app/guide.ts, gives 11 entries.
  - A four-node tree A/B/C/D shows the queries "c" and "z".

## Model

| member | source | states |
|---|---|---|
| MenuIds.ValueOfDecimal | src/app/nav/nav.component.ts:19 | reading the decimal rendering of an index back gives the index, so the rendering loses nothing |
| MenuIds.JoinInjective | src/app/nav/nav.component.ts:19 | two index paths with the same hyphen-joined text are the same path |
| MenuIds.TemplateIds | src/app/nav/nav.component.ts:14-26 | the id of a position at depth 1, 2 and 3 is the number `index`, the text `index-subIndex` and the text `index-subIndex-ruleIndex` |
| MenuIds.IdOfInjective | src/app/nav/nav.component.ts:14-26 | distinct positions get distinct ids, and distinct anchor texts even where a numeric id is read as text |
| Preorder.IncreasingUnique | src/app/nav/nav.component.ts:13-31 | two strictly pre-ordered listings of the same set of positions are equal |
| MenuBuilder.MenuLength | src/app/nav/nav.component.ts:13-31 | the menu has one entry per section, one per subsection, and one per rule of a subsection whose `rules` field is present |
| MenuBuilder.MenuPreorder | src/app/nav/nav.component.ts:13-31 | the visited positions are exactly the tree's section, subsection and rule positions, each listed once in strict pre-order; each entry carries its node's title, its depth as level (1 to 3) and its position's id |
| MenuBuilder.PreorderListingUnique | src/app/nav/nav.component.ts:13-31 | any strictly increasing listing of exactly the tree's positions is the builder's visiting order |
| MenuBuilder.MenuIdsDistinct | src/app/nav/nav.component.ts:14-26 | no two entries of one build share an id or an anchor text |
| MenuBuilder.SectionEntry | src/app/nav/nav.component.ts:14 | section i's entry, which has level 1 and id `i`, comes right after everything the earlier sections contribute |
| MenuBuilder.MenuAtSubsection | src/app/nav/nav.component.ts:16-20 | subsection j of section i has its level-2 entry, with id `i-j`, at its offset: after its section's entry and the entries of the earlier subsections |
| MenuBuilder.MenuAtRule | src/app/nav/nav.component.ts:21-28 | rule r of that subsection has its level-3 entry, with id `i-j-r`, r + 1 places after the subsection's entry |
| MenuBuilder.SubsectionEntries | src/app/nav/nav.component.ts:15-30 | a level-2 entry is followed first by exactly its own rules' entries, in rule order, and then by an entry of level 1 or 2 or by the end; a subsection without `rules` contributes only its own entry |
| MenuBuilder.MenuIgnoresNestedSections | src/app/nav/nav.component.ts:15-30 | two trees that agree on section titles and on subsection titles and rules build the same menu: nested `sections` under a subsection are never read |
| MenuFilter.ContainsOccurs | src/app/nav/nav.component.ts:41 | the containment scan succeeds exactly when the query occurs at some index of the title |
| MenuFilter.FilterSound | src/app/nav/nav.component.ts:40-42 | the filtered menu is a subsequence of the menu, in menu order, and every entry in it matches |
| MenuFilter.FilterKeepsMatches | src/app/nav/nav.component.ts:40-42 | every matching entry keeps all its occurrences |
| MenuFilter.FilterUnique | src/app/nav/nav.component.ts:40-42 | any subsequence of matching entries that keeps every occurrence of every match is the filtered menu |
| MenuFilter.FilterMembership | src/app/nav/nav.component.ts:40-42 | an entry is shown exactly when it is in the menu and its title matches; a non-matching ancestor is not brought back |
| MenuFilter.FilterReadsTitlesOnly | src/app/nav/nav.component.ts:41 | menus of the same length that agree on their titles, whatever their levels and ids, filter to menus of the same length with the same titles in order |
| MenuFilter.FilterAppend | src/app/nav/nav.component.ts:40-42 | filtering a concatenation filters each part |
| MenuFilter.FilterEmptyQuery | src/app/nav/nav.component.ts:40-42 | the empty query keeps the whole menu |
| MenuFilter.FilterIdempotent | src/app/nav/nav.component.ts:40-42 | filtering the filtered menu again with the same query changes nothing |
| Nav.NavComponent.constructor | src/app/nav/nav.component.ts:10-11 | a new component has an empty menu and an empty menu on show |
| Nav.NavComponent.SetStyleGuides | src/app/nav/nav.component.ts:12-33 | the setter appends exactly `Menu(data)` to the menu, so earlier entries stay a prefix, then shows the whole menu |
| Nav.NavComponent.VisitSection | src/app/nav/nav.component.ts:13-31 | the section callback appends the entries of the section's own positions and leaves the menu on show alone |
| Nav.NavComponent.VisitSubsection | src/app/nav/nav.component.ts:15-30 | the subsection callback appends the subsection's entry and then one entry per rule, when `rules` is present |
| Nav.NavComponent.FilterMenu | src/app/nav/nav.component.ts:39-43 | the menu is unchanged and the menu on show becomes the filter of the full menu |
| Nav.QueriesDoNotCompound | src/app/nav/nav.component.ts:39-43 | after two queries, the menu on show is the second query's filter of the whole menu |
| Nav.ClearingRestoresMenu | src/app/nav/nav.component.ts:39-43 | clearing the query after any query shows the whole menu again |
| Nav.SetTwice | src/app/nav/nav.component.ts:12-33 | setting the input twice gives the first tree's entries followed by the second's; a query then filters each tree's entries on their own |
| Fixtures.GuideRule | src/app/guide.ts:26-133 | in a tree shaped like the shipped guide, rule r of the first subsection is entry 2 + r, with level 3 and id `0-0-r` |
| Fixtures.GuideRuleIds | src/app/guide.ts:26-133 | the first subsection's first and last rules have ids `0-0-0` and `0-0-7` |
| Fixtures.GuideMenu | src/app/guide.ts:1-143 | a tree shaped like the shipped guide gives 11 entries: the section (id 0), the first subsection (`0-0`), its 8 rules, and then the second subsection (`0-1`) last; its nested subsections get no entry |
| Fixtures.ShippedGuideMenu | src/app/guide.ts:1-143 | the shipped guide's menu has 11 entries, and the last is the second subsection with id `0-1` |
| Fixtures.SmallMenuBuilt | src/app/nav/nav.component.ts:13-31 | the tree A / B / C, D gives the entries A (1, 0), B (2, `0-0`), C (3, `0-0-0`) and D (3, `0-0-1`) |
| Fixtures.SmallQueries | src/app/nav/nav.component.ts:39-43 | on that menu, query "c" shows only C and query "z" shows nothing |

## Left out

- `scrollToElement` (src/app/nav/nav.component.ts:35-37) looks up a DOM element and scrolls to it. The DOM is not part of this model. `Anchor` and `MenuIds.IdOfInjective` state the part it relies on: distinct ids name distinct anchors.
- `toLowerCase` is modelled on ASCII letters A-Z only. Full Unicode case mapping is not modelled.
- A top section without a `sections` field makes the setter throw. The model makes this the precondition `WellFormed`. A missing `rules` field is modelled, as `None`. An empty `rules` list contributes no entries, just as a missing one does.
- After the setter, the source leaves `filteredMenu` aliasing the same array as `menu`. The model uses sequence values instead. This is observably the same, because the next write through `filterMenu` replaces `filteredMenu` with a new array.
- The `forEach` callbacks are modelled as the methods `VisitSection` and `VisitSubsection`, each with the loop over its list. The component's other members are not modelled because they do not touch the menu: the Angular decorator, change detection and the template.
- Level-1 ids are the JavaScript number `index`, as in the code, so `Id` has a numeric case. The anchor a level-1 entry names is the text of that number, "0" for the first section, which `Anchor` gives.
- Every node is assumed to carry a string title: titles are typed `string`. In the source (src/app/nav/nav.component.ts:14,17,24) a node without a title is copied with the title `undefined`, and every later `filterMenu` call, the empty query included, then throws at `menuItem.title.toLowerCase()` (line 41). That error path is not part of this model.
- Only titles and the subsection lists of the content tree are modelled. The do/avoid/why lists, discussions, sidebars and code samples are not read by the builder.
- The prettier pipe, the title and app components and the application module are not part of this model.
