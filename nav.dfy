/** The navigation component: the full menu, the menu currently shown, the
    setter that appends a content tree's entries, and the title filter. */
module Nav {
  import opened ContentTree
  import opened MenuIds
  import opened MenuBuilder
  import opened MenuFilter

  class NavComponent {
    var menu: seq<Entry>
    var filteredMenu: seq<Entry>

    constructor ()
      ensures menu == [] && filteredMenu == []
    {
      menu := [];
      filteredMenu := [];
    }

    /** The `styleGuides` input setter: appends one entry per section,
        subsection and rule, in document order, then shows the whole menu. */
    method SetStyleGuides(data: seq<Section>)
      requires WellFormed(data)
      modifies this
      ensures menu == old(menu) + Menu(data)
      ensures filteredMenu == menu
    {
      var index := 0;
      while index < |data|
        invariant 0 <= index <= |data|
        invariant AllValid(data, SectionsPaths(data, index))
        invariant menu == old(menu) + Entries(data, SectionsPaths(data, index))
      {
        ghost var before := menu;
        VisitSection(data, index);
        EntriesAppend(data, old(menu), before, SectionsPaths(data, index), SectionPaths(index, data[index]));
        index := index + 1;
      }
      filteredMenu := menu;
    }

    /** The setter's callback for section `index`: its entry, then what each
        of its subsections contributes. */
    method VisitSection(data: seq<Section>, index: nat)
      requires WellFormed(data) && index < |data|
      modifies this
      ensures AllValid(data, SectionPaths(index, data[index]))
      ensures menu == old(menu) + Entries(data, SectionPaths(index, data[index]))
      ensures filteredMenu == old(filteredMenu)
    {
      var mainSection := data[index];
      ghost var visited: seq<seq<nat>> := [];
      var entry := Entry(mainSection.title, 1, Num(index));
      SectionNode(data, index);
      VisitStep(data, visited, [index], old(menu), menu, entry);
      menu := menu + [entry];
      visited := visited + [[index]];
      var subs := mainSection.sections.value;
      var subIndex := 0;
      while subIndex < |subs|
        invariant 0 <= subIndex <= |subs|
        invariant visited == [[index]] + SubsectionsPaths(index, subs, subIndex)
        invariant AllValid(data, visited)
        invariant menu == old(menu) + Entries(data, visited)
        invariant filteredMenu == old(filteredMenu)
      {
        ghost var before := menu;
        VisitSubsection(data, index, subIndex);
        EntriesAppend(data, old(menu), before, visited, SubsectionPaths(index, subIndex, subs[subIndex]));
        visited := visited + SubsectionPaths(index, subIndex, subs[subIndex]);
        subIndex := subIndex + 1;
      }
    }

    /** The callback for subsection `subIndex` of section `index`: its entry,
        then one entry per rule when the `rules` field is present. */
    method VisitSubsection(data: seq<Section>, index: nat, subIndex: nat)
      requires index < |data| && data[index].sections.Some?
      requires subIndex < |data[index].sections.value|
      modifies this
      ensures AllValid(data, SubsectionPaths(index, subIndex, data[index].sections.value[subIndex]))
      ensures menu == old(menu) + Entries(data, SubsectionPaths(index, subIndex, data[index].sections.value[subIndex]))
      ensures filteredMenu == old(filteredMenu)
    {
      var subSection := data[index].sections.value[subIndex];
      ghost var visited: seq<seq<nat>> := [];
      var entry := Entry(subSection.title, 2, Text(Decimal(index) + "-" + Decimal(subIndex)));
      SubsectionNode(data, index, subIndex);
      VisitStep(data, visited, [index, subIndex], old(menu), menu, entry);
      menu := menu + [entry];
      visited := visited + [[index, subIndex]];
      match subSection.rules {
        case Some(rules) =>
          var ruleIndex := 0;
          while ruleIndex < |rules|
            invariant 0 <= ruleIndex <= |rules|
            invariant visited == [[index, subIndex]] + RulePaths(index, subIndex, ruleIndex)
            invariant AllValid(data, visited)
            invariant menu == old(menu) + Entries(data, visited)
            invariant filteredMenu == old(filteredMenu)
          {
            var rule := rules[ruleIndex];
            var entry := Entry(rule.title, 3, Text(Decimal(index) + "-" + Decimal(subIndex) + "-" + Decimal(ruleIndex)));
            RuleNode(data, index, subIndex, ruleIndex);
            VisitStep(data, visited, [index, subIndex, ruleIndex], old(menu), menu, entry);
            menu := menu + [entry];
            visited := visited + [[index, subIndex, ruleIndex]];
            ruleIndex := ruleIndex + 1;
          }
        case None =>
      }
    }

    /** `filterMenu`: recomputes the shown menu from the full menu. */
    method FilterMenu(query: string)
      modifies this
      ensures menu == old(menu)
      ensures filteredMenu == Filter(menu, query)
    {
      filteredMenu := Filter(menu, query);
    }
  }

  /** A fresh component given a content tree and then two queries shows the
      second query's matches among the whole menu: queries do not compound. */
  method QueriesDoNotCompound(data: seq<Section>, first: string, second: string) returns (shown: seq<Entry>)
    requires WellFormed(data)
    ensures shown == Filter(Menu(data), second)
  {
    var nav := new NavComponent();
    nav.SetStyleGuides(data);
    assert nav.menu == Menu(data);
    nav.FilterMenu(first);
    nav.FilterMenu(second);
    shown := nav.filteredMenu;
  }

  /** Clearing the query after any query shows the whole menu again. */
  method ClearingRestoresMenu(data: seq<Section>, query: string) returns (shown: seq<Entry>)
    requires WellFormed(data)
    ensures shown == Menu(data)
  {
    var nav := new NavComponent();
    nav.SetStyleGuides(data);
    nav.FilterMenu(query);
    nav.FilterMenu("");
    FilterEmptyQuery(nav.menu);
    shown := nav.filteredMenu;
  }

  /** Setting the input twice keeps the first tree's entries and appends the
      second's; filtering the result filters each tree's entries on their
      own, so the first tree's matches stay in front. */
  method SetTwice(first: seq<Section>, second: seq<Section>, query: string) returns (full: seq<Entry>, shown: seq<Entry>)
    requires WellFormed(first) && WellFormed(second)
    ensures full == Menu(first) + Menu(second)
    ensures shown == Filter(Menu(first), query) + Filter(Menu(second), query)
  {
    var nav := new NavComponent();
    nav.SetStyleGuides(first);
    nav.SetStyleGuides(second);
    nav.FilterMenu(query);
    FilterAppend(Menu(first), Menu(second), query);
    full, shown := nav.menu, nav.filteredMenu;
  }
}
