/** Concrete content trees and the menus built from them: the style guide
    the application ships, and a four-node tree with two queries. */
module Fixtures {
  import opened ContentTree
  import opened MenuIds
  import opened MenuBuilder
  import opened MenuFilter

  /** A subsection that carries only a title. */
  function Leaf(title: string): Subsection
  {
    Subsection(title, None, [])
  }

  /** The titles of the shipped style guide in document order: the section,
      the first subsection, its eight rules, the second subsection and the
      two subsections nested under it. */
  function ShippedTitles(): seq<string>
  {
    [ "Functional Reactive Angular Style Guide",
      "Local State for Component",
      "ComponentStore as a backing store for each (smart) component",
      "Consolidate all independent state in component store",
      "Inputs",
      "Values acquired from services",
      "Derived state as observables using selectors",
      "View Model",
      "Single async pipe ",
      "Avoid subscribing to observables in components as much as possible",
      "Shared state using service extending ComponentStore",
      "Use a service extending ComponentStore for shared state",
      "Continue to use @ngrx/store to manage global application state" ]
  }

  /** A tree shaped like the shipped guide, reduced to what the builder
      reads: one section whose first subsection has eight rules and whose
      second subsection has no `rules` field but two nested subsections. */
  function GuideShape(t: seq<string>): seq<Section>
    requires |t| == 13
  {
    [ Section(t[0], Some([
        Subsection(t[1], Some(seq(8, r requires 0 <= r < 8 => Rule(t[2 + r]))), []),
        Subsection(t[10], None, [Leaf(t[11]), Leaf(t[12])]) ])) ]
  }

  /** The shipped style guide. */
  function Guide(): seq<Section>
  {
    GuideShape(ShippedTitles())
  }

  /** The decimal renderings the fixtures' ids use. */
  lemma SmallDecimals()
    ensures Decimal(0) == "0" && Decimal(1) == "1" && Decimal(7) == "7"
  {
  }

  /** The ids of the guide's entries as the template renders them. */
  lemma GuideIds()
    ensures IdOf([0, 0]) == Text("0-0") && IdOf([0, 1]) == Text("0-1")
    ensures IdOf([0, 0, 0]) == Text("0-0-0") && IdOf([0, 0, 7]) == Text("0-0-7")
  {
    SmallDecimals();
    TemplateIds(0, 0, 0);
    TemplateIds(0, 1, 7);
    TemplateIds(0, 0, 7);
  }

  /** Where the guide-shaped tree's entries stand: its first subsection
      after the section, its second after the first's eight rules. */
  lemma GuideOffsets(t: seq<string>)
    requires |t| == 13
    ensures WellFormed(GuideShape(t))
    ensures RuleCount(GuideShape(t)[0].sections.value[0]) == 8
    ensures RuleCount(GuideShape(t)[0].sections.value[1]) == 0
    ensures SubsectionOffset(GuideShape(t), 0, 0) == 1
    ensures SubsectionOffset(GuideShape(t), 0, 1) == 10
    ensures Count(GuideShape(t)) == 11
  {
  }

  lemma GuideFirstSubsection(t: seq<string>)
    requires |t| == 13
    ensures WellFormed(GuideShape(t)) && |Menu(GuideShape(t))| == 11
    ensures Menu(GuideShape(t))[1] == Entry(t[1], 2, Text("0-0"))
  {
    GuideIds();
    GuideOffsets(t);
    MenuLength(GuideShape(t));
    SubsectionEntries(GuideShape(t), 0, 0);
  }

  /** The r-th rule of the guide's first subsection. */
  lemma GuideRule(t: seq<string>, r: nat)
    requires |t| == 13 && r < 8
    ensures WellFormed(GuideShape(t)) && |Menu(GuideShape(t))| == 11
    ensures Menu(GuideShape(t))[2 + r] == Entry(t[2 + r], 3, IdOf([0, 0, r]))
  {
    var data := GuideShape(t);
    GuideOffsets(t);
    MenuLength(data);
    SubsectionEntries(data, 0, 0);
    assert Menu(data)[SubsectionOffset(data, 0, 0) + 1 + r] == Menu(data)[2 + r];
  }

  lemma GuideSecondSubsection(t: seq<string>)
    requires |t| == 13
    ensures WellFormed(GuideShape(t)) && |Menu(GuideShape(t))| == 11
    ensures Menu(GuideShape(t))[10] == Entry(t[10], 2, Text("0-1"))
  {
    GuideIds();
    GuideOffsets(t);
    MenuLength(GuideShape(t));
    SubsectionEntries(GuideShape(t), 0, 1);
  }

  /** The ids of the first and the last rule of the guide's first
      subsection. */
  lemma GuideRuleIds(t: seq<string>)
    requires |t| == 13
    ensures WellFormed(GuideShape(t)) && |Menu(GuideShape(t))| == 11
    ensures Menu(GuideShape(t))[2].id == Text("0-0-0") && Menu(GuideShape(t))[9].id == Text("0-0-7")
  {
    GuideIds();
    GuideRule(t, 0);
    GuideRule(t, 7);
  }

  /** A guide-shaped tree yields eleven entries: the section, the first
      subsection, its eight rules (GuideRule), then the second subsection
      alone, last; the nested subsections of the second one get no entry. */
  lemma GuideMenu(t: seq<string>)
    requires |t| == 13
    ensures WellFormed(GuideShape(t))
    ensures |Menu(GuideShape(t))| == 11
    ensures Menu(GuideShape(t))[0] == Entry(t[0], 1, Num(0))
    ensures Menu(GuideShape(t))[1] == Entry(t[1], 2, Text("0-0"))
    ensures Menu(GuideShape(t))[10] == Entry(t[10], 2, Text("0-1"))
  {
    GuideOffsets(t);
    SectionEntry(GuideShape(t), 0);
    GuideFirstSubsection(t);
    GuideSecondSubsection(t);
  }

  /** The shipped guide's menu has eleven entries; the last is the second
      subsection, with id "0-1". */
  lemma ShippedGuideMenu()
    ensures WellFormed(Guide())
    ensures |Menu(Guide())| == 11
    ensures Menu(Guide())[10] == Entry(ShippedTitles()[10], 2, Text("0-1"))
  {
    GuideMenu(ShippedTitles());
  }

  /** A section with one subsection holding two rules. */
  function Small(): seq<Section>
  {
    [Section("A", Some([Subsection("B", Some([Rule("C"), Rule("D")]), [])]))]
  }

  function SmallMenu(): seq<Entry>
  {
    [ Entry("A", 1, Num(0)),
      Entry("B", 2, Text("0-0")),
      Entry("C", 3, Text("0-0-0")),
      Entry("D", 3, Text("0-0-1")) ]
  }

  lemma SmallPaths()
    ensures WellFormed(Small())
    ensures Paths(Small()) == [[0], [0, 0], [0, 0, 0], [0, 0, 1]]
  {
    var data := Small();
    var subs := data[0].sections.value;
    assert RulePaths(0, 0, 2) == [[0, 0, 0], [0, 0, 1]];
    assert SubsectionsPaths(0, subs, 1) == [[0, 0], [0, 0, 0], [0, 0, 1]];
  }

  /** The small tree's menu is the four entries in document order. */
  lemma SmallMenuBuilt()
    ensures WellFormed(Small())
    ensures Menu(Small()) == SmallMenu()
  {
    SmallPaths();
    TemplateIds(0, 0, 0);
    TemplateIds(0, 0, 1);
    SmallDecimals();
    var m := Menu(Small());
    assert m[0] == SmallMenu()[0] && m[1] == SmallMenu()[1];
    assert m[2] == SmallMenu()[2] && m[3] == SmallMenu()[3];
  }

  /** A one-letter title contains a one-letter query exactly when the
      letters agree. */
  lemma OneLetter(a: char, b: char)
    ensures Contains([a], [b]) <==> a == b
  {
    assert [a][..1] == [a] && [a][1..] == [];
    assert !Contains([], [b]);
  }

  /** Filtering the small menu goes entry by entry. */
  lemma SmallFilterSplit(q: string)
    ensures var m := SmallMenu();
      Filter(m, q) == Filter([m[0]], q) + Filter([m[1]], q) + Filter([m[2]], q) + Filter([m[3]], q)
  {
    var m := SmallMenu();
    assert m == [m[0]] + [m[1]] + [m[2]] + [m[3]];
    FilterAppend([m[0]] + [m[1]] + [m[2]], [m[3]], q);
    FilterAppend([m[0]] + [m[1]], [m[2]], q);
    FilterAppend([m[0]], [m[1]], q);
  }

  /** Only C matches "c", whatever the case of its title; nothing matches "z". */
  lemma SmallMatches()
    ensures var m := SmallMenu();
      && !Matches(m[0], "c") && !Matches(m[1], "c") && Matches(m[2], "c") && !Matches(m[3], "c")
      && !Matches(m[0], "z") && !Matches(m[1], "z") && !Matches(m[2], "z") && !Matches(m[3], "z")
  {
    assert Lower("c") == "c" && Lower("z") == "z";
    assert Lower("A") == "a" && Lower("B") == "b" && Lower("C") == "c" && Lower("D") == "d";
    forall a, b | a in "abcd" && b in "cz" ensures Contains([a], [b]) <==> a == b {
      OneLetter(a, b);
    }
  }

  /** Querying "c" shows only rule C: the match is case-insensitive and the
      non-matching ancestors are dropped. Querying "z" matches nothing and
      shows an empty menu, not an error. */
  lemma SmallQueries()
    ensures WellFormed(Small())
    ensures Filter(Menu(Small()), "c") == [Entry("C", 3, Text("0-0-0"))]
    ensures Filter(Menu(Small()), "z") == []
  {
    SmallMenuBuilt();
    var m := SmallMenu();
    SmallMatches();
    SmallFilterSplit("c");
    SmallFilterSplit("z");
    FilterSingle(m[0], "c"); FilterSingle(m[1], "c"); FilterSingle(m[2], "c"); FilterSingle(m[3], "c");
    FilterSingle(m[0], "z"); FilterSingle(m[1], "z"); FilterSingle(m[2], "z"); FilterSingle(m[3], "z");
  }
}
