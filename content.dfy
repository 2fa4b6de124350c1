/** The content tree the navigation menu is built from: top sections, their
    subsections, and the rules of a subsection. Only what the menu builder
    reads is modelled; discussions, do/avoid/why lists, sidebars and code
    samples are not part of this model. */
module ContentTree {

  datatype Option<T> = None | Some(value: T)

  /** A rule of a subsection; the builder reads only its title. */
  datatype Rule = Rule(title: string)

  /** A subsection. `rules` is None when the field is absent. Some content
      carries a further nested list of subsections in `sections`; the
      builder never looks at it. */
  datatype Subsection = Subsection(title: string, rules: Option<seq<Rule>>, sections: seq<Subsection>)

  /** A top section; `sections` is None when the field is absent. */
  datatype Section = Section(title: string, sections: Option<seq<Subsection>>)

  /** Number of rules the builder visits under a subsection: none when the
      field is absent. */
  function RuleCount(sub: Subsection): nat
  {
    match sub.rules
    case Some(rules) => |rules|
    case None => 0
  }

  /** Every top section carries its list of subsections; the builder reads
      that field without a guard. */
  predicate WellFormed(data: seq<Section>)
  {
    forall i | 0 <= i < |data| :: data[i].sections.Some?
  }
}
