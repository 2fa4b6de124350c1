/** What the menu builder produces, stated on values: the entries of the
    content tree's nodes, listed in document pre-order of their positions. */
module MenuBuilder {
  import opened ContentTree
  import opened MenuIds
  import opened Preorder

  /** One navigation entry: the node's title, its depth, its id. */
  datatype Entry = Entry(title: string, level: nat, id: Id)

  /** p is the position of a subsection or of one of its rules, below
      section i whose subsections are subs. */
  predicate InSubsections(i: nat, subs: seq<Subsection>, p: seq<nat>)
  {
    2 <= |p| <= 3 && p[0] == i && p[1] < |subs| &&
    (|p| == 3 ==> p[2] < RuleCount(subs[p[1]]))
  }

  /** p is the position of a node the builder visits: a section, one of its
      subsections, or a rule of a subsection whose `rules` field is present. */
  predicate ValidPath(data: seq<Section>, p: seq<nat>)
  {
    1 <= |p| <= 3 && p[0] < |data| &&
    (|p| >= 2 ==> data[p[0]].sections.Some? && InSubsections(p[0], data[p[0]].sections.value, p))
  }

  ghost function TitleAt(data: seq<Section>, p: seq<nat>): string
    requires ValidPath(data, p)
  {
    var section := data[p[0]];
    if |p| == 1 then section.title
    else
      var sub := section.sections.value[p[1]];
      if |p| == 2 then sub.title else sub.rules.value[p[2]].title
  }

  /** The entry for the node at position p. */
  ghost function NodeAt(data: seq<Section>, p: seq<nat>): Entry
    requires ValidPath(data, p)
  {
    Entry(TitleAt(data, p), |p|, IdOf(p))
  }

  // The positions the builder visits, in the order it visits them.

  /** The first n rules of subsection j of section i. */
  ghost function RulePaths(i: nat, j: nat, n: nat): seq<seq<nat>>
  {
    if n == 0 then [] else RulePaths(i, j, n - 1) + [[i, j, n - 1]]
  }

  ghost function SubsectionPaths(i: nat, j: nat, sub: Subsection): seq<seq<nat>>
  {
    [[i, j]] + RulePaths(i, j, RuleCount(sub))
  }

  /** The first m subsections of section i, whose subsections are subs. */
  ghost function SubsectionsPaths(i: nat, subs: seq<Subsection>, m: nat): seq<seq<nat>>
    requires m <= |subs|
    decreases m
  {
    if m == 0 then [] else SubsectionsPaths(i, subs, m - 1) + SubsectionPaths(i, m - 1, subs[m - 1])
  }

  ghost function SectionPaths(i: nat, section: Section): seq<seq<nat>>
    requires section.sections.Some?
  {
    [[i]] + SubsectionsPaths(i, section.sections.value, |section.sections.value|)
  }

  /** The first m sections of the tree. */
  ghost function SectionsPaths(data: seq<Section>, m: nat): seq<seq<nat>>
    requires WellFormed(data) && m <= |data|
    decreases m
  {
    if m == 0 then [] else SectionsPaths(data, m - 1) + SectionPaths(m - 1, data[m - 1])
  }

  ghost function Paths(data: seq<Section>): seq<seq<nat>>
    requires WellFormed(data)
  {
    SectionsPaths(data, |data|)
  }

  /** The number of entries the first m subsections contribute: one per
      subsection and one per rule of it. */
  function SubsectionsCount(subs: seq<Subsection>, m: nat): nat
    requires m <= |subs|
    decreases m
  {
    if m == 0 then 0 else SubsectionsCount(subs, m - 1) + 1 + RuleCount(subs[m - 1])
  }

  /** The number of entries the first m sections contribute: one per section
      plus what its subsections contribute. */
  function SectionsCount(data: seq<Section>, m: nat): nat
    requires WellFormed(data) && m <= |data|
    decreases m
  {
    if m == 0 then 0
    else
      var subs := data[m - 1].sections.value;
      SectionsCount(data, m - 1) + 1 + SubsectionsCount(subs, |subs|)
  }

  function Count(data: seq<Section>): nat
    requires WellFormed(data)
  {
    SectionsCount(data, |data|)
  }

  /** Every position listed in ps is one the builder visits. */
  ghost predicate AllValid(data: seq<Section>, ps: seq<seq<nat>>)
  {
    forall x | 0 <= x < |ps| :: ValidPath(data, ps[x])
  }

  ghost function Entries(data: seq<Section>, ps: seq<seq<nat>>): seq<Entry>
    requires AllValid(data, ps)
  {
    seq(|ps|, x requires 0 <= x < |ps| => NodeAt(data, ps[x]))
  }

  /** The menu built from a content tree. */
  ghost function Menu(data: seq<Section>): seq<Entry>
    requires WellFormed(data)
  {
    SectionsPathsValid(data, |data|);
    Entries(data, Paths(data))
  }

  /** Visiting one more position appends that node's entry. */
  lemma EntriesSnoc(data: seq<Section>, ps: seq<seq<nat>>, p: seq<nat>)
    requires AllValid(data, ps)
    requires ValidPath(data, p)
    ensures AllValid(data, ps + [p])
    ensures Entries(data, ps + [p]) == Entries(data, ps) + [NodeAt(data, p)]
  {
    forall x | 0 <= x < |ps + [p]| ensures ValidPath(data, (ps + [p])[x]) {
      if x < |ps| {
        assert (ps + [p])[x] == ps[x];
      }
    }
  }

  /** Visiting a further block of positions appends their entries. */
  lemma EntriesAppend(data: seq<Section>, start: seq<Entry>, menu: seq<Entry>,
                      visited: seq<seq<nat>>, block: seq<seq<nat>>)
    requires AllValid(data, visited) && AllValid(data, block)
    requires menu == start + Entries(data, visited)
    ensures AllValid(data, visited + block)
    ensures menu + Entries(data, block) == start + Entries(data, visited + block)
  {
    var ps := visited + block;
    forall x | 0 <= x < |ps| ensures ValidPath(data, ps[x]) {
      if x < |visited| {
        assert ps[x] == visited[x];
      } else {
        assert ps[x] == block[x - |visited|];
      }
    }
    assert Entries(data, ps) == Entries(data, visited) + Entries(data, block);
  }

  /** The entries the setter writes for a section, a subsection and a rule
      are the entries of those nodes. */
  lemma SectionNode(data: seq<Section>, i: nat)
    requires i < |data|
    ensures ValidPath(data, [i])
    ensures NodeAt(data, [i]) == Entry(data[i].title, 1, Num(i))
  {
  }

  lemma SubsectionNode(data: seq<Section>, i: nat, j: nat)
    requires i < |data| && data[i].sections.Some? && j < |data[i].sections.value|
    ensures ValidPath(data, [i, j])
    ensures NodeAt(data, [i, j]) == Entry(data[i].sections.value[j].title, 2, Text(Decimal(i) + "-" + Decimal(j)))
  {
    TemplateIds(i, j, 0);
  }

  lemma RuleNode(data: seq<Section>, i: nat, j: nat, k: nat)
    requires i < |data| && data[i].sections.Some? && j < |data[i].sections.value|
    requires data[i].sections.value[j].rules.Some? && k < |data[i].sections.value[j].rules.value|
    ensures ValidPath(data, [i, j, k])
    ensures NodeAt(data, [i, j, k]) ==
      Entry(data[i].sections.value[j].rules.value[k].title, 3, Text(Decimal(i) + "-" + Decimal(j) + "-" + Decimal(k)))
  {
    TemplateIds(i, j, k);
  }

  /** One step of the builder: appending the entry of a further visited
      node keeps the menu equal to the entries visited so far. */
  lemma VisitStep(data: seq<Section>, visited: seq<seq<nat>>, p: seq<nat>,
                  start: seq<Entry>, menu: seq<Entry>, e: Entry)
    requires AllValid(data, visited) && ValidPath(data, p) && NodeAt(data, p) == e
    requires menu == start + Entries(data, visited)
    ensures AllValid(data, visited + [p])
    ensures menu + [e] == start + Entries(data, visited + [p])
  {
    EntriesSnoc(data, visited, p);
  }

  // Facts about each level of the visit.

  lemma {:induction false} RulePathsAt(i: nat, j: nat, n: nat)
    ensures |RulePaths(i, j, n)| == n
    ensures forall r | 0 <= r < n :: RulePaths(i, j, n)[r] == [i, j, r]
  {
    if n > 0 {
      RulePathsAt(i, j, n - 1);
    }
  }

  lemma {:induction false} SubsectionsPathsValid(i: nat, subs: seq<Subsection>, m: nat)
    requires m <= |subs|
    ensures forall x | 0 <= x < |SubsectionsPaths(i, subs, m)| ::
      InSubsections(i, subs, SubsectionsPaths(i, subs, m)[x]) && SubsectionsPaths(i, subs, m)[x][1] < m
    decreases m
  {
    if m > 0 {
      var n := m - 1;
      var front, block := SubsectionsPaths(i, subs, n), SubsectionPaths(i, n, subs[n]);
      var ps := SubsectionsPaths(i, subs, m);
      SubsectionsPathsValid(i, subs, n);
      RulePathsAt(i, n, RuleCount(subs[n]));
      forall x | 0 <= x < |ps| ensures InSubsections(i, subs, ps[x]) && ps[x][1] < m {
        if x < |front| {
          assert ps[x] == front[x];
        } else {
          assert ps[x] == block[x - |front|];
        }
      }
    }
  }

  /** Within subsection j, its own position comes first and its rules follow
      in index order. */
  lemma SubsectionPathsIncreasing(i: nat, j: nat, sub: Subsection)
    ensures Increasing(SubsectionPaths(i, j, sub))
  {
    var block := SubsectionPaths(i, j, sub);
    RulePathsAt(i, j, RuleCount(sub));
    forall a, b | 0 <= a < b < |block| ensures Before(block[a], block[b]) {
      assert block[b] == [i, j, b - 1];
      if a == 0 {
        assert block[b][..2] == [i, j];
        BeforeExtension(block[a], block[b]);
      } else {
        assert block[a] == [i, j, a - 1];
        assert block[a][..2] == block[b][..2];
        BeforeAt(block[a], block[b], 2);
      }
    }
  }

  lemma {:induction false} SubsectionsPathsIncreasing(i: nat, subs: seq<Subsection>, m: nat)
    requires m <= |subs|
    ensures Increasing(SubsectionsPaths(i, subs, m))
    decreases m
  {
    if m > 0 {
      var n := m - 1;
      var front, block := SubsectionsPaths(i, subs, n), SubsectionPaths(i, n, subs[n]);
      SubsectionsPathsIncreasing(i, subs, n);
      SubsectionsPathsValid(i, subs, n);
      SubsectionPathsIncreasing(i, n, subs[n]);
      RulePathsAt(i, n, RuleCount(subs[n]));
      forall a, b | 0 <= a < |front| && 0 <= b < |block| ensures Before(front[a], block[b]) {
        assert InSubsections(i, subs, front[a]) && front[a][1] < n;
        assert block[b][..2] == [i, n];
        assert front[a][..1] == [i] == block[b][..1];
        BeforeAt(front[a], block[b], 1);
      }
      IncreasingConcat(front, block);
    }
  }

  lemma {:induction false} SubsectionsPathsComplete(i: nat, subs: seq<Subsection>, m: nat)
    requires m <= |subs|
    ensures forall p | InSubsections(i, subs, p) && p[1] < m :: p in SubsectionsPaths(i, subs, m)
    decreases m
  {
    if m > 0 {
      var n := m - 1;
      var front, block := SubsectionsPaths(i, subs, n), SubsectionPaths(i, n, subs[n]);
      SubsectionsPathsComplete(i, subs, n);
      RulePathsAt(i, n, RuleCount(subs[n]));
      forall p | InSubsections(i, subs, p) && p[1] < m ensures p in SubsectionsPaths(i, subs, m) {
        if p[1] < n {
          assert p in front;
        } else if |p| == 2 {
          assert p == [i, n] == block[0];
        } else {
          assert p == [i, n, p[2]] == block[1 + p[2]];
        }
      }
    }
  }

  lemma {:induction false} SubsectionsPathsCount(i: nat, subs: seq<Subsection>, m: nat)
    requires m <= |subs|
    ensures |SubsectionsPaths(i, subs, m)| == SubsectionsCount(subs, m)
    decreases m
  {
    if m > 0 {
      SubsectionsPathsCount(i, subs, m - 1);
      RulePathsAt(i, m - 1, RuleCount(subs[m - 1]));
    }
  }

  /** The k-th position of the visit of one subsection: its own position,
      then the positions of its rules. */
  lemma SubsectionPathsAt(i: nat, j: nat, sub: Subsection, k: nat)
    requires k <= RuleCount(sub)
    ensures k < |SubsectionPaths(i, j, sub)|
    ensures SubsectionPaths(i, j, sub)[k] == if k == 0 then [i, j] else [i, j, k - 1]
  {
    RulePathsAt(i, j, RuleCount(sub));
    if k > 0 {
      assert SubsectionPaths(i, j, sub)[k] == RulePaths(i, j, RuleCount(sub))[k - 1];
    }
  }

  /** The concatenation of the first m blocks. */
  ghost function Flatten<T>(blocks: seq<seq<T>>, m: nat): seq<T>
    requires m <= |blocks|
    decreases m
  {
    if m == 0 then [] else Flatten(blocks, m - 1) + blocks[m - 1]
  }

  /** Element k of block j stands after the first j blocks in every longer
      concatenation. */
  lemma {:induction false} FlattenAt<T>(blocks: seq<seq<T>>, j: nat, k: nat, m: nat)
    requires j < m <= |blocks| && k < |blocks[j]|
    ensures |Flatten(blocks, j)| + k < |Flatten(blocks, m)|
    ensures Flatten(blocks, m)[|Flatten(blocks, j)| + k] == blocks[j][k]
    decreases m
  {
    if m > j + 1 {
      FlattenAt(blocks, j, k, m - 1);
    }
  }

  /** The visits of the subsections of section i, one block each. */
  ghost function SubsectionBlocks(i: nat, subs: seq<Subsection>): seq<seq<seq<nat>>>
  {
    seq(|subs|, j requires 0 <= j < |subs| => SubsectionPaths(i, j, subs[j]))
  }

  lemma {:induction false} SubsectionsPathsFlatten(i: nat, subs: seq<Subsection>, m: nat)
    requires m <= |subs|
    ensures SubsectionsPaths(i, subs, m) == Flatten(SubsectionBlocks(i, subs), m)
    decreases m
  {
    if m > 0 {
      var blocks := SubsectionBlocks(i, subs);
      SubsectionsPathsFlatten(i, subs, m - 1);
      assert blocks[m - 1] == SubsectionPaths(i, m - 1, subs[m - 1]);
      assert Flatten(blocks, m) == Flatten(blocks, m - 1) + blocks[m - 1];
    }
  }

  /** The visit of subsection j among the positions of all of subs. */
  lemma SubsectionsPathsAt(i: nat, subs: seq<Subsection>, j: nat, k: nat)
    requires j < |subs| && k < |SubsectionPaths(i, j, subs[j])|
    ensures |SubsectionsPaths(i, subs, j)| + k < |SubsectionsPaths(i, subs, |subs|)|
    ensures SubsectionsPaths(i, subs, |subs|)[|SubsectionsPaths(i, subs, j)| + k] == SubsectionPaths(i, j, subs[j])[k]
  {
    var blocks := SubsectionBlocks(i, subs);
    var x := |SubsectionsPaths(i, subs, j)| + k;
    SubsectionsPathsFlatten(i, subs, j);
    SubsectionsPathsFlatten(i, subs, |subs|);
    assert blocks[j] == SubsectionPaths(i, j, subs[j]);
    assert x == |Flatten(blocks, j)| + k;
    FlattenAt(blocks, j, k, |subs|);
    assert Flatten(blocks, |subs|)[x] == blocks[j][k];
  }

  lemma {:induction false} SectionsPathsValid(data: seq<Section>, m: nat)
    requires WellFormed(data) && m <= |data|
    ensures forall x | 0 <= x < |SectionsPaths(data, m)| ::
      ValidPath(data, SectionsPaths(data, m)[x]) && SectionsPaths(data, m)[x][0] < m
    decreases m
  {
    if m > 0 {
      var n := m - 1;
      var front := SectionsPaths(data, n);
      var subs := data[n].sections.value;
      var rest := SubsectionsPaths(n, subs, |subs|);
      var ps := SectionsPaths(data, m);
      SectionsPathsValid(data, n);
      SubsectionsPathsValid(n, subs, |subs|);
      forall x | 0 <= x < |ps| ensures ValidPath(data, ps[x]) && ps[x][0] < m {
        if x < |front| {
          assert ps[x] == front[x];
        } else if x > |front| {
          assert ps[x] == rest[x - |front| - 1];
        }
      }
    }
  }

  lemma {:induction false} SectionsPathsIncreasing(data: seq<Section>, m: nat)
    requires WellFormed(data) && m <= |data|
    ensures Increasing(SectionsPaths(data, m))
    decreases m
  {
    if m > 0 {
      var n := m - 1;
      var front, block := SectionsPaths(data, n), SectionPaths(n, data[n]);
      var subs := data[n].sections.value;
      var rest := SubsectionsPaths(n, subs, |subs|);
      SectionsPathsIncreasing(data, n);
      SectionsPathsValid(data, n);
      SubsectionsPathsIncreasing(n, subs, |subs|);
      SubsectionsPathsValid(n, subs, |subs|);
      forall a, b | 0 <= a < b < |block| ensures Before(block[a], block[b]) {
        assert block[b] == rest[b - 1];
        assert InSubsections(n, subs, rest[b - 1]);
        if a == 0 {
          assert block[b][..1] == [n];
          BeforeExtension(block[a], block[b]);
        } else {
          assert block[a] == rest[a - 1];
        }
      }
      forall a, b | 0 <= a < |front| && 0 <= b < |block| ensures Before(front[a], block[b]) {
        assert front[a][0] < n;
        if b > 0 {
          assert block[b] == rest[b - 1];
          assert InSubsections(n, subs, rest[b - 1]);
        }
      }
      IncreasingConcat(front, block);
    }
  }

  /** Every position the builder visits below one of the first m sections
      is among the positions visited for them. */
  lemma {:induction false} SectionsPathsMember(data: seq<Section>, m: nat, p: seq<nat>)
    requires WellFormed(data) && m <= |data| && ValidPath(data, p) && p[0] < m
    ensures p in SectionsPaths(data, m)
    decreases m
  {
    var n := m - 1;
    var subs := data[n].sections.value;
    var front, block := SectionsPaths(data, n), SectionPaths(n, data[n]);
    assert SectionsPaths(data, m) == front + block;
    if p[0] < n {
      SectionsPathsMember(data, n, p);
    } else if |p| == 1 {
      assert p == [n] == block[0];
    } else {
      SubsectionsPathsComplete(n, subs, |subs|);
      assert InSubsections(n, subs, p);
      assert p in SubsectionsPaths(n, subs, |subs|);
      assert p in block;
    }
  }

  lemma SectionsPathsComplete(data: seq<Section>, m: nat)
    requires WellFormed(data) && m <= |data|
    ensures forall p | ValidPath(data, p) && p[0] < m :: p in SectionsPaths(data, m)
  {
    forall p | ValidPath(data, p) && p[0] < m ensures p in SectionsPaths(data, m) {
      SectionsPathsMember(data, m, p);
    }
  }

  lemma {:induction false} SectionsPathsCount(data: seq<Section>, m: nat)
    requires WellFormed(data) && m <= |data|
    ensures |SectionsPaths(data, m)| == SectionsCount(data, m)
    decreases m
  {
    if m > 0 {
      var subs := data[m - 1].sections.value;
      SectionsPathsCount(data, m - 1);
      SubsectionsPathsCount(m - 1, subs, |subs|);
    }
  }

  /** The positions visited for the first m sections begin the positions
      visited for the first m' of them. */
  lemma {:induction false} SectionsPathsPrefixAt(data: seq<Section>, m: nat, m': nat, x: nat)
    requires WellFormed(data) && m <= m' <= |data| && x < |SectionsPaths(data, m)|
    ensures x < |SectionsPaths(data, m')|
    ensures SectionsPaths(data, m')[x] == SectionsPaths(data, m)[x]
    decreases m'
  {
    if m < m' {
      SectionsPathsPrefixAt(data, m, m' - 1, x);
    }
  }

  /** The visit of section i among all positions: its own position, then
      those of its subsections' visits. */
  lemma SectionsPathsAt(data: seq<Section>, i: nat, x: nat)
    requires WellFormed(data) && i < |data|
    requires x <= |SubsectionsPaths(i, data[i].sections.value, |data[i].sections.value|)|
    ensures |SectionsPaths(data, i)| + x < |Paths(data)|
    ensures Paths(data)[|SectionsPaths(data, i)| + x] ==
      if x == 0 then [i] else SubsectionsPaths(i, data[i].sections.value, |data[i].sections.value|)[x - 1]
  {
    var front := SectionsPaths(data, i);
    var upto := SectionsPaths(data, i + 1);
    assert upto == front + SectionPaths(i, data[i]);
    assert upto[|front| + x] == SectionPaths(i, data[i])[x];
    SectionsPathsPrefixAt(data, i + 1, |data|, |front| + x);
  }

  // What the menu is.

  /** The menu has one entry per section, per subsection, and per rule of a
      subsection whose `rules` field is present. */
  lemma MenuLength(data: seq<Section>)
    requires WellFormed(data)
    ensures |Menu(data)| == Count(data)
  {
    SectionsPathsCount(data, |data|);
  }

  /** The menu lists every node the builder visits exactly once, in strict
      document pre-order of positions, each entry carrying its node's title,
      its depth (1, 2 or 3) and the id of its position. */
  lemma MenuPreorder(data: seq<Section>)
    requires WellFormed(data)
    ensures |Menu(data)| == |Paths(data)|
    ensures Increasing(Paths(data))
    ensures forall p | ValidPath(data, p) :: p in Paths(data)
    ensures forall x | 0 <= x < |Paths(data)| :: ValidPath(data, Paths(data)[x])
    ensures forall x | 0 <= x < |Menu(data)| ::
      Menu(data)[x] == Entry(TitleAt(data, Paths(data)[x]), |Paths(data)[x]|, IdOf(Paths(data)[x]))
    ensures forall x | 0 <= x < |Menu(data)| :: 1 <= Menu(data)[x].level <= 3
  {
    SectionsPathsValid(data, |data|);
    SectionsPathsIncreasing(data, |data|);
    SectionsPathsComplete(data, |data|);
  }

  /** The entry at index x of the menu is the entry of the x-th visited
      position. */
  lemma MenuAt(data: seq<Section>, x: nat)
    requires WellFormed(data) && x < |Paths(data)|
    ensures |Menu(data)| == |Paths(data)|
    ensures ValidPath(data, Paths(data)[x]) && Menu(data)[x] == NodeAt(data, Paths(data)[x])
  {
    SectionsPathsValid(data, |data|);
  }

  /** Pre-order fixes the listing: any strictly increasing listing of exactly
      the visited positions is the builder's. */
  lemma PreorderListingUnique(data: seq<Section>, ps: seq<seq<nat>>)
    requires WellFormed(data)
    requires Increasing(ps)
    requires forall p :: p in ps <==> ValidPath(data, p)
    ensures ps == Paths(data)
  {
    MenuPreorder(data);
    forall p ensures p in ps <==> p in Paths(data) {
      if p in Paths(data) {
        var x :| 0 <= x < |Paths(data)| && Paths(data)[x] == p;
      }
    }
    IncreasingUnique(ps, Paths(data));
  }

  /** No two entries of one build share an id, nor the anchor text it names. */
  lemma MenuIdsDistinct(data: seq<Section>)
    requires WellFormed(data)
    ensures forall a, b | 0 <= a < |Menu(data)| && 0 <= b < |Menu(data)| && a != b ::
      Menu(data)[a].id != Menu(data)[b].id && Anchor(Menu(data)[a].id) != Anchor(Menu(data)[b].id)
  {
    MenuPreorder(data);
    var ps := Paths(data);
    forall a, b | 0 <= a < |Menu(data)| && 0 <= b < |Menu(data)| && a != b
      ensures Menu(data)[a].id != Menu(data)[b].id && Anchor(Menu(data)[a].id) != Anchor(Menu(data)[b].id)
    {
      IncreasingDistinct(ps, a, b);
      IdOfInjective(ps[a], ps[b]);
    }
  }

  /** Where the entry of subsection j of section i stands in the menu:
      after the earlier sections' entries, its section's entry and the
      earlier subsections' entries. */
  function SubsectionOffset(data: seq<Section>, i: nat, j: nat): nat
    requires WellFormed(data) && i < |data| && j < |data[i].sections.value|
  {
    SectionsCount(data, i) + 1 + SubsectionsCount(data[i].sections.value, j)
  }

  /** The k-th position of the visit of subsection j of section i, counted
      from the subsection's own position. */
  lemma PathsAtSubsection(data: seq<Section>, i: nat, j: nat, k: nat)
    requires WellFormed(data) && i < |data| && j < |data[i].sections.value|
    requires k <= RuleCount(data[i].sections.value[j])
    ensures SubsectionOffset(data, i, j) + k < |Paths(data)|
    ensures Paths(data)[SubsectionOffset(data, i, j) + k] == if k == 0 then [i, j] else [i, j, k - 1]
  {
    var subs := data[i].sections.value;
    var inner := SubsectionsPaths(i, subs, j);
    SubsectionPathsAt(i, j, subs[j], k);
    SubsectionsPathsAt(i, subs, j, k);
    SectionsPathsAt(data, i, 1 + |inner| + k);
    SectionsPathsCount(data, i);
    SubsectionsPathsCount(i, subs, j);
  }

  /** Subsection j of section i, when it is not the last subsection, is
      followed by subsection j + 1. */
  lemma PathsNextSubsection(data: seq<Section>, i: nat, j: nat)
    requires WellFormed(data) && i < |data| && j + 1 < |data[i].sections.value|
    ensures SubsectionOffset(data, i, j + 1) == SubsectionOffset(data, i, j) + 1 + RuleCount(data[i].sections.value[j])
    ensures SubsectionOffset(data, i, j + 1) < |Paths(data)|
    ensures Paths(data)[SubsectionOffset(data, i, j + 1)] == [i, j + 1]
  {
    PathsAtSubsection(data, i, j + 1, 0);
  }

  /** Section i's entries end where section i + 1's begin, or at the end of
      the menu when i is the last section. */
  lemma PathsNextSection(data: seq<Section>, i: nat)
    requires WellFormed(data) && i < |data|
    ensures i + 1 == |data| ==> SectionsCount(data, i + 1) == |Paths(data)|
    ensures i + 1 < |data| ==> SectionsCount(data, i + 1) < |Paths(data)|
    ensures i + 1 < |data| ==> Paths(data)[SectionsCount(data, i + 1)] == [i + 1]
  {
    SectionsPathsCount(data, i + 1);
    if i + 1 < |data| {
      SectionsPathsAt(data, i + 1, 0);
    }
  }

  /** The visit of subsection j of section i is followed by a subsection's
      or a section's position, or by nothing. */
  lemma PathsAfterSubsection(data: seq<Section>, i: nat, j: nat)
    requires WellFormed(data) && i < |data| && j < |data[i].sections.value|
    ensures SubsectionOffset(data, i, j) + 1 + RuleCount(data[i].sections.value[j]) <= |Paths(data)|
    ensures SubsectionOffset(data, i, j) + 1 + RuleCount(data[i].sections.value[j]) == |Paths(data)| ||
      |Paths(data)[SubsectionOffset(data, i, j) + 1 + RuleCount(data[i].sections.value[j])]| < 3
  {
    if j + 1 < |data[i].sections.value| {
      PathsNextSubsection(data, i, j);
    } else {
      assert SubsectionOffset(data, i, j) + 1 + RuleCount(data[i].sections.value[j]) == SectionsCount(data, i + 1);
      PathsNextSection(data, i);
    }
  }

  /** Section i's entry stands after everything the earlier sections
      contribute; its id is the number i. */
  lemma SectionEntry(data: seq<Section>, i: nat)
    requires WellFormed(data) && i < |data|
    ensures SectionsCount(data, i) < |Menu(data)|
    ensures Menu(data)[SectionsCount(data, i)] == Entry(data[i].title, 1, Num(i))
  {
    SectionsPathsAt(data, i, 0);
    SectionsPathsCount(data, i);
    MenuAt(data, SectionsCount(data, i));
  }

  /** The entry at the start of the visit of subsection j of section i is
      the subsection's own. */
  lemma MenuAtSubsection(data: seq<Section>, i: nat, j: nat)
    requires WellFormed(data) && i < |data| && j < |data[i].sections.value|
    ensures SubsectionOffset(data, i, j) + RuleCount(data[i].sections.value[j]) < |Menu(data)|
    ensures Menu(data)[SubsectionOffset(data, i, j)] == Entry(data[i].sections.value[j].title, 2, IdOf([i, j]))
  {
    PathsAtSubsection(data, i, j, 0);
    PathsAtSubsection(data, i, j, RuleCount(data[i].sections.value[j]));
    MenuAt(data, SubsectionOffset(data, i, j));
  }

  /** Rule r of subsection j of section i has the entry r + 1 places after
      the subsection's. */
  lemma MenuAtRule(data: seq<Section>, i: nat, j: nat, r: nat)
    requires WellFormed(data) && i < |data| && j < |data[i].sections.value|
    requires r < RuleCount(data[i].sections.value[j])
    ensures SubsectionOffset(data, i, j) + 1 + r < |Menu(data)|
    ensures Menu(data)[SubsectionOffset(data, i, j) + 1 + r] ==
      Entry(data[i].sections.value[j].rules.value[r].title, 3, IdOf([i, j, r]))
  {
    PathsAtSubsection(data, i, j, 1 + r);
    assert Paths(data)[SubsectionOffset(data, i, j) + 1 + r] == [i, j, r];
    MenuAt(data, SubsectionOffset(data, i, j) + 1 + r);
  }

  /** The entry after the visit of subsection j of section i has level 1
      or 2, or there is none. */
  lemma MenuAfterSubsection(data: seq<Section>, i: nat, j: nat)
    requires WellFormed(data) && i < |data| && j < |data[i].sections.value|
    ensures SubsectionOffset(data, i, j) + 1 + RuleCount(data[i].sections.value[j]) <= |Menu(data)|
    ensures SubsectionOffset(data, i, j) + 1 + RuleCount(data[i].sections.value[j]) == |Menu(data)| ||
      Menu(data)[SubsectionOffset(data, i, j) + 1 + RuleCount(data[i].sections.value[j])].level < 3
  {
    var e := SubsectionOffset(data, i, j) + 1 + RuleCount(data[i].sections.value[j]);
    PathsAfterSubsection(data, i, j);
    MenuLength(data);
    SectionsPathsCount(data, |data|);
    if e < |Paths(data)| {
      MenuAt(data, e);
    }
  }

  /** Subsection j of section i stands after its section's entry and the
      entries of the earlier subsections; it is immediately followed by
      the entries of exactly its own rules, in rule order, and then by an
      entry of level below 3 or by the end of the menu. A subsection without
      a `rules` field is therefore followed directly by a level 1 or 2 entry
      or by the end. */
  lemma SubsectionEntries(data: seq<Section>, i: nat, j: nat)
    requires WellFormed(data) && i < |data| && j < |data[i].sections.value|
    ensures SubsectionOffset(data, i, j) + RuleCount(data[i].sections.value[j]) < |Menu(data)|
    ensures Menu(data)[SubsectionOffset(data, i, j)] == Entry(data[i].sections.value[j].title, 2, IdOf([i, j]))
    ensures forall r | 0 <= r < RuleCount(data[i].sections.value[j]) ::
      Menu(data)[SubsectionOffset(data, i, j) + 1 + r] ==
      Entry(data[i].sections.value[j].rules.value[r].title, 3, IdOf([i, j, r]))
    ensures SubsectionOffset(data, i, j) + 1 + RuleCount(data[i].sections.value[j]) == |Menu(data)| ||
      Menu(data)[SubsectionOffset(data, i, j) + 1 + RuleCount(data[i].sections.value[j])].level < 3
  {
    var subs := data[i].sections.value;
    MenuAtSubsection(data, i, j);
    forall r | 0 <= r < RuleCount(subs[j])
      ensures Menu(data)[SubsectionOffset(data, i, j) + 1 + r] == Entry(subs[j].rules.value[r].title, 3, IdOf([i, j, r]))
    {
      MenuAtRule(data, i, j, r);
    }
    MenuAfterSubsection(data, i, j);
  }

  // Only titles and the presence and length of `rules` matter.

  predicate SameSubsections(subs: seq<Subsection>, subs': seq<Subsection>)
  {
    |subs| == |subs'| &&
    forall j | 0 <= j < |subs| :: subs[j].title == subs'[j].title && subs[j].rules == subs'[j].rules
  }

  /** Two trees that agree on everything the builder reads: section titles,
      and the titles and rules of their subsections. */
  predicate SameOutline(data: seq<Section>, data': seq<Section>)
  {
    |data| == |data'| &&
    forall i | 0 <= i < |data| ::
      data[i].title == data'[i].title &&
      data[i].sections.Some? == data'[i].sections.Some? &&
      (data[i].sections.Some? ==> SameSubsections(data[i].sections.value, data'[i].sections.value))
  }

  lemma {:induction false} SubsectionsPathsOutline(i: nat, subs: seq<Subsection>, subs': seq<Subsection>, m: nat)
    requires SameSubsections(subs, subs') && m <= |subs|
    ensures SubsectionsPaths(i, subs, m) == SubsectionsPaths(i, subs', m)
    decreases m
  {
    if m > 0 {
      SubsectionsPathsOutline(i, subs, subs', m - 1);
      assert RuleCount(subs[m - 1]) == RuleCount(subs'[m - 1]);
    }
  }

  lemma {:induction false} SectionsPathsOutline(data: seq<Section>, data': seq<Section>, m: nat)
    requires WellFormed(data) && SameOutline(data, data') && m <= |data|
    ensures WellFormed(data')
    ensures SectionsPaths(data, m) == SectionsPaths(data', m)
    decreases m
  {
    if m > 0 {
      var n := m - 1;
      SectionsPathsOutline(data, data', n);
      var subs, subs' := data[n].sections.value, data'[n].sections.value;
      SubsectionsPathsOutline(n, subs, subs', |subs|);
    }
  }

  /** The builder reads nothing else of the tree: in particular a nested
      `sections` list under a subsection never changes the menu. */
  lemma MenuIgnoresNestedSections(data: seq<Section>, data': seq<Section>)
    requires WellFormed(data) && SameOutline(data, data')
    ensures WellFormed(data')
    ensures Menu(data) == Menu(data')
  {
    SectionsPathsOutline(data, data', |data|);
    SectionsPathsValid(data, |data|);
    SectionsPathsValid(data', |data'|);
    var ps := Paths(data);
    forall x | 0 <= x < |ps| ensures NodeAt(data, ps[x]) == NodeAt(data', ps[x]) {
      var p := ps[x];
      if |p| >= 2 {
        assert SameSubsections(data[p[0]].sections.value, data'[p[0]].sections.value);
      }
    }
  }
}
