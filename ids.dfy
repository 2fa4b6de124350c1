/** The ids the navigation menu gives its entries. A top section's id is its
    index as a number; a subsection's and a rule's id is a template string
    joining the indices of its path with hyphens. */
module MenuIds {

  /** An entry id as the component stores it. */
  datatype Id = Num(n: nat) | Text(s: string)

  predicate IsDigit(c: char)
  {
    '0' <= c <= '9'
  }

  predicate NoHyphen(s: string)
  {
    forall k | 0 <= k < |s| :: s[k] != '-'
  }

  function DigitChar(d: nat): (c: char)
    requires d < 10
    ensures IsDigit(c) && c as int - '0' as int == d
  {
    ('0' as int + d) as char
  }

  /** The decimal rendering of a number, as a template literal writes it. */
  function Decimal(n: nat): (s: string)
    ensures |s| >= 1
    ensures forall k | 0 <= k < |s| :: IsDigit(s[k])
    decreases n
  {
    if n < 10 then [DigitChar(n)] else Decimal(n / 10) + [DigitChar(n % 10)]
  }

  /** The number a string of decimal digits denotes. */
  function Value(s: string): nat
    requires forall k | 0 <= k < |s| :: IsDigit(s[k])
    decreases |s|
  {
    if s == [] then 0
    else
      assert IsDigit(s[|s| - 1]);
      10 * Value(s[..|s| - 1]) + (s[|s| - 1] as int - '0' as int)
  }

  /** Reading a rendered number back gives the number. */
  lemma {:induction false} ValueOfDecimal(n: nat)
    ensures Value(Decimal(n)) == n
    decreases n
  {
    if n >= 10 {
      var s := Decimal(n);
      assert s[..|s| - 1] == Decimal(n / 10);
      ValueOfDecimal(n / 10);
    }
  }

  lemma DecimalInjective(m: nat, n: nat)
    requires Decimal(m) == Decimal(n)
    ensures m == n
  {
    ValueOfDecimal(m);
    ValueOfDecimal(n);
  }

  lemma DecimalNoHyphen(n: nat)
    ensures NoHyphen(Decimal(n))
  {
    var s := Decimal(n);
    forall k | 0 <= k < |s| ensures s[k] != '-' {
      assert IsDigit(s[k]);
    }
  }

  /** Two hyphen-free heads followed by a hyphen can only be split one way. */
  lemma SplitAtHyphen(a: string, b: string, c: string, d: string)
    requires NoHyphen(a) && NoHyphen(c)
    requires a + "-" + b == c + "-" + d
    ensures a == c && b == d
  {
    var s := a + "-" + b;
    assert s[|a|] == '-' && s[|c|] == '-';
    assert forall k | 0 <= k < |a| :: s[k] == a[k];
    assert forall k | 0 <= k < |c| :: s[k] == c[k];
    assert |a| == |c|;
    assert a == s[..|a|] == c;
    assert b == s[|a| + 1..] == d;
  }

  /** The indices of a path rendered in decimal and joined with hyphens. */
  function Join(p: seq<nat>): string
    requires |p| >= 1
    decreases |p|
  {
    if |p| == 1 then Decimal(p[0]) else Decimal(p[0]) + "-" + Join(p[1..])
  }

  /** A joined path holds a hyphen exactly when it has more than one index. */
  lemma JoinHyphens(p: seq<nat>)
    requires |p| >= 1
    ensures NoHyphen(Join(p)) <==> |p| == 1
  {
    if |p| == 1 {
      DecimalNoHyphen(p[0]);
    } else {
      assert Join(p)[|Decimal(p[0])|] == '-';
    }
  }

  /** Distinct paths render to distinct hyphen-joined strings. */
  lemma {:induction false} JoinInjective(p: seq<nat>, q: seq<nat>)
    requires |p| >= 1 && |q| >= 1
    requires Join(p) == Join(q)
    ensures p == q
    decreases |p|
  {
    JoinHyphens(p);
    JoinHyphens(q);
    if |p| == 1 {
      DecimalInjective(p[0], q[0]);
    } else {
      DecimalNoHyphen(p[0]);
      DecimalNoHyphen(q[0]);
      SplitAtHyphen(Decimal(p[0]), Join(p[1..]), Decimal(q[0]), Join(q[1..]));
      DecimalInjective(p[0], q[0]);
      JoinInjective(p[1..], q[1..]);
      assert p == [p[0]] + p[1..];
      assert q == [q[0]] + q[1..];
    }
  }

  /** The id of the menu entry at a path of the content tree: the section
      index itself at depth 1, the hyphen-joined indices below. */
  function IdOf(p: seq<nat>): Id
    requires 1 <= |p| <= 3
  {
    if |p| == 1 then Num(p[0]) else Text(Join(p))
  }

  /** The text an id stands for as a document anchor; a numeric id reads as
      its decimal rendering. */
  function Anchor(id: Id): string
  {
    match id
    case Num(n) => Decimal(n)
    case Text(s) => s
  }

  lemma JoinPair(i: nat, j: nat)
    ensures Join([i, j]) == Decimal(i) + "-" + Decimal(j)
  {
    assert [i, j][1..] == [j];
  }

  lemma JoinTriple(i: nat, j: nat, k: nat)
    ensures Join([i, j, k]) == Decimal(i) + "-" + Decimal(j) + "-" + Decimal(k)
  {
    JoinPair(j, k);
    assert [i, j, k][1..] == [j, k];
    var a, b, c := Decimal(i), Decimal(j), Decimal(k);
    assert a + "-" + (b + "-" + c) == a + "-" + b + "-" + c;
  }

  /** The ids at depth 1, 2 and 3 are exactly the values the setter writes:
      the index, `${index}-${subIndex}` and `${index}-${subIndex}-${ruleIndex}`. */
  lemma TemplateIds(i: nat, j: nat, k: nat)
    ensures IdOf([i]) == Num(i)
    ensures IdOf([i, j]) == Text(Decimal(i) + "-" + Decimal(j))
    ensures IdOf([i, j, k]) == Text(Decimal(i) + "-" + Decimal(j) + "-" + Decimal(k))
  {
    JoinPair(i, j);
    JoinTriple(i, j, k);
  }

  /** Ids, and the anchors they name, determine the path: distinct positions
      never share an id. */
  lemma IdOfInjective(p: seq<nat>, q: seq<nat>)
    requires 1 <= |p| <= 3 && 1 <= |q| <= 3
    requires p != q
    ensures IdOf(p) != IdOf(q)
    ensures Anchor(IdOf(p)) != Anchor(IdOf(q))
  {
    assert Anchor(IdOf(p)) == Join(p);
    assert Anchor(IdOf(q)) == Join(q);
    if Join(p) == Join(q) {
      JoinInjective(p, q);
    }
  }
}
