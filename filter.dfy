/** The menu filter: keep, in order, the entries whose lower-cased title
    contains the lower-cased query. Lower-casing maps the ASCII letters A-Z
    only. */
module MenuFilter {
  import opened MenuBuilder

  function LowerChar(c: char): char
  {
    if 'A' <= c <= 'Z' then (c as int - 'A' as int + 'a' as int) as char else c
  }

  function Lower(s: string): string
  {
    seq(|s|, k requires 0 <= k < |s| => LowerChar(s[k]))
  }

  /** q occurs in s starting at index k. */
  predicate OccursAt(s: string, q: string, k: nat)
  {
    k + |q| <= |s| && s[k..k + |q|] == q
  }

  /** Substring containment, scanning s from the left. */
  function Contains(s: string, q: string): bool
    decreases |s|
  {
    (|q| <= |s| && s[..|q|] == q) || (s != [] && Contains(s[1..], q))
  }

  /** The scan finds q exactly when q occurs somewhere in s. */
  lemma {:induction false} ContainsOccurs(s: string, q: string)
    ensures Contains(s, q) <==> exists k: nat :: OccursAt(s, q, k)
    decreases |s|
  {
    if |q| <= |s| && s[..|q|] == q {
      assert OccursAt(s, q, 0);
    } else if s != [] {
      ContainsOccurs(s[1..], q);
      if Contains(s[1..], q) {
        var k: nat :| OccursAt(s[1..], q, k);
        assert s[1..][k..k + |q|] == s[k + 1..k + 1 + |q|];
        assert OccursAt(s, q, k + 1);
      }
      if exists k: nat :: OccursAt(s, q, k) {
        var k: nat :| OccursAt(s, q, k);
        assert k > 0;
        assert s[1..][k - 1..k - 1 + |q|] == s[k..k + |q|];
        assert OccursAt(s[1..], q, k - 1);
      }
    }
  }

  /** The entry is kept for the query. Its level and id are not looked at. */
  predicate Matches(e: Entry, query: string)
  {
    Contains(Lower(e.title), Lower(query))
  }

  /** r is obtained from s by dropping some elements, keeping the order. */
  predicate IsSubsequence<T(==)>(r: seq<T>, s: seq<T>)
    decreases |s|
  {
    r == [] || (s != [] && ((r[0] == s[0] && IsSubsequence(r[1..], s[1..])) || IsSubsequence(r, s[1..])))
  }

  lemma {:induction false} SubsequenceMultiset<T>(r: seq<T>, s: seq<T>)
    requires IsSubsequence(r, s)
    ensures multiset(r) <= multiset(s)
    decreases |s|
  {
    if r != [] {
      assert s == [s[0]] + s[1..];
      if r[0] == s[0] && IsSubsequence(r[1..], s[1..]) {
        SubsequenceMultiset(r[1..], s[1..]);
        assert r == [r[0]] + r[1..];
      } else {
        SubsequenceMultiset(r, s[1..]);
      }
    }
  }

  /** The filtered menu: the matching entries, in menu order. */
  function Filter(menu: seq<Entry>, query: string): seq<Entry>
    decreases |menu|
  {
    if menu == [] then []
    else if Matches(menu[0], query) then [menu[0]] + Filter(menu[1..], query)
    else Filter(menu[1..], query)
  }

  /** The filtered menu is a subsequence of the menu made of matching
      entries. */
  lemma {:induction false} FilterSound(menu: seq<Entry>, query: string)
    ensures IsSubsequence(Filter(menu, query), menu)
    ensures forall x | 0 <= x < |Filter(menu, query)| :: Matches(Filter(menu, query)[x], query)
    decreases |menu|
  {
    if menu != [] {
      var rest := Filter(menu[1..], query);
      FilterSound(menu[1..], query);
      if Matches(menu[0], query) {
        var r := [menu[0]] + rest;
        assert r[1..] == rest;
        forall x | 0 <= x < |r| ensures Matches(r[x], query) {
          if x > 0 {
            assert r[x] == rest[x - 1];
          }
        }
      }
    }
  }

  /** The filtered menu keeps every occurrence of every matching entry. */
  lemma {:induction false} FilterKeepsMatches(menu: seq<Entry>, query: string)
    ensures forall e | Matches(e, query) :: multiset(Filter(menu, query))[e] == multiset(menu)[e]
    decreases |menu|
  {
    if menu != [] {
      FilterKeepsMatches(menu[1..], query);
      assert menu == [menu[0]] + menu[1..];
      var rest := Filter(menu[1..], query);
      if Matches(menu[0], query) {
        assert Filter(menu, query) == [menu[0]] + rest;
      }
    }
  }

  /** Filtering a menu with a first entry e keeps e exactly when it matches. */
  lemma FilterCons(e: Entry, rest: seq<Entry>, query: string)
    ensures Filter([e] + rest, query) == (if Matches(e, query) then [e] else []) + Filter(rest, query)
  {
    assert ([e] + rest)[0] == e && ([e] + rest)[1..] == rest;
  }

  /** Filtering a concatenation filters each part: the entries a later
      content tree appends are filtered on their own. */
  lemma {:induction false} FilterAppend(a: seq<Entry>, b: seq<Entry>, query: string)
    ensures Filter(a + b, query) == Filter(a, query) + Filter(b, query)
    decreases |a|
  {
    if a == [] {
      assert a + b == b;
    } else {
      FilterAppend(a[1..], b, query);
      FilterAppendStep(a[0], a[1..], b, query);
      assert a == [a[0]] + a[1..];
    }
  }

  lemma FilterAppendStep(e: Entry, tail: seq<Entry>, b: seq<Entry>, query: string)
    requires Filter(tail + b, query) == Filter(tail, query) + Filter(b, query)
    ensures Filter([e] + tail + b, query) == Filter([e] + tail, query) + Filter(b, query)
  {
    var ft, fb := Filter(tail, query), Filter(b, query);
    assert [e] + tail + b == [e] + (tail + b);
    FilterCons(e, tail + b, query);
    FilterCons(e, tail, query);
    if Matches(e, query) {
      assert [e] + (ft + fb) == ([e] + ft) + fb;
    } else {
      assert [] + (ft + fb) == ([] + ft) + fb;
    }
  }

  /** A single entry is kept exactly when it matches. */
  lemma FilterSingle(e: Entry, query: string)
    ensures Filter([e], query) == if Matches(e, query) then [e] else []
  {
    assert [e][1..] == [];
  }

  /** An entry is shown exactly when it is in the menu and matches: no
      non-matching ancestor is brought back. */
  lemma {:induction false} FilterMembership(menu: seq<Entry>, query: string, e: Entry)
    ensures e in Filter(menu, query) <==> e in menu && Matches(e, query)
    decreases |menu|
  {
    if menu != [] {
      FilterMembership(menu[1..], query, e);
      assert menu == [menu[0]] + menu[1..];
    }
  }

  /** The filter looks at titles alone: two menus of the same length that
      agree on their titles, whatever their levels and ids, are filtered to
      menus of the same length with the same titles in order. */
  lemma {:induction false} FilterReadsTitlesOnly(m: seq<Entry>, m': seq<Entry>, query: string)
    requires |m| == |m'|
    requires forall x | 0 <= x < |m| :: m[x].title == m'[x].title
    ensures |Filter(m, query)| == |Filter(m', query)|
    ensures forall x | 0 <= x < |Filter(m, query)| :: Filter(m, query)[x].title == Filter(m', query)[x].title
    decreases |m|
  {
    if m != [] {
      FilterReadsTitlesOnly(m[1..], m'[1..], query);
      assert Matches(m[0], query) == Matches(m'[0], query);
      var r, r' := Filter(m, query), Filter(m', query);
      var t, t' := Filter(m[1..], query), Filter(m'[1..], query);
      if Matches(m[0], query) {
        forall x | 0 <= x < |r| ensures r[x].title == r'[x].title {
          if x > 0 {
            assert r[x] == t[x - 1] && r'[x] == t'[x - 1];
          }
        }
      }
    }
  }

  /** Being a subsequence of matching entries that keeps every occurrence of
      every matching entry determines the filtered menu. */
  lemma {:induction false} FilterUnique(menu: seq<Entry>, query: string, r: seq<Entry>)
    requires IsSubsequence(r, menu)
    requires forall x | 0 <= x < |r| :: Matches(r[x], query)
    requires forall e | Matches(e, query) :: multiset(r)[e] == multiset(menu)[e]
    ensures r == Filter(menu, query)
    decreases |menu|
  {
    if menu != [] {
      var e, tail := menu[0], menu[1..];
      assert menu == [e] + tail;
      if r != [] && r[0] == e && IsSubsequence(r[1..], tail) {
        assert r == [e] + r[1..];
        assert Matches(r[0], query);
        forall x | 0 <= x < |r[1..]| ensures Matches(r[1..][x], query) {
          assert r[1..][x] == r[x + 1];
        }
        FilterUnique(tail, query, r[1..]);
      } else {
        assert IsSubsequence(r, tail);
        SubsequenceMultiset(r, tail);
        assert !Matches(e, query) by {
          assert multiset(r)[e] <= multiset(tail)[e] < multiset(menu)[e];
        }
        FilterUnique(tail, query, r);
      }
    }
  }

  /** An empty query keeps the whole menu. */
  lemma {:induction false} FilterEmptyQuery(menu: seq<Entry>)
    ensures Filter(menu, "") == menu
    decreases |menu|
  {
    if menu != [] {
      assert Lower("") == "";
      assert Matches(menu[0], "");
      FilterEmptyQuery(menu[1..]);
      assert menu == [menu[0]] + menu[1..];
    }
  }

  /** Filtering a filtered menu again with the same query changes nothing. */
  lemma {:induction false} FilterIdempotent(menu: seq<Entry>, query: string)
    ensures Filter(Filter(menu, query), query) == Filter(menu, query)
    decreases |menu|
  {
    if menu != [] {
      var rest := Filter(menu[1..], query);
      FilterIdempotent(menu[1..], query);
      if Matches(menu[0], query) {
        assert ([menu[0]] + rest)[1..] == rest;
      }
    }
  }
}
