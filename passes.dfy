/** One pass of each do-while loop of ParserTableGenerator, as a function of
    the map the pass starts from, and what passes do: they only grow the
    sets, stay below every closed map, keep within the grammar's symbols,
    and a pass that changes nothing leaves a closed map. */
module Passes {
  import opened LL1

  /** The set under `key`, or the empty set a missing key is given. */
  function Size0(m: Sets, key: string): set<string> {
    if key in m then m[key] else {}
  }

  /** `b` keeps every set of `a` and has only empty sets under new keys. */
  predicate Extends(a: Sets, b: Sets) {
    && (forall key :: key in a ==> key in b && b[key] == a[key])
    && (forall key :: key in b && key !in a ==> b[key] == {})
  }

  /** Every set of `m` lies within `universe`. */
  predicate Bounded(m: Sets, universe: set<string>) {
    forall key :: key in m ==> m[key] <= universe
  }

  /** Bounded, and no set holds "empty". */
  predicate BoundedNoEmpty(m: Sets, universe: set<string>) {
    forall key :: key in m ==> m[key] <= universe && Empty !in m[key]
  }

  /** Occurrence (i', j') comes before (i, j) in visiting order. */
  predicate Before2(i': int, j': int, i: int, j: int) {
    i' < i || (i' == i && j' < j)
  }

  /** Occurrence (i', j', k') comes before (i, j, k) in visiting order. */
  predicate Before3(i': int, j': int, k': int, i: int, j: int, k: int) {
    i' < i || (i' == i && (j' < j || (j' == j && k' < k)))
  }

  /** A growing map that is not an extension has grown in size. */
  lemma GrowthCounts(keys: seq<string>, a: Sets, b: Sets)
    requires Within(a, b) && !Extends(a, b)
    requires forall key :: key in b ==> key in keys
    ensures Total(keys, a) < Total(keys, b)
  {
    if exists key :: key in a && b[key] != a[key] {
      var key :| key in a && b[key] != a[key];
      SubsetSize(a[key], b[key]);
      TotalStrict(keys, a, b, key);
    } else {
      var key :| key in b && key !in a && b[key] != {};
      var x :| x in b[key];
      SubsetSize({x}, b[key]);
      TotalStrict(keys, a, b, key);
    }
  }

  /** An extension only adds empty sets, so it keeps the total. */
  lemma {:induction false} ExtendsTotal(keys: seq<string>, a: Sets, b: Sets)
    requires Extends(a, b)
    ensures Total(keys, a) == Total(keys, b)
    decreases |keys|
  {
    if keys != [] {
      ExtendsTotal(keys[1..], a, b);
    }
  }

  // ---------------------------------------------------------------------
  // The FIRST pass

  /** Visiting production j of rule i: its FIRST joins its left side's. */
  function FirstUpdate(rules: seq<GrammarRule>, terminals: set<string>, m: Sets, i: nat, j: nat): Sets
    requires i < |rules| && j < |rules[i].right| && rules[i].left in m
  {
    m[rules[i].left := m[rules[i].left] + FirstOf(rules[i].right[j], terminals, m)]
  }

  /** The rest of a pass, from production j of rule i on. */
  function FirstPassFrom(rules: seq<GrammarRule>, terminals: set<string>, m: Sets, i: nat, j: nat): Sets
    requires i <= |rules| && (i < |rules| ==> j <= |rules[i].right|)
    requires Lefts(rules) <= m.Keys
    decreases |rules| - i, if i < |rules| then |rules[i].right| - j else 0
  {
    if i == |rules| then m
    else if j == |rules[i].right| then FirstPassFrom(rules, terminals, m, i + 1, 0)
    else
      assert rules[i].left in Lefts(rules);
      FirstPassFrom(rules, terminals, FirstUpdate(rules, terminals, m, i, j), i, j + 1)
  }

  /** The productions from (i, j) on are closed in `m`. */
  ghost predicate FirstClosedFrom(rules: seq<GrammarRule>, terminals: set<string>, m: Sets, i: int, j: int) {
    forall i', j' :: 0 <= i' < |rules| && 0 <= j' < |rules[i'].right| && !Before2(i', j', i, j) ==>
      rules[i'].left in m && FirstOf(rules[i'].right[j'], terminals, m) <= m[rules[i'].left]
  }

  /** `m` is below every closed map on the left sides. */
  ghost predicate BelowFirstClosed(rules: seq<GrammarRule>, terminals: set<string>, m: Sets) {
    forall other: Sets :: other.Keys == Lefts(rules) && FirstClosed(rules, terminals, other) ==> Below(m, other)
  }

  lemma BelowTrans(a: Sets, b: Sets, c: Sets)
    requires Below(a, b) && Below(b, c)
    ensures Below(a, c)
  {
  }

  /** A pass keeps the keys and only grows the sets. */
  lemma {:induction false} FirstPassGrows(rules: seq<GrammarRule>, terminals: set<string>, m: Sets, i: nat, j: nat)
    requires i <= |rules| && (i < |rules| ==> j <= |rules[i].right|)
    requires Lefts(rules) <= m.Keys
    ensures Below(m, FirstPassFrom(rules, terminals, m, i, j))
    decreases |rules| - i, if i < |rules| then |rules[i].right| - j else 0
  {
    if i == |rules| {
    } else if j == |rules[i].right| {
      FirstPassGrows(rules, terminals, m, i + 1, 0);
    } else {
      assert rules[i].left in Lefts(rules);
      var next := FirstUpdate(rules, terminals, m, i, j);
      FirstPassGrows(rules, terminals, next, i, j + 1);
      BelowTrans(m, next, FirstPassFrom(rules, terminals, next, i, j + 1));
    }
  }

  /** A pass adds only symbols of the grammar and "empty". */
  lemma {:induction false} FirstPassBounded(rules: seq<GrammarRule>, terminals: set<string>, universe: set<string>, m: Sets, i: nat, j: nat)
    requires i <= |rules| && (i < |rules| ==> j <= |rules[i].right|)
    requires Lefts(rules) <= m.Keys
    requires Syms(rules) + {Empty} <= universe
    requires Bounded(m, universe)
    ensures Bounded(FirstPassFrom(rules, terminals, m, i, j), universe)
    decreases |rules| - i, if i < |rules| then |rules[i].right| - j else 0
  {
    if i == |rules| {
    } else if j == |rules[i].right| {
      FirstPassBounded(rules, terminals, universe, m, i + 1, 0);
    } else {
      assert rules[i].left in Lefts(rules);
      assert Elems(rules[i].right[j]) <= universe by {
        forall x | x in Elems(rules[i].right[j]) ensures x in Syms(rules) {
          var k :| 0 <= k < |rules[i].right[j]| && rules[i].right[j][k] == x;
        }
      }
      FirstOfWithin(rules[i].right[j], terminals, m, universe);
      FirstPassBounded(rules, terminals, universe, FirstUpdate(rules, terminals, m, i, j), i, j + 1);
    }
  }

  /** A pass from a map below a closed map stays below it: the induction
      behind "least fixpoint". */
  lemma {:induction false} FirstPassBelow(rules: seq<GrammarRule>, terminals: set<string>, m: Sets, other: Sets, i: nat, j: nat)
    requires i <= |rules| && (i < |rules| ==> j <= |rules[i].right|)
    requires Lefts(rules) <= m.Keys
    requires Below(m, other) && FirstClosed(rules, terminals, other)
    ensures Below(FirstPassFrom(rules, terminals, m, i, j), other)
    decreases |rules| - i, if i < |rules| then |rules[i].right| - j else 0
  {
    if i == |rules| {
    } else if j == |rules[i].right| {
      FirstPassBelow(rules, terminals, m, other, i + 1, 0);
    } else {
      assert rules[i].left in Lefts(rules);
      FirstUpdateBelow(rules, terminals, m, other, i, j);
      FirstPassBelow(rules, terminals, FirstUpdate(rules, terminals, m, i, j), other, i, j + 1);
    }
  }

  /** One visit keeps a map below a closed one. */
  lemma FirstUpdateBelow(rules: seq<GrammarRule>, terminals: set<string>, m: Sets, other: Sets, i: nat, j: nat)
    requires i < |rules| && j < |rules[i].right| && rules[i].left in m
    requires Below(m, other) && FirstClosed(rules, terminals, other)
    ensures Below(FirstUpdate(rules, terminals, m, i, j), other)
  {
    FirstOfMono(rules[i].right[j], terminals, m, other);
    assert FirstOf(rules[i].right[j], terminals, other) <= other[rules[i].left];
  }

  /** A pass that changes nothing leaves every production it visits
      closed. */
  lemma {:induction false} FirstPassFixed(rules: seq<GrammarRule>, terminals: set<string>, m: Sets, i: nat, j: nat)
    requires i <= |rules| && (i < |rules| ==> j <= |rules[i].right|)
    requires Lefts(rules) <= m.Keys
    requires FirstPassFrom(rules, terminals, m, i, j) == m
    ensures FirstClosedFrom(rules, terminals, m, i, j)
    decreases |rules| - i, if i < |rules| then |rules[i].right| - j else 0
  {
    if i == |rules| {
    } else if j == |rules[i].right| {
      FirstPassFixed(rules, terminals, m, i + 1, 0);
    } else {
      assert rules[i].left in Lefts(rules);
      var next := FirstUpdate(rules, terminals, m, i, j);
      FirstPassGrows(rules, terminals, next, i, j + 1);
      assert next == m by {
        forall key | key in m ensures next[key] == m[key] {
          assert m[key] <= next[key] <= m[key];
        }
      }
      FirstPassFixed(rules, terminals, m, i, j + 1);
    }
  }

  // ---------------------------------------------------------------------
  // The FOLLOW pass

  /** What visiting occurrence (i, j, k) adds: FIRST of what follows it
      without "empty", and the left side's FOLLOW when what follows can
      vanish. */
  function FollowContribution(rules: seq<GrammarRule>, terminals: set<string>, fs: Sets, m: Sets, i: nat, j: nat, k: nat): set<string>
    requires i < |rules| && j < |rules[i].right| && k < |rules[i].right[j]|
    requires rules[i].left in m
  {
    var f := FirstOf(rules[i].right[j][k + 1..], terminals, fs);
    (f - {Empty}) + (if Empty in f then m[rules[i].left] else {})
  }

  /** Visiting occurrence (i, j, k): a non-terminal gets a set if it has
      none, and the contribution joins it. */
  function FollowUpdate(rules: seq<GrammarRule>, terminals: set<string>, fs: Sets, m: Sets, i: nat, j: nat, k: nat): Sets
    requires i < |rules| && j < |rules[i].right| && k < |rules[i].right[j]|
    requires rules[i].left in m
  {
    var symbol := rules[i].right[j][k];
    if symbol in terminals then m
    else m[symbol := Size0(m, symbol) + FollowContribution(rules, terminals, fs, m, i, j, k)]
  }

  /** (i, j, k) is a position of the FOLLOW pass. */
  predicate FollowPosition(rules: seq<GrammarRule>, i: nat, j: nat, k: nat) {
    i <= |rules| && (i < |rules| ==> j <= |rules[i].right|) &&
    (i < |rules| && j < |rules[i].right| ==> k <= |rules[i].right[j]|)
  }

  /** The rest of a pass, from occurrence (i, j, k) on. */
  function FollowPassFrom(rules: seq<GrammarRule>, terminals: set<string>, fs: Sets, m: Sets, i: nat, j: nat, k: nat): Sets
    requires FollowPosition(rules, i, j, k)
    requires Lefts(rules) <= m.Keys
    decreases |rules| - i, (if i < |rules| then |rules[i].right| - j else 0),
      (if i < |rules| && j < |rules[i].right| then |rules[i].right[j]| - k else 0)
  {
    if i == |rules| then m
    else if j == |rules[i].right| then FollowPassFrom(rules, terminals, fs, m, i + 1, 0, 0)
    else if k == |rules[i].right[j]| then FollowPassFrom(rules, terminals, fs, m, i, j + 1, 0)
    else
      assert rules[i].left in Lefts(rules);
      FollowPassFrom(rules, terminals, fs, FollowUpdate(rules, terminals, fs, m, i, j, k), i, j, k + 1)
  }

  /** The occurrences from (i, j, k) on are closed in `m`. */
  ghost predicate FollowClosedFrom(rules: seq<GrammarRule>, terminals: set<string>, fs: Sets, m: Sets, i: int, j: int, k: int) {
    forall i', j', k' ::
      0 <= i' < |rules| && 0 <= j' < |rules[i'].right| && 0 <= k' < |rules[i'].right[j']| && !Before3(i', j', k', i, j, k) ==>
      OccurrenceClosed(rules, terminals, fs, m, i', j', k')
  }

  /** The non-terminals occurring from (i, j, k) on have keys in `m`. */
  ghost predicate KeyedFrom(rules: seq<GrammarRule>, terminals: set<string>, m: Sets, i: int, j: int, k: int) {
    forall i', j', k' ::
      0 <= i' < |rules| && 0 <= j' < |rules[i'].right| && 0 <= k' < |rules[i'].right[j']| && !Before3(i', j', k', i, j, k) &&
      rules[i'].right[j'][k'] !in terminals ==>
      rules[i'].right[j'][k'] in m
  }

  /** `m` is within every closed map keyed by at least the left sides. */
  ghost predicate WithinFollowClosed(rules: seq<GrammarRule>, terminals: set<string>, fs: Sets, m: Sets) {
    forall other: Sets :: Lefts(rules) <= other.Keys && FollowClosed(rules, terminals, fs, other) ==> Within(m, other)
  }

  lemma WithinTrans(a: Sets, b: Sets, c: Sets)
    requires Within(a, b) && Within(b, c)
    ensures Within(a, c)
  {
  }

  /** A pass only grows the sets, adds keys only for non-terminal
      occurrences, and adds one for each it visits. */
  lemma {:induction false} FollowPassGrows(rules: seq<GrammarRule>, terminals: set<string>, fs: Sets, m: Sets, i: nat, j: nat, k: nat)
    requires FollowPosition(rules, i, j, k)
    requires Lefts(rules) <= m.Keys
    ensures var r := FollowPassFrom(rules, terminals, fs, m, i, j, k);
      Within(m, r) && r.Keys <= m.Keys + NonTerminalSyms(rules, terminals) && KeyedFrom(rules, terminals, r, i, j, k)
    decreases |rules| - i, (if i < |rules| then |rules[i].right| - j else 0),
      (if i < |rules| && j < |rules[i].right| then |rules[i].right[j]| - k else 0)
  {
    if i == |rules| {
    } else if j == |rules[i].right| {
      FollowPassGrows(rules, terminals, fs, m, i + 1, 0, 0);
    } else if k == |rules[i].right[j]| {
      FollowPassGrows(rules, terminals, fs, m, i, j + 1, 0);
    } else {
      assert rules[i].left in Lefts(rules);
      assert rules[i].right[j][k] in Syms(rules);
      var next := FollowUpdate(rules, terminals, fs, m, i, j, k);
      FollowPassGrows(rules, terminals, fs, next, i, j, k + 1);
      WithinTrans(m, next, FollowPassFrom(rules, terminals, fs, next, i, j, k + 1));
    }
  }

  /** A pass adds no "empty" and only symbols of the grammar, of the FIRST
      sets, and "$". */
  lemma {:induction false} FollowPassBounded(rules: seq<GrammarRule>, terminals: set<string>, fs: Sets, universe: set<string>,
                                             m: Sets, i: nat, j: nat, k: nat)
    requires FollowPosition(rules, i, j, k)
    requires Lefts(rules) <= m.Keys
    requires Syms(rules) + {Empty} <= universe
    requires Bounded(fs, universe)
    requires BoundedNoEmpty(m, universe)
    ensures BoundedNoEmpty(FollowPassFrom(rules, terminals, fs, m, i, j, k), universe)
    decreases |rules| - i, (if i < |rules| then |rules[i].right| - j else 0),
      (if i < |rules| && j < |rules[i].right| then |rules[i].right[j]| - k else 0)
  {
    if i == |rules| {
    } else if j == |rules[i].right| {
      FollowPassBounded(rules, terminals, fs, universe, m, i + 1, 0, 0);
    } else if k == |rules[i].right[j]| {
      FollowPassBounded(rules, terminals, fs, universe, m, i, j + 1, 0);
    } else {
      assert rules[i].left in Lefts(rules);
      var production := rules[i].right[j];
      var suffix := production[k + 1..];
      assert Elems(suffix) <= universe by {
        forall x | x in Elems(suffix) ensures x in Syms(rules) {
          var l :| 0 <= l < |suffix| && suffix[l] == x;
          assert production[k + 1 + l] == x;
        }
      }
      FirstOfWithin(suffix, terminals, fs, universe);
      FollowPassBounded(rules, terminals, fs, universe, FollowUpdate(rules, terminals, fs, m, i, j, k), i, j, k + 1);
    }
  }

  /** A pass from a map within a closed map stays within it. */
  lemma {:induction false} FollowPassWithin(rules: seq<GrammarRule>, terminals: set<string>, fs: Sets, m: Sets, other: Sets, i: nat, j: nat, k: nat)
    requires FollowPosition(rules, i, j, k)
    requires Lefts(rules) <= m.Keys
    requires Within(m, other) && FollowClosed(rules, terminals, fs, other)
    ensures Within(FollowPassFrom(rules, terminals, fs, m, i, j, k), other)
    decreases |rules| - i, (if i < |rules| then |rules[i].right| - j else 0),
      (if i < |rules| && j < |rules[i].right| then |rules[i].right[j]| - k else 0)
  {
    if i == |rules| {
    } else if j == |rules[i].right| {
      FollowPassWithin(rules, terminals, fs, m, other, i + 1, 0, 0);
    } else if k == |rules[i].right[j]| {
      FollowPassWithin(rules, terminals, fs, m, other, i, j + 1, 0);
    } else {
      assert rules[i].left in Lefts(rules);
      assert OccurrenceClosed(rules, terminals, fs, other, i, j, k);
      FollowPassWithin(rules, terminals, fs, FollowUpdate(rules, terminals, fs, m, i, j, k), other, i, j, k + 1);
    }
  }

  /** A pass whose result extends its start leaves every occurrence it
      visits closed. */
  lemma {:induction false} FollowPassFixed(rules: seq<GrammarRule>, terminals: set<string>, fs: Sets, m: Sets, i: nat, j: nat, k: nat)
    requires FollowPosition(rules, i, j, k)
    requires Lefts(rules) <= m.Keys
    requires Extends(m, FollowPassFrom(rules, terminals, fs, m, i, j, k))
    ensures FollowClosedFrom(rules, terminals, fs, FollowPassFrom(rules, terminals, fs, m, i, j, k), i, j, k)
    decreases |rules| - i, (if i < |rules| then |rules[i].right| - j else 0),
      (if i < |rules| && j < |rules[i].right| then |rules[i].right[j]| - k else 0)
  {
    var r := FollowPassFrom(rules, terminals, fs, m, i, j, k);
    if i == |rules| {
    } else if j == |rules[i].right| {
      FollowPassFixed(rules, terminals, fs, m, i + 1, 0, 0);
    } else if k == |rules[i].right[j]| {
      FollowPassFixed(rules, terminals, fs, m, i, j + 1, 0);
    } else {
      assert rules[i].left in Lefts(rules);
      var next := FollowUpdate(rules, terminals, fs, m, i, j, k);
      FollowPassGrows(rules, terminals, fs, next, i, j, k + 1);
      FollowUpdateFixed(rules, terminals, fs, m, r, i, j, k);
      FollowPassFixed(rules, terminals, fs, next, i, j, k + 1);
    }
  }

  /** One visit, inside a pass whose result `r` extends both the map before
      it and the map after it: the visited occurrence is closed in `r`. */
  lemma FollowUpdateFixed(rules: seq<GrammarRule>, terminals: set<string>, fs: Sets, m: Sets, r: Sets, i: nat, j: nat, k: nat)
    requires i < |rules| && j < |rules[i].right| && k < |rules[i].right[j]| && rules[i].left in m
    requires Extends(m, r) && Within(FollowUpdate(rules, terminals, fs, m, i, j, k), r)
    ensures Extends(FollowUpdate(rules, terminals, fs, m, i, j, k), r)
    ensures OccurrenceClosed(rules, terminals, fs, r, i, j, k)
  {
    var next := FollowUpdate(rules, terminals, fs, m, i, j, k);
    var symbol := rules[i].right[j][k];
    forall key | key in next ensures r[key] == next[key] {
      if key == symbol && symbol !in terminals {
        assert r[key] == Size0(m, symbol);
      }
    }
  }
}
