/** The grammar analysis behind ParserTableGenerator: FIRST of a symbol
    string as the generator computes it, the conditions its FIRST and FOLLOW
    fixpoints reach, and the predictive table it writes (section 4.4 of Aho,
    Lam, Sethi and Ullman, "Compilers", 2nd edition). The string "empty"
    stands for the empty string and "$" for the end of input. */
module LL1 {

  /** GrammarRule.cs: a left-hand symbol and its alternatives. */
  datatype GrammarRule = GrammarRule(left: string, right: seq<seq<string>>)

  const Empty: string := "empty"
  const EndMarker: string := "$"
  const StartSymbol: string := "COMPILATION_UNIT"

  /** A map from a symbol to a set of symbols (FIRST or FOLLOW sets). */
  type Sets = map<string, set<string>>

  /** The predictive table: (non-terminal, lookahead) to production. */
  type Table = map<(string, string), seq<string>>

  // ---------------------------------------------------------------------
  // Grammars

  /** The left-hand sides of the rules. */
  function Lefts(rules: seq<GrammarRule>): set<string> {
    set i | 0 <= i < |rules| :: rules[i].left
  }

  /** Every symbol written in some production. */
  function Syms(rules: seq<GrammarRule>): set<string> {
    set i, j, k | 0 <= i < |rules| && 0 <= j < |rules[i].right| && 0 <= k < |rules[i].right[j]|
      :: rules[i].right[j][k]
  }

  predicate HasNonEmptyProduction(rules: seq<GrammarRule>) {
    exists i, j :: 0 <= i < |rules| && 0 <= j < |rules[i].right| && rules[i].right[j] != []
  }

  function Elems(symbols: seq<string>): set<string> {
    set k | 0 <= k < |symbols| :: symbols[k]
  }

  // ---------------------------------------------------------------------
  // FIRST of a symbol string

  /** The scan of First: left to right, a terminal or "empty" is added and
      ends the scan; a symbol with a FIRST set adds it without "empty" and
      ends the scan unless that set has "empty"; any other symbol is passed
      over. */
  function FirstScan(symbols: seq<string>, terminals: set<string>, m: Sets): set<string>
    decreases |symbols|
  {
    if symbols == [] then {}
    else
      var s := symbols[0];
      if s in terminals || s == Empty then {s}
      else if s in m then
        (m[s] - {Empty}) + (if Empty in m[s] then FirstScan(symbols[1..], terminals, m) else {})
      else FirstScan(symbols[1..], terminals, m)
  }

  /** Every symbol has a FIRST set holding "empty" (true of no symbols). */
  predicate AllNullable(symbols: seq<string>, m: Sets) {
    forall k :: 0 <= k < |symbols| ==> symbols[k] in m && Empty in m[symbols[k]]
  }

  /** ParserTableGenerator.First: the scan, plus "empty" when every symbol is
      nullable. */
  function FirstOf(symbols: seq<string>, terminals: set<string>, m: Sets): (r: set<string>)
    ensures AllNullable(symbols, m) ==> Empty in r
    ensures Empty in r && Empty !in symbols ==> AllNullable(symbols, m)
  {
    FirstScanEmpty(symbols, terminals, m);
    FirstScan(symbols, terminals, m) + (if AllNullable(symbols, m) then {Empty} else {})
  }

  /** The scan yields "empty" only when "empty" is itself one of the symbols. */
  lemma {:induction false} FirstScanEmpty(symbols: seq<string>, terminals: set<string>, m: Sets)
    ensures Empty in FirstScan(symbols, terminals, m) ==> Empty in symbols
    decreases |symbols|
  {
    if symbols != [] && !(symbols[0] in terminals || symbols[0] == Empty) {
      FirstScanEmpty(symbols[1..], terminals, m);
      if Empty in FirstScan(symbols[1..], terminals, m) {
        assert Empty in symbols[1..];
      }
    }
  }

  /** FIRST of the empty string is exactly {"empty"}. */
  lemma FirstOfNil(terminals: set<string>, m: Sets)
    ensures FirstOf([], terminals, m) == {Empty}
  {
  }

  /** A leading terminal is the whole of FIRST: it stops the scan, and it is
      not nullable unless it also has a FIRST set holding "empty". */
  lemma FirstOfTerminal(symbols: seq<string>, terminals: set<string>, m: Sets)
    requires |symbols| > 0 && symbols[0] in terminals && symbols[0] !in m
    ensures FirstOf(symbols, terminals, m) == {symbols[0]}
  {
  }

  /** `a` is pointwise below `b`, on the same keys. */
  predicate Below(a: Sets, b: Sets) {
    a.Keys == b.Keys && forall k :: k in a ==> a[k] <= b[k]
  }

  /** `a` is pointwise below `b`, whose keys may be more. */
  predicate Within(a: Sets, b: Sets) {
    forall k :: k in a ==> k in b && a[k] <= b[k]
  }

  lemma {:induction false} FirstScanMono(symbols: seq<string>, terminals: set<string>, a: Sets, b: Sets)
    requires Below(a, b)
    ensures FirstScan(symbols, terminals, a) <= FirstScan(symbols, terminals, b)
    decreases |symbols|
  {
    if symbols != [] {
      FirstScanMono(symbols[1..], terminals, a, b);
    }
  }

  /** Larger FIRST sets give a larger FIRST of any string. */
  lemma FirstOfMono(symbols: seq<string>, terminals: set<string>, a: Sets, b: Sets)
    requires Below(a, b)
    ensures FirstOf(symbols, terminals, a) <= FirstOf(symbols, terminals, b)
  {
    FirstScanMono(symbols, terminals, a, b);
  }

  /** FIRST of a string holds only its own symbols, "empty" and members of
      the FIRST sets it reads. */
  lemma {:induction false} FirstScanWithin(symbols: seq<string>, terminals: set<string>, m: Sets, u: set<string>)
    requires Elems(symbols) <= u && Empty in u
    requires forall k :: k in m ==> m[k] <= u
    ensures FirstScan(symbols, terminals, m) <= u
    decreases |symbols|
  {
    if symbols != [] {
      assert symbols[0] in Elems(symbols);
      assert Elems(symbols[1..]) <= Elems(symbols) by {
        forall x | x in Elems(symbols[1..]) ensures x in Elems(symbols) {
          var k :| 0 <= k < |symbols[1..]| && symbols[1..][k] == x;
          assert symbols[k + 1] == x;
        }
      }
      FirstScanWithin(symbols[1..], terminals, m, u);
    }
  }

  lemma FirstOfWithin(symbols: seq<string>, terminals: set<string>, m: Sets, u: set<string>)
    requires Elems(symbols) <= u && Empty in u
    requires forall k :: k in m ==> m[k] <= u
    ensures FirstOf(symbols, terminals, m) <= u
  {
    FirstScanWithin(symbols, terminals, m, u);
  }

  // ---------------------------------------------------------------------
  // The FIRST fixpoint

  /** Every production's FIRST is inside its left side's FIRST set. */
  predicate FirstClosed(rules: seq<GrammarRule>, terminals: set<string>, m: Sets) {
    forall i, j :: 0 <= i < |rules| && 0 <= j < |rules[i].right| ==>
      rules[i].left in m && FirstOf(rules[i].right[j], terminals, m) <= m[rules[i].left]
  }

  /** The FIRST sets: keyed by the left sides, closed, and below every other
      closed map on those keys. */
  ghost predicate IsFirstSets(rules: seq<GrammarRule>, terminals: set<string>, m: Sets) {
    && m.Keys == Lefts(rules)
    && FirstClosed(rules, terminals, m)
    && forall other: Sets :: other.Keys == Lefts(rules) && FirstClosed(rules, terminals, other) ==> Below(m, other)
  }

  /** There is only one such map. */
  lemma FirstSetsUnique(rules: seq<GrammarRule>, terminals: set<string>, a: Sets, b: Sets)
    requires IsFirstSets(rules, terminals, a) && IsFirstSets(rules, terminals, b)
    ensures a == b
  {
    assert Below(a, b) && Below(b, a);
    forall k | k in a ensures a[k] == b[k] {
      assert a[k] <= b[k] && b[k] <= a[k];
    }
  }

  // ---------------------------------------------------------------------
  // The FOLLOW fixpoint

  /** The constraint of one occurrence: non-terminal `rules[i].right[j][k]`
      gets FIRST of what follows it without "empty", and the left side's
      FOLLOW when what follows can vanish. */
  predicate OccurrenceClosed(rules: seq<GrammarRule>, terminals: set<string>, fs: Sets, m: Sets, i: nat, j: nat, k: nat)
    requires i < |rules| && j < |rules[i].right| && k < |rules[i].right[j]|
  {
    var production := rules[i].right[j];
    var symbol := production[k];
    var f := FirstOf(production[k + 1..], terminals, fs);
    symbol in terminals ||
      (symbol in m && f - {Empty} <= m[symbol] &&
       (Empty in f ==> rules[i].left in m && m[rules[i].left] <= m[symbol]))
  }

  predicate FollowClosed(rules: seq<GrammarRule>, terminals: set<string>, fs: Sets, m: Sets) {
    && StartSymbol in m && EndMarker in m[StartSymbol]
    && forall i, j, k :: 0 <= i < |rules| && 0 <= j < |rules[i].right| && 0 <= k < |rules[i].right[j]| ==>
         OccurrenceClosed(rules, terminals, fs, m, i, j, k)
  }

  /** The non-terminal occurrences: symbols of productions that are not
      terminals. */
  function NonTerminalSyms(rules: seq<GrammarRule>, terminals: set<string>): set<string> {
    Syms(rules) - terminals
  }

  /** The FOLLOW sets: keyed by the left sides and every non-terminal
      occurrence, closed, and below every closed map. */
  ghost predicate IsFollowSets(rules: seq<GrammarRule>, terminals: set<string>, fs: Sets, m: Sets) {
    && m.Keys == Lefts(rules) + NonTerminalSyms(rules, terminals)
    && FollowClosed(rules, terminals, fs, m)
    && forall other: Sets :: Lefts(rules) <= other.Keys && FollowClosed(rules, terminals, fs, other) ==> Within(m, other)
  }

  lemma FollowSetsUnique(rules: seq<GrammarRule>, terminals: set<string>, fs: Sets, a: Sets, b: Sets)
    requires IsFollowSets(rules, terminals, fs, a) && IsFollowSets(rules, terminals, fs, b)
    ensures a == b
  {
    assert Within(a, b) && Within(b, a);
    forall k | k in a ensures a[k] == b[k] {
      assert a[k] <= b[k] && b[k] <= a[k];
    }
  }

  // ---------------------------------------------------------------------
  // Sizes of maps of sets, for termination

  /** The size of `m[k]`, or 0 without the key. */
  function Size(m: Sets, k: string): nat {
    if k in m then |m[k]| else 0
  }

  /** The sum of the sizes of the keys listed in `ks` (with repetition). */
  function Total(ks: seq<string>, m: Sets): nat
    decreases |ks|
  {
    if ks == [] then 0 else Size(m, ks[0]) + Total(ks[1..], m)
  }

  lemma SubsetSize(a: set<string>, b: set<string>)
    requires a <= b
    ensures |a| <= |b|
    ensures a < b ==> |a| < |b|
  {
    assert b == a + (b - a);
    assert a * (b - a) == {};
    if a < b {
      var x :| x in b - a;
      assert |b - a| >= 1 by {
        assert {x} <= b - a;
        assert |{x}| == 1;
      }
    }
  }

  /** A union grows the set exactly when something new was added. */
  lemma UnionGrows(a: set<string>, f: set<string>)
    ensures |a + f| >= |a|
    ensures |a + f| > |a| <==> !(f <= a)
  {
    SubsetSize(a, a + f);
    if f <= a {
      assert a + f == a;
    } else {
      assert a < a + f;
    }
  }

  lemma {:induction false} TotalMono(ks: seq<string>, a: Sets, b: Sets)
    requires Within(a, b)
    ensures Total(ks, a) <= Total(ks, b)
    decreases |ks|
  {
    if ks != [] {
      if ks[0] in a {
        SubsetSize(a[ks[0]], b[ks[0]]);
      }
      TotalMono(ks[1..], a, b);
    }
  }

  lemma {:induction false} TotalStrict(ks: seq<string>, a: Sets, b: Sets, key: string)
    requires Within(a, b) && key in ks && key in b && Size(a, key) < |b[key]|
    ensures Total(ks, a) < Total(ks, b)
    decreases |ks|
  {
    if ks[0] == key {
      TotalMono(ks[1..], a, b);
    } else {
      if ks[0] in a {
        SubsetSize(a[ks[0]], b[ks[0]]);
      }
      assert key in ks[1..];
      TotalStrict(ks[1..], a, b, key);
    }
  }

  lemma {:induction false} TotalBound(ks: seq<string>, m: Sets, u: set<string>)
    requires forall k :: k in m ==> m[k] <= u
    ensures Total(ks, m) <= |ks| * |u|
    decreases |ks|
  {
    if ks != [] {
      if ks[0] in m {
        SubsetSize(m[ks[0]], u);
      }
      TotalBound(ks[1..], m, u);
    }
  }

  // ---------------------------------------------------------------------
  // The predictive table

  /** The lookaheads under which GenerateTable writes `production` for
      `left`: its FIRST without "empty", and FOLLOW(left) when its FIRST has
      "empty". */
  function Select(left: string, production: seq<string>, terminals: set<string>, fs: Sets, fl: Sets): set<string> {
    var f := FirstOf(production, terminals, fs);
    (f - {Empty}) + (if Empty in f && left in fl then fl[left] else {})
  }

  /** A visited production: its left side and its symbols. */
  type Entry = (string, seq<string>)

  /** The lookahead sets of a given grammar analysis. */
  function Selector(terminals: set<string>, fs: Sets, fl: Sets): Entry -> set<string> {
    (e: Entry) => Select(e.0, e.1, terminals, fs, fl)
  }

  /** The table after writing `production` under every lookahead in `keys`. */
  function Write(t: Table, left: string, keys: set<string>, production: seq<string>): Table {
    t + map x | x in keys :: (left, x) := production
  }

  /** Writing the same production under two lookahead sets in turn is
      writing it under their union. */
  lemma WriteTwice(t: Table, left: string, a: set<string>, b: set<string>, production: seq<string>)
    ensures Write(Write(t, left, a, production), left, b, production) == Write(t, left, a + b, production)
  {
    var lhs := Write(Write(t, left, a, production), left, b, production);
    var rhs := Write(t, left, a + b, production);
    forall k | k in lhs ensures k in rhs && lhs[k] == rhs[k] {
    }
    forall k | k in rhs ensures k in lhs {
    }
  }

  /** Writing under no lookahead changes nothing. */
  lemma WriteNone(t: Table, left: string, production: seq<string>)
    ensures Write(t, left, {}, production) == t
  {
    var rhs := Write(t, left, {}, production);
    forall k | k in rhs ensures k in t {
    }
  }

  /** Writing under one lookahead is a single map update. */
  lemma WriteOne(t: Table, left: string, x: string, production: seq<string>)
    ensures t[(left, x) := production] == Write(t, left, {x}, production)
  {
    var lhs := t[(left, x) := production];
    var rhs := Write(t, left, {x}, production);
    forall k | k in rhs ensures k in lhs && lhs[k] == rhs[k] {
    }
  }

  /** The productions in the order GenerateTable visits them. */
  function Flat(rules: seq<GrammarRule>): seq<Entry>
    decreases |rules|
  {
    if rules == [] then []
    else Flat(rules[..|rules| - 1]) + Pairs(rules[|rules| - 1])
  }

  function Pairs(rule: GrammarRule): seq<Entry> {
    seq(|rule.right|, j requires 0 <= j < |rule.right| => (rule.left, rule.right[j]))
  }

  /** The table after the visited productions `ps`, each written in turn
      under the lookaheads `select` gives it. */
  function TableOf(ps: seq<Entry>, select: Entry -> set<string>): Table
    decreases |ps|
  {
    if ps == [] then map[]
    else
      var e := ps[|ps| - 1];
      Write(TableOf(ps[..|ps| - 1], select), e.0, select(e), e.1)
  }

  /** Some visited production of `a` selects `x`. */
  predicate Selects(ps: seq<Entry>, select: Entry -> set<string>, a: string, x: string) {
    exists k :: 0 <= k < |ps| && ps[k].0 == a && x in select(ps[k])
  }

  /** The table has an entry for (A, x) exactly when some production of A
      selects x. */
  lemma {:induction false} TableKeys(ps: seq<Entry>, select: Entry -> set<string>, a: string, x: string)
    ensures (a, x) in TableOf(ps, select) <==> Selects(ps, select, a, x)
    decreases |ps|
  {
    if ps != [] {
      var n := |ps| - 1;
      var init := ps[..n];
      TableKeys(init, select, a, x);
      if Selects(init, select, a, x) {
        var k :| 0 <= k < |init| && init[k].0 == a && x in select(init[k]);
        assert ps[k] == init[k];
      }
      if Selects(ps, select, a, x) && !(ps[n].0 == a && x in select(ps[n])) {
        var k :| 0 <= k < |ps| && ps[k].0 == a && x in select(ps[k]);
        assert k < n && init[k] == ps[k];
      }
    }
  }

  /** The entry for (A, x) is the last visited production of A that selects
      x: on an LL(1) conflict the later production silently wins. */
  lemma {:induction false} TableLastWins(ps: seq<Entry>, select: Entry -> set<string>, k: nat, x: string)
    requires k < |ps| && x in select(ps[k])
    requires forall l :: k < l < |ps| && ps[l].0 == ps[k].0 ==> x !in select(ps[l])
    ensures (ps[k].0, x) in TableOf(ps, select)
    ensures TableOf(ps, select)[(ps[k].0, x)] == ps[k].1
    decreases |ps|
  {
    var n := |ps| - 1;
    if k < n {
      var init := ps[..n];
      assert init[k] == ps[k];
      forall l | k < l < |init| && init[l].0 == init[k].0 ensures x !in select(init[l]) {
        assert init[l] == ps[l];
      }
      TableLastWins(init, select, k, x);
    }
  }

  /** When no FOLLOW set holds "empty", no table key has "empty" as its
      lookahead. */
  lemma NoEmptyLookahead(ps: seq<Entry>, terminals: set<string>, fs: Sets, fl: Sets, a: string)
    requires forall k :: k in fl ==> Empty !in fl[k]
    ensures (a, Empty) !in TableOf(ps, Selector(terminals, fs, fl))
  {
    TableKeys(ps, Selector(terminals, fs, fl), a, Empty);
  }
}
