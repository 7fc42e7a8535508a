/** The states the loops of ParserTableGenerator pass through, one
    predicate per loop, and the step lemmas that carry a state from one
    visit to the next. Each predicate ties the loop's map to the pure pass
    of module Passes, so the methods need only call these lemmas. */
module LoopStates {
  import opened LL1
  import opened Passes

  /** Lists a finite set (in some order), as a termination measure's index. */
  ghost function ListOf(s: set<string>): (r: seq<string>)
    ensures forall x :: x in s <==> x in r
    decreases s
  {
    if s == {} then []
    else
      var x :| x in s;
      [x] + ListOf(s - {x})
  }

  /** The productions visited before (i, j) are empty. */
  ghost predicate EmptyUpTo(rules: seq<GrammarRule>, i: int, j: int) {
    forall i', j' :: 0 <= i' < |rules| && 0 <= j' < |rules[i'].right| && Before2(i', j', i, j) ==>
      rules[i'].right[j'] == []
  }

  /** Without a non-empty production, every production is empty. */
  lemma AllProductionsEmpty(rules: seq<GrammarRule>, i: nat, j: nat)
    requires i < |rules| && j < |rules[i].right| && !HasNonEmptyProduction(rules)
    ensures rules[i].right[j] == []
  {
  }

  /** A map of empty sets on the left sides. */
  ghost predicate EmptyOnLefts(rules: seq<GrammarRule>, m: Sets) {
    m.Keys == Lefts(rules) && forall key :: key in m ==> m[key] == {}
  }

  // ---------------------------------------------------------------------
  // CalculateFirstSets

  /** Inside a FIRST pass that started from `start` and will end at `pass`,
      before production j of rule i. */
  ghost predicate FirstPassState(rules: seq<GrammarRule>, terminals: set<string>, keys: seq<string>,
                                 start: Sets, pass: Sets, m: Sets, changed: bool, noTerminals: bool, i: nat, j: nat) {
    var ok :=
      && i <= |rules| && (i < |rules| ==> j <= |rules[i].right|)
      && start.Keys == Lefts(rules)
      && Below(start, m)
      && FirstPassFrom(rules, terminals, m, i, j) == pass
      && (changed ==> Total(keys, start) < Total(keys, m))
      && (!changed ==> m == start)
      && (noTerminals ==> EmptyUpTo(rules, i, j));
    ok
  }

  /** Between FIRST passes: the keys are the left sides, the sets hold only
      grammar symbols and "empty", they are below every closed map, and a
      pass that changed nothing left them closed. */
  ghost predicate FirstLoopState(rules: seq<GrammarRule>, terminals: set<string>, m: Sets, changed: bool, noTerminals: bool) {
    var ok :=
      && m.Keys == Lefts(rules)
      && Bounded(m, Syms(rules) + {Empty})
      && BelowFirstClosed(rules, terminals, m)
      && (!changed ==> FirstClosed(rules, terminals, m))
      && (!changed && noTerminals ==> !HasNonEmptyProduction(rules));
    ok
  }

  lemma FirstLoopBegin(rules: seq<GrammarRule>, terminals: set<string>, m: Sets, noTerminals: bool)
    requires EmptyOnLefts(rules, m)
    ensures FirstLoopState(rules, terminals, m, true, noTerminals)
  {
  }

  lemma FirstPassBegin(rules: seq<GrammarRule>, terminals: set<string>, keys: seq<string>, start: Sets, noTerminals: bool)
    requires start.Keys == Lefts(rules)
    ensures FirstPassState(rules, terminals, keys, start, FirstPassFrom(rules, terminals, start, 0, 0), start, false, noTerminals, 0, 0)
  {
  }

  /** One production more is visited, and it is empty. */
  lemma EmptyUpToNext(rules: seq<GrammarRule>, i: nat, j: nat)
    requires i < |rules| && j < |rules[i].right|
    requires EmptyUpTo(rules, i, j) && rules[i].right[j] == []
    ensures EmptyUpTo(rules, i, j + 1)
  {
  }

  /** Joining `f` to one set keeps the pass's measure: the map grows,
      strictly in total when the set grew, and is unchanged when it did not. */
  lemma FirstGrowth(keys: seq<string>, start: Sets, m: Sets, changed: bool, key: string,
                    f: set<string>, next: Sets, grew: bool)
    requires Below(start, m) && key in m && key in keys
    requires changed ==> Total(keys, start) < Total(keys, m)
    requires !changed ==> m == start
    requires next == m[key := m[key] + f]
    requires grew == (|next[key]| > |m[key]|)
    ensures Below(start, next)
    ensures changed || grew ==> Total(keys, start) < Total(keys, next)
    ensures !(changed || grew) ==> next == start
  {
    assert next.Keys == m.Keys;
    UnionGrows(m[key], f);
    if grew {
      TotalMono(keys, start, m);
      TotalStrict(keys, m, next, key);
    } else {
      assert m[key] + f == m[key];
      assert next == m;
    }
  }

  lemma FirstUnfold(rules: seq<GrammarRule>, terminals: set<string>, m: Sets, i: nat, j: nat)
    requires i < |rules| && j < |rules[i].right| && Lefts(rules) <= m.Keys
    ensures rules[i].left in m
    ensures FirstPassFrom(rules, terminals, m, i, j) == FirstPassFrom(rules, terminals, FirstUpdate(rules, terminals, m, i, j), i, j + 1)
  {
    assert rules[i].left in Lefts(rules);
  }

  /** Visiting production j of rule i: `f` joins the left side's set, and
      `grew` says whether its size went up. */
  lemma FirstVisit(rules: seq<GrammarRule>, terminals: set<string>, keys: seq<string>, start: Sets, pass: Sets,
                   m: Sets, changed: bool, noTerminals: bool, i: nat, j: nat, f: set<string>, next: Sets, grew: bool)
    requires FirstPassState(rules, terminals, keys, start, pass, m, changed, noTerminals, i, j)
    requires i < |rules| && j < |rules[i].right| && rules[i].left in m && rules[i].left in keys
    requires noTerminals ==> rules[i].right[j] == []
    requires f == FirstOf(rules[i].right[j], terminals, m)
    requires next == m[rules[i].left := m[rules[i].left] + f]
    requires grew == (|next[rules[i].left]| > |m[rules[i].left]|)
    ensures FirstPassState(rules, terminals, keys, start, pass, next, changed || grew, noTerminals, i, j + 1)
  {
    FirstUnfold(rules, terminals, m, i, j);
    assert next == FirstUpdate(rules, terminals, m, i, j);
    if noTerminals {
      EmptyUpToNext(rules, i, j);
    }
    FirstGrowth(keys, start, m, changed, rules[i].left, f, next, grew);
  }

  lemma FirstNextRule(rules: seq<GrammarRule>, terminals: set<string>, keys: seq<string>, start: Sets, pass: Sets,
                      m: Sets, changed: bool, noTerminals: bool, i: nat)
    requires i < |rules|
    requires FirstPassState(rules, terminals, keys, start, pass, m, changed, noTerminals, i, |rules[i].right|)
    ensures FirstPassState(rules, terminals, keys, start, pass, m, changed, noTerminals, i + 1, 0)
  {
  }

  /** A whole FIRST pass from a map below every closed map stays below
      them, and a pass that returns its start has reached a closed map. */
  lemma FirstPassLeast(rules: seq<GrammarRule>, terminals: set<string>, start: Sets)
    requires start.Keys == Lefts(rules) && BelowFirstClosed(rules, terminals, start)
    ensures BelowFirstClosed(rules, terminals, FirstPassFrom(rules, terminals, start, 0, 0))
    ensures FirstPassFrom(rules, terminals, start, 0, 0) == start ==> FirstClosed(rules, terminals, start)
  {
    forall other: Sets | other.Keys == Lefts(rules) && FirstClosed(rules, terminals, other)
      ensures Below(FirstPassFrom(rules, terminals, start, 0, 0), other)
    {
      FirstPassBelow(rules, terminals, start, other, 0, 0);
    }
    if FirstPassFrom(rules, terminals, start, 0, 0) == start {
      FirstPassFixed(rules, terminals, start, 0, 0);
    }
  }

  /** The total of a map bounded by `universe` is at most |keys| * |universe|. */
  lemma FirstPassBounds(rules: seq<GrammarRule>, terminals: set<string>, keys: seq<string>, start: Sets)
    requires start.Keys == Lefts(rules) && Bounded(start, Syms(rules) + {Empty})
    ensures var pass := FirstPassFrom(rules, terminals, start, 0, 0);
      && pass.Keys == Lefts(rules) && Bounded(pass, Syms(rules) + {Empty})
      && Total(keys, start) <= |keys| * |Syms(rules) + {Empty}|
      && Total(keys, pass) <= |keys| * |Syms(rules) + {Empty}|
  {
    var universe := Syms(rules) + {Empty};
    FirstPassGrows(rules, terminals, start, 0, 0);
    FirstPassBounded(rules, terminals, universe, start, 0, 0);
    TotalBound(keys, start, universe);
    TotalBound(keys, FirstPassFrom(rules, terminals, start, 0, 0), universe);
  }

  /** At the end of a FIRST pass the map is the pass's result, and without
      terminal names every production was empty. */
  lemma FirstPassEnd(rules: seq<GrammarRule>, terminals: set<string>, keys: seq<string>, start: Sets, pass: Sets,
                     m: Sets, changed: bool, noTerminals: bool)
    requires FirstPassState(rules, terminals, keys, start, pass, m, changed, noTerminals, |rules|, 0)
    ensures m == pass
    ensures noTerminals ==> !HasNonEmptyProduction(rules)
  {
  }

  /** After a whole FIRST pass: the loop state holds again, and a pass that
      changed something increased the total size. */
  lemma FirstPassDone(rules: seq<GrammarRule>, terminals: set<string>, keys: seq<string>, start: Sets,
                      m: Sets, changed: bool, noTerminals: bool)
    requires FirstLoopState(rules, terminals, start, true, noTerminals)
    requires m == FirstPassFrom(rules, terminals, start, 0, 0)
    requires changed ==> Total(keys, start) < Total(keys, m)
    requires !changed ==> m == start
    requires noTerminals ==> !HasNonEmptyProduction(rules)
    ensures FirstLoopState(rules, terminals, m, changed, noTerminals)
    ensures changed ==> Total(keys, start) < Total(keys, m)
    ensures Total(keys, start) <= |keys| * |Syms(rules) + {Empty}|
    ensures Total(keys, m) <= |keys| * |Syms(rules) + {Empty}|
  {
    FirstPassLeast(rules, terminals, start);
    FirstPassBounds(rules, terminals, keys, start);
  }

  // ---------------------------------------------------------------------
  // CalculateFollowSets

  /** Inside a FOLLOW pass that started from `start` and will end at `pass`,
      before occurrence k of production j of rule i. */
  ghost predicate FollowPassState(rules: seq<GrammarRule>, terminals: set<string>, fs: Sets, keys: seq<string>,
                                  start: Sets, pass: Sets, m: Sets, changed: bool, noTerminals: bool, i: nat, j: nat, k: nat) {
    var ok :=
      && FollowPosition(rules, i, j, k)
      && Lefts(rules) <= start.Keys
      && Lefts(rules) <= m.Keys
      && Within(start, m)
      && FollowPassFrom(rules, terminals, fs, m, i, j, k) == pass
      && (changed ==> Total(keys, start) < Total(keys, m))
      && (!changed ==> Extends(start, m))
      && (noTerminals ==> EmptyUpTo(rules, i, j) && k == 0);
    ok
  }

  /** The sets FOLLOW may hold: grammar symbols, members of FIRST sets,
      "empty" and "$". */
  function FollowUniverse(rules: seq<GrammarRule>, fs: Sets): set<string> {
    Syms(rules) + (set key, x | key in fs && x in fs[key] :: x) + {Empty, EndMarker}
  }

  /** Between FOLLOW passes. */
  ghost predicate FollowLoopState(rules: seq<GrammarRule>, terminals: set<string>, fs: Sets, m: Sets, changed: bool, noTerminals: bool) {
    var ok :=
      && Lefts(rules) <= m.Keys <= Lefts(rules) + NonTerminalSyms(rules, terminals)
      && BoundedNoEmpty(m, FollowUniverse(rules, fs))
      && StartSymbol in m && EndMarker in m[StartSymbol]
      && WithinFollowClosed(rules, terminals, fs, m)
      && (!changed ==> FollowClosed(rules, terminals, fs, m) && NonTerminalSyms(rules, terminals) <= m.Keys)
      && (!changed && noTerminals ==> !HasNonEmptyProduction(rules));
    ok
  }

  /** The FOLLOW loop starts from empty sets on the left sides, with "$"
      added for the start symbol. */
  lemma FollowLoopBegin(rules: seq<GrammarRule>, terminals: set<string>, fs: Sets, empty: Sets, m: Sets, noTerminals: bool)
    requires EmptyOnLefts(rules, empty) && StartSymbol in empty
    requires m == empty[StartSymbol := empty[StartSymbol] + {EndMarker}]
    ensures FollowLoopState(rules, terminals, fs, m, true, noTerminals)
  {
    forall other: Sets | Lefts(rules) <= other.Keys && FollowClosed(rules, terminals, fs, other)
      ensures Within(m, other)
    {
    }
  }

  lemma FollowPassBegin(rules: seq<GrammarRule>, terminals: set<string>, fs: Sets, keys: seq<string>, start: Sets, noTerminals: bool)
    requires Lefts(rules) <= start.Keys
    ensures FollowPassState(rules, terminals, fs, keys, start, FollowPassFrom(rules, terminals, fs, start, 0, 0, 0), start, false, noTerminals, 0, 0, 0)
  {
  }

  /** Visiting a terminal changes nothing. */
  lemma FollowVisitTerminal(rules: seq<GrammarRule>, terminals: set<string>, fs: Sets, keys: seq<string>, start: Sets, pass: Sets,
                            m: Sets, changed: bool, noTerminals: bool, i: nat, j: nat, k: nat)
    requires FollowPassState(rules, terminals, fs, keys, start, pass, m, changed, noTerminals, i, j, k)
    requires i < |rules| && j < |rules[i].right| && k < |rules[i].right[j]| && !noTerminals
    requires rules[i].right[j][k] in terminals
    ensures FollowPassState(rules, terminals, fs, keys, start, pass, m, changed, noTerminals, i, j, k + 1)
  {
    assert rules[i].left in Lefts(rules);
  }

  /** Joining `follow` to one set keeps the pass's measure: the map grows,
      strictly in total when the set grew, and only extends when it did not. */
  lemma FollowGrowth(keys: seq<string>, start: Sets, m: Sets, changed: bool, symbol: string,
                     follow: set<string>, next: Sets, grew: bool)
    requires Within(start, m) && symbol in keys
    requires changed ==> Total(keys, start) < Total(keys, m)
    requires !changed ==> Extends(start, m)
    requires next == m[symbol := Size0(m, symbol) + follow]
    requires grew == (|next[symbol]| > |Size0(m, symbol)|)
    ensures Within(start, next)
    ensures changed || grew ==> Total(keys, start) < Total(keys, next)
    ensures !(changed || grew) ==> Extends(start, next)
  {
    assert Within(m, next);
    TotalMono(keys, m, next);
    TotalMono(keys, start, m);
    UnionGrows(Size0(m, symbol), follow);
    if grew {
      TotalStrict(keys, m, next, symbol);
    } else {
      assert Size0(m, symbol) + follow == Size0(m, symbol);
    }
  }

  /** Creating a missing set and then joining `follow` to it is joining
      `follow` to Size0. */
  lemma CreateThenJoin(m: Sets, symbol: string, follow: set<string>, created: Sets, next: Sets)
    requires created == if symbol in m then m else m[symbol := {}]
    requires next == created[symbol := created[symbol] + follow]
    ensures next == m[symbol := Size0(m, symbol) + follow]
    ensures |created[symbol]| == |Size0(m, symbol)|
  {
  }

  /** Visiting a non-terminal: `follow` joins its set (created empty when
      missing), and `grew` says whether the set's size went up. */
  lemma FollowVisit(rules: seq<GrammarRule>, terminals: set<string>, fs: Sets, keys: seq<string>, start: Sets, pass: Sets,
                    m: Sets, changed: bool, noTerminals: bool, i: nat, j: nat, k: nat,
                    suffixFirst: set<string>, follow: set<string>, next: Sets, grew: bool)
    requires FollowPassState(rules, terminals, fs, keys, start, pass, m, changed, noTerminals, i, j, k)
    requires i < |rules| && j < |rules[i].right| && k < |rules[i].right[j]| && !noTerminals
    requires rules[i].right[j][k] !in terminals && rules[i].left in m
    requires rules[i].right[j][k] in keys
    requires suffixFirst == FirstOf(rules[i].right[j][k + 1..], terminals, fs)
    requires Empty in suffixFirst || k + 1 == |rules[i].right[j]| ==> follow == (suffixFirst - {Empty}) + m[rules[i].left]
    requires !(Empty in suffixFirst || k + 1 == |rules[i].right[j]|) ==> follow == suffixFirst - {Empty}
    requires var symbol := rules[i].right[j][k];
      next == m[symbol := Size0(m, symbol) + follow]
    requires grew == (|next[rules[i].right[j][k]]| > |Size0(m, rules[i].right[j][k])|)
    ensures FollowPassState(rules, terminals, fs, keys, start, pass, next, changed || grew, noTerminals, i, j, k + 1)
  {
    var symbol := rules[i].right[j][k];
    if |rules[i].right[j][k + 1..]| == 0 {
      FirstOfNil(terminals, fs);
    }
    assert next == FollowUpdate(rules, terminals, fs, m, i, j, k);
    FollowGrowth(keys, start, m, changed, symbol, follow, next, grew);
  }

  lemma FollowNextProduction(rules: seq<GrammarRule>, terminals: set<string>, fs: Sets, keys: seq<string>, start: Sets, pass: Sets,
                             m: Sets, changed: bool, noTerminals: bool, i: nat, j: nat)
    requires i < |rules| && j < |rules[i].right|
    requires FollowPassState(rules, terminals, fs, keys, start, pass, m, changed, noTerminals, i, j, |rules[i].right[j]|)
    ensures FollowPassState(rules, terminals, fs, keys, start, pass, m, changed, noTerminals, i, j + 1, 0)
  {
  }

  lemma FollowNextRule(rules: seq<GrammarRule>, terminals: set<string>, fs: Sets, keys: seq<string>, start: Sets, pass: Sets,
                       m: Sets, changed: bool, noTerminals: bool, i: nat)
    requires i < |rules|
    requires FollowPassState(rules, terminals, fs, keys, start, pass, m, changed, noTerminals, i, |rules[i].right|, 0)
    ensures FollowPassState(rules, terminals, fs, keys, start, pass, m, changed, noTerminals, i + 1, 0, 0)
  {
  }

  /** A pass that visited every occurrence gave every non-terminal a key. */
  lemma KeyedAll(rules: seq<GrammarRule>, terminals: set<string>, m: Sets)
    requires KeyedFrom(rules, terminals, m, 0, 0, 0)
    ensures NonTerminalSyms(rules, terminals) <= m.Keys
  {
    forall x | x in NonTerminalSyms(rules, terminals) ensures x in m {
      var i, j, k :| 0 <= i < |rules| && 0 <= j < |rules[i].right| && 0 <= k < |rules[i].right[j]| && rules[i].right[j][k] == x;
    }
  }

  /** A whole FOLLOW pass from a map within every closed map stays within
      them, and a pass that only extends its start has reached a closed map
      that gives every non-terminal a key. */
  lemma FollowPassLeast(rules: seq<GrammarRule>, terminals: set<string>, fs: Sets, start: Sets)
    requires Lefts(rules) <= start.Keys && WithinFollowClosed(rules, terminals, fs, start)
    requires StartSymbol in start && EndMarker in start[StartSymbol]
    ensures WithinFollowClosed(rules, terminals, fs, FollowPassFrom(rules, terminals, fs, start, 0, 0, 0))
    ensures var pass := FollowPassFrom(rules, terminals, fs, start, 0, 0, 0);
      Extends(start, pass) ==> FollowClosed(rules, terminals, fs, pass) && NonTerminalSyms(rules, terminals) <= pass.Keys
  {
    var pass := FollowPassFrom(rules, terminals, fs, start, 0, 0, 0);
    forall other: Sets | Lefts(rules) <= other.Keys && FollowClosed(rules, terminals, fs, other)
      ensures Within(pass, other)
    {
      FollowPassWithin(rules, terminals, fs, start, other, 0, 0, 0);
    }
    if Extends(start, pass) {
      FollowPassGrows(rules, terminals, fs, start, 0, 0, 0);
      FollowPassFixed(rules, terminals, fs, start, 0, 0, 0);
      KeyedAll(rules, terminals, pass);
    }
  }

  /** The keys and sets a FOLLOW pass can reach, and the totals they bound. */
  lemma FollowPassBounds(rules: seq<GrammarRule>, terminals: set<string>, fs: Sets, keys: seq<string>, start: Sets)
    requires Lefts(rules) <= start.Keys <= Lefts(rules) + NonTerminalSyms(rules, terminals)
    requires BoundedNoEmpty(start, FollowUniverse(rules, fs))
    requires StartSymbol in start && EndMarker in start[StartSymbol]
    ensures var pass := FollowPassFrom(rules, terminals, fs, start, 0, 0, 0);
      && Lefts(rules) <= pass.Keys <= Lefts(rules) + NonTerminalSyms(rules, terminals)
      && BoundedNoEmpty(pass, FollowUniverse(rules, fs))
      && StartSymbol in pass && EndMarker in pass[StartSymbol]
      && Total(keys, start) <= |keys| * |FollowUniverse(rules, fs)|
      && Total(keys, pass) <= |keys| * |FollowUniverse(rules, fs)|
  {
    var universe := FollowUniverse(rules, fs);
    var pass := FollowPassFrom(rules, terminals, fs, start, 0, 0, 0);
    assert Bounded(fs, universe);
    FollowPassGrows(rules, terminals, fs, start, 0, 0, 0);
    FollowPassBounded(rules, terminals, fs, universe, start, 0, 0, 0);
    TotalBound(keys, start, universe);
    TotalBound(keys, pass, universe);
  }

  /** At the end of a FOLLOW pass the map is the pass's result, and without
      terminal names every production was empty. */
  lemma FollowPassEnd(rules: seq<GrammarRule>, terminals: set<string>, fs: Sets, keys: seq<string>, start: Sets, pass: Sets,
                      m: Sets, changed: bool, noTerminals: bool)
    requires FollowPassState(rules, terminals, fs, keys, start, pass, m, changed, noTerminals, |rules|, 0, 0)
    ensures m == pass
    ensures noTerminals ==> !HasNonEmptyProduction(rules)
  {
  }

  /** After a whole FOLLOW pass. */
  lemma FollowPassDone(rules: seq<GrammarRule>, terminals: set<string>, fs: Sets, keys: seq<string>, start: Sets,
                       m: Sets, changed: bool, noTerminals: bool)
    requires FollowLoopState(rules, terminals, fs, start, true, noTerminals)
    requires m == FollowPassFrom(rules, terminals, fs, start, 0, 0, 0)
    requires changed ==> Total(keys, start) < Total(keys, m)
    requires !changed ==> Extends(start, m)
    requires noTerminals ==> !HasNonEmptyProduction(rules)
    ensures FollowLoopState(rules, terminals, fs, m, changed, noTerminals)
    ensures changed ==> Total(keys, start) < Total(keys, m)
    ensures !changed ==> Total(keys, start) == Total(keys, m)
    ensures Total(keys, start) <= |keys| * |FollowUniverse(rules, fs)|
    ensures Total(keys, m) <= |keys| * |FollowUniverse(rules, fs)|
  {
    FollowPassLeast(rules, terminals, fs, start);
    FollowPassBounds(rules, terminals, fs, keys, start);
    if !changed {
      ExtendsTotal(keys, start, m);
    }
  }

  /** The FOLLOW loop ends on the least closed map. */
  lemma FollowLoopExit(rules: seq<GrammarRule>, terminals: set<string>, fs: Sets, m: Sets, noTerminals: bool)
    requires FollowLoopState(rules, terminals, fs, m, false, noTerminals)
    ensures IsFollowSets(rules, terminals, fs, m)
    ensures forall key :: key in m ==> Empty !in m[key]
    ensures noTerminals ==> !HasNonEmptyProduction(rules)
  {
  }

  // ---------------------------------------------------------------------
  // GenerateTable

  /** Visiting member x of `todo` in a write loop: the table written so far
      gains the entry for x unless x is skipped. */
  lemma WriteVisit(t0: Table, left: string, all: set<string>, skip: set<string>, todo: set<string>, x: string,
                   p: seq<string>, t: Table, next: Table)
    requires x in todo && todo <= all
    requires t == Write(t0, left, (all - todo) - skip, p)
    requires next == if x in skip then t else t[(left, x) := p]
    ensures next == Write(t0, left, (all - (todo - {x})) - skip, p)
  {
    if x in skip {
      assert (all - (todo - {x})) - skip == (all - todo) - skip;
    } else {
      assert (all - (todo - {x})) - skip == ((all - todo) - skip) + {x};
      WriteOne(t, left, x, p);
      WriteTwice(t0, left, (all - todo) - skip, {x}, p);
    }
  }

  /** The lookaheads a production selects, from its FIRST set. */
  lemma SelectorAt(terminals: set<string>, fs: Sets, fl: Sets, left: string, production: seq<string>, first: set<string>)
    requires first == FirstOf(production, terminals, fs) && left in fl
    ensures Selector(terminals, fs, fl)((left, production)) == (first - {Empty}) + (if Empty in first then fl[left] else {})
  {
  }

  /** Writing the lookaheads of production j of rule i extends the table of
      the productions before it by that production. */
  lemma TableNext(rules: seq<GrammarRule>, select: Entry -> set<string>, i: nat, j: nat, lookaheads: set<string>,
                  table: Table, next: Table)
    requires i < |rules| && j < |rules[i].right|
    requires table == TableOf(Flat(rules[..i]) + Pairs(rules[i])[..j], select)
    requires select((rules[i].left, rules[i].right[j])) == lookaheads
    requires next == Write(table, rules[i].left, lookaheads, rules[i].right[j])
    ensures next == TableOf(Flat(rules[..i]) + Pairs(rules[i])[..j + 1], select)
  {
    var ps := Flat(rules[..i]) + Pairs(rules[i])[..j + 1];
    assert ps[..|ps| - 1] == Flat(rules[..i]) + Pairs(rules[i])[..j];
    assert ps[|ps| - 1] == (rules[i].left, rules[i].right[j]);
  }

  /** After the last production of rule i, the table is that of the rules
      up to i. */
  lemma TableNextRule(rules: seq<GrammarRule>, select: Entry -> set<string>, i: nat, table: Table)
    requires i < |rules|
    requires table == TableOf(Flat(rules[..i]) + Pairs(rules[i])[..|rules[i].right|], select)
    ensures table == TableOf(Flat(rules[..i + 1]), select)
  {
    assert rules[..i + 1][..i] == rules[..i];
    assert Pairs(rules[i])[..|rules[i].right|] == Pairs(rules[i]);
  }

  lemma TableStart(rules: seq<GrammarRule>, select: Entry -> set<string>, i: nat, table: Table)
    requires i < |rules|
    requires table == TableOf(Flat(rules[..i]), select)
    ensures table == TableOf(Flat(rules[..i]) + Pairs(rules[i])[..0], select)
  {
    assert Flat(rules[..i]) + Pairs(rules[i])[..0] == Flat(rules[..i]);
  }
}
