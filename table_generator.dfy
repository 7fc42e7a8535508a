/** ParserTableGenerator.cs: builds an LL(1) table from grammar rules and a
    map of terminal names. Every loop is proved against the definitions in
    module LL1: First computes FirstOf, the two do-while loops reach the
    least closed FIRST and FOLLOW maps, and GenerateTable writes TableOf. */
module TableGenerator {
  import opened Common
  import opened LL1
  import opened Passes
  import opened LoopStates

  class ParserTableGenerator {
    /** The terminal names; None until LoadTerminalSymbolsMap. */
    var terminalSymbolsMap: Option<map<string, string>>

    constructor()
      ensures terminalSymbolsMap == None
    {
      terminalSymbolsMap := None;
    }

    /** The names IsTerminal accepts (none before loading). */
    function Terminals(): set<string>
      reads this
    {
      if terminalSymbolsMap.Some? then terminalSymbolsMap.value.Keys else {}
    }

    /** A symbol is terminal when it is a key of the loaded map; before
        loading the map is null and the lookup throws. */
    function IsTerminal(symbol: string): (r: Result<bool>)
      reads this
      ensures r.Err? <==> terminalSymbolsMap.None?
      ensures r.Err? ==> r.error == NullReference
      ensures r.Ok? ==> (r.value <==> symbol in Terminals())
    {
      if terminalSymbolsMap.None? then Err(NullReference)
      else Ok(symbol in terminalSymbolsMap.value)
    }

    method LoadTerminalSymbolsMap(terminalSymbols: map<string, string>)
      modifies this
      ensures terminalSymbolsMap == Some(terminalSymbols)
      ensures Terminals() == terminalSymbols.Keys
    {
      terminalSymbolsMap := Some(terminalSymbols);
    }

    /** FIRST of a symbol string; the first IsTerminal throws before
        loading. */
    method First(symbols: seq<string>, firstSets: Sets) returns (r: Result<set<string>>)
      ensures r.Err? <==> terminalSymbolsMap.None? && symbols != []
      ensures r.Err? ==> r.error == NullReference
      ensures r.Ok? ==> r.value == FirstOf(symbols, Terminals(), firstSets)
    {
      ghost var terminals := Terminals();
      var result: set<string> := {};
      var i := 0;
      while i < |symbols|
        invariant 0 <= i <= |symbols|
        invariant terminalSymbolsMap.Some? || i == 0
        invariant FirstScan(symbols, terminals, firstSets) == result + FirstScan(symbols[i..], terminals, firstSets)
      {
        var symbol := symbols[i];
        assert symbols[i..][0] == symbol && symbols[i..][1..] == symbols[i + 1..];
        var isTerminal :- IsTerminal(symbol);
        if isTerminal || symbol == Empty {
          result := result + {symbol};
          assert result == FirstScan(symbols, terminals, firstSets);
          break;
        }
        if symbol in firstSets {
          result := result + (firstSets[symbol] - {Empty});
          if Empty !in firstSets[symbol] {
            assert result == FirstScan(symbols, terminals, firstSets);
            break;
          }
        }
        i := i + 1;
      }
      if AllNullable(symbols, firstSets) {
        result := result + {Empty};
      }
      return Ok(result);
    }

    /** The FIRST sets: every left side starts empty, then passes over all
        productions add FIRST of each production to its left side until a
        pass adds nothing. */
    method CalculateFirstSets(rules: seq<GrammarRule>) returns (r: Result<Sets>)
      ensures r.Err? <==> terminalSymbolsMap.None? && HasNonEmptyProduction(rules)
      ensures r.Err? ==> r.error == NullReference
      ensures r.Ok? ==> IsFirstSets(rules, Terminals(), r.value)
      ensures r.Ok? ==> forall key :: key in r.value ==> r.value[key] <= Syms(rules) + {Empty}
    {
      ghost var terminals := Terminals();
      ghost var noTerminals := terminalSymbolsMap.None?;
      ghost var keys := ListOf(Lefts(rules));
      var firstSets: Sets := map[];
      for i := 0 to |rules|
        invariant firstSets.Keys == set l | 0 <= l < i :: rules[l].left
        invariant forall key :: key in firstSets ==> firstSets[key] == {}
      {
        firstSets := firstSets[rules[i].left := {}];
      }
      FirstLoopBegin(rules, terminals, firstSets, noTerminals);
      ghost var bound := |keys| * |Syms(rules) + {Empty}|;
      var changed := true;
      while changed
        invariant FirstLoopState(rules, terminals, firstSets, changed, noTerminals)
        decreases bound - Total(keys, firstSets), changed
      {
        ghost var start := firstSets;
        var pr := FirstPass(rules, firstSets, keys);
        if pr.Err? {
          return Err(pr.error);
        }
        firstSets, changed := pr.value.0, pr.value.1;
        FirstPassDone(rules, terminals, keys, start, firstSets, changed, noTerminals);
      }
      return Ok(firstSets);
    }

    /** One pass of CalculateFirstSets' do-while body: every production's
        FIRST joins its left side's set; `changed` reports whether a set
        grew. */
    method FirstPass(rules: seq<GrammarRule>, firstSets: Sets, ghost keys: seq<string>) returns (r: Result<(Sets, bool)>)
      requires firstSets.Keys == Lefts(rules)
      requires keys == ListOf(Lefts(rules))
      ensures r.Err? ==> terminalSymbolsMap.None? && HasNonEmptyProduction(rules) && r.error == NullReference
      ensures r.Ok? ==> r.value.0 == FirstPassFrom(rules, Terminals(), firstSets, 0, 0)
      ensures r.Ok? && r.value.1 ==> Total(keys, firstSets) < Total(keys, r.value.0)
      ensures r.Ok? && !r.value.1 ==> r.value.0 == firstSets
      ensures r.Ok? && terminalSymbolsMap.None? ==> !HasNonEmptyProduction(rules)
    {
      ghost var terminals := Terminals();
      ghost var noTerminals := terminalSymbolsMap.None?;
      ghost var pass := FirstPassFrom(rules, terminals, firstSets, 0, 0);
      FirstPassBegin(rules, terminals, keys, firstSets, noTerminals);
      var sets := firstSets;
      var changed := false;
      for i := 0 to |rules|
        invariant FirstPassState(rules, terminals, keys, firstSets, pass, sets, changed, noTerminals, i, 0)
      {
        var rule := rules[i];
        for j := 0 to |rule.right|
          invariant FirstPassState(rules, terminals, keys, firstSets, pass, sets, changed, noTerminals, i, j)
        {
          var production := rule.right[j];
          var fr := First(production, sets);
          if fr.Err? {
            assert HasNonEmptyProduction(rules) by {
              assert rules[i].right[j] != [];
            }
            return Err(fr.error);
          }
          var f := fr.value;
          assert rule.left in Lefts(rules) && rule.left in keys;
          var initialCount := |sets[rule.left]|;
          ghost var previous := sets;
          sets := sets[rule.left := sets[rule.left] + f];
          FirstVisit(rules, terminals, keys, firstSets, pass, previous, changed, noTerminals, i, j, f, sets,
                     |sets[rule.left]| > initialCount);
          if |sets[rule.left]| > initialCount {
            changed := true;
          }
        }
        FirstNextRule(rules, terminals, keys, firstSets, pass, sets, changed, noTerminals, i);
      }
      FirstPassEnd(rules, terminals, keys, firstSets, pass, sets, changed, noTerminals);
      return Ok((sets, changed));
    }

    /** The FOLLOW sets: every left side starts empty, "$" follows
        COMPILATION_UNIT (a missing key throws), then passes over every
        non-terminal occurrence add what may follow it, creating its set on
        first sight, until a pass adds nothing. */
    method CalculateFollowSets(rules: seq<GrammarRule>, firstSets: Sets) returns (r: Result<Sets>)
      ensures StartSymbol !in Lefts(rules) ==> r == Err(KeyNotFound(StartSymbol))
      ensures StartSymbol in Lefts(rules) ==>
        (r.Err? <==> terminalSymbolsMap.None? && HasNonEmptyProduction(rules))
      ensures StartSymbol in Lefts(rules) && r.Err? ==> r.error == NullReference
      ensures r.Ok? ==> IsFollowSets(rules, Terminals(), firstSets, r.value)
      ensures r.Ok? ==> forall key :: key in r.value ==> Empty !in r.value[key]
    {
      ghost var terminals := Terminals();
      ghost var noTerminals := terminalSymbolsMap.None?;
      ghost var keys := ListOf(Lefts(rules) + Syms(rules));
      var followSets: Sets := map[];
      for i := 0 to |rules|
        invariant followSets.Keys == set l | 0 <= l < i :: rules[l].left
        invariant forall key :: key in followSets ==> followSets[key] == {}
      {
        if rules[i].left !in followSets {
          followSets := followSets[rules[i].left := {}];
        }
      }
      if StartSymbol !in followSets {
        return Err(KeyNotFound(StartSymbol));
      }
      ghost var empty := followSets;
      followSets := followSets[StartSymbol := followSets[StartSymbol] + {EndMarker}];
      FollowLoopBegin(rules, terminals, firstSets, empty, followSets, noTerminals);
      ghost var bound := |keys| * |FollowUniverse(rules, firstSets)|;
      var changed := true;
      while changed
        invariant FollowLoopState(rules, terminals, firstSets, followSets, changed, noTerminals)
        decreases bound - Total(keys, followSets), changed
      {
        ghost var start := followSets;
        var pr := FollowPass(rules, firstSets, followSets, keys);
        if pr.Err? {
          return Err(pr.error);
        }
        followSets, changed := pr.value.0, pr.value.1;
        FollowPassDone(rules, terminals, firstSets, keys, start, followSets, changed, noTerminals);
      }
      FollowLoopExit(rules, terminals, firstSets, followSets, noTerminals);
      return Ok(followSets);
    }

    /** One pass of CalculateFollowSets' do-while body over every symbol
        occurrence; `changed` reports whether a set grew. */
    method FollowPass(rules: seq<GrammarRule>, firstSets: Sets, followSets: Sets, ghost keys: seq<string>)
      returns (r: Result<(Sets, bool)>)
      requires Lefts(rules) <= followSets.Keys
      requires keys == ListOf(Lefts(rules) + Syms(rules))
      ensures r.Err? ==> terminalSymbolsMap.None? && HasNonEmptyProduction(rules) && r.error == NullReference
      ensures r.Ok? ==> r.value.0 == FollowPassFrom(rules, Terminals(), firstSets, followSets, 0, 0, 0)
      ensures r.Ok? && r.value.1 ==> Total(keys, followSets) < Total(keys, r.value.0)
      ensures r.Ok? && !r.value.1 ==> Extends(followSets, r.value.0)
      ensures r.Ok? && terminalSymbolsMap.None? ==> !HasNonEmptyProduction(rules)
    {
      ghost var terminals := Terminals();
      ghost var noTerminals := terminalSymbolsMap.None?;
      ghost var pass := FollowPassFrom(rules, terminals, firstSets, followSets, 0, 0, 0);
      FollowPassBegin(rules, terminals, firstSets, keys, followSets, noTerminals);
      var sets := followSets;
      var changed := false;
      for i := 0 to |rules|
        invariant FollowPassState(rules, terminals, firstSets, keys, followSets, pass, sets, changed, noTerminals, i, 0, 0)
      {
        var rule := rules[i];
        for j := 0 to |rule.right|
          invariant FollowPassState(rules, terminals, firstSets, keys, followSets, pass, sets, changed, noTerminals, i, j, 0)
        {
          var pr := FollowProduction(rules, firstSets, keys, followSets, pass, sets, changed, i, j);
          if pr.Err? {
            return Err(pr.error);
          }
          sets, changed := pr.value.0, pr.value.1;
          FollowNextProduction(rules, terminals, firstSets, keys, followSets, pass, sets, changed, noTerminals, i, j);
        }
        FollowNextRule(rules, terminals, firstSets, keys, followSets, pass, sets, changed, noTerminals, i);
      }
      FollowPassEnd(rules, terminals, firstSets, keys, followSets, pass, sets, changed, noTerminals);
      return Ok((sets, changed));
    }

    /** The inner loop of a FOLLOW pass over the symbols of production j
        of rule i: a terminal is skipped; a non-terminal's set (created when
        missing) takes FIRST of the rest of the production, without "empty",
        and the left side's set when the rest can vanish. */
    method FollowProduction(rules: seq<GrammarRule>, firstSets: Sets, ghost keys: seq<string>, ghost start: Sets, ghost pass: Sets,
                            sets: Sets, changed: bool, i: nat, j: nat) returns (r: Result<(Sets, bool)>)
      requires i < |rules| && j < |rules[i].right|
      requires keys == ListOf(Lefts(rules) + Syms(rules))
      requires FollowPassState(rules, Terminals(), firstSets, keys, start, pass, sets, changed, terminalSymbolsMap.None?, i, j, 0)
      ensures r.Err? ==> terminalSymbolsMap.None? && rules[i].right[j] != [] && r.error == NullReference
      ensures r.Ok? ==> FollowPassState(rules, Terminals(), firstSets, keys, start, pass, r.value.0, r.value.1,
                                        terminalSymbolsMap.None?, i, j, |rules[i].right[j]|)
    {
      ghost var terminals := Terminals();
      ghost var noTerminals := terminalSymbolsMap.None?;
      var production := rules[i].right[j];
      var sets, changed := sets, changed;
      for k := 0 to |production|
        invariant FollowPassState(rules, terminals, firstSets, keys, start, pass, sets, changed, noTerminals, i, j, k)
      {
        var failed;
        failed, sets, changed := FollowSymbol(rules, firstSets, keys, start, pass, sets, changed, i, j, k);
        if failed {
          return Err(NullReference);
        }
      }
      return Ok((sets, changed));
    }

    /** One turn of the inner FOLLOW loop, at symbol k of production j of
        rule i: a terminal is passed over, a non-terminal's set is updated. */
    method FollowSymbol(rules: seq<GrammarRule>, firstSets: Sets, ghost keys: seq<string>, ghost start: Sets, ghost pass: Sets,
                        sets: Sets, changed: bool, i: nat, j: nat, k: nat) returns (failed: bool, next: Sets, nextChanged: bool)
      requires i < |rules| && j < |rules[i].right| && k < |rules[i].right[j]|
      requires keys == ListOf(Lefts(rules) + Syms(rules))
      requires FollowPassState(rules, Terminals(), firstSets, keys, start, pass, sets, changed, terminalSymbolsMap.None?, i, j, k)
      ensures failed <==> terminalSymbolsMap.None?
      ensures !failed ==> FollowPassState(rules, Terminals(), firstSets, keys, start, pass, next, nextChanged, false, i, j, k + 1)
    {
      var tr := IsTerminal(rules[i].right[j][k]);
      if tr.Err? {
        return true, sets, changed;
      }
      if !tr.value {
        next, nextChanged := FollowOccurrence(rules, firstSets, keys, start, pass, sets, changed, i, j, k);
        return false, next, nextChanged;
      }
      FollowVisitTerminal(rules, Terminals(), firstSets, keys, start, pass, sets, changed, false, i, j, k);
      return false, sets, changed;
    }

    /** The body of the inner FOLLOW loop for a non-terminal at symbol k of
        production j of rule i: its set, created when missing, takes FIRST
        of the rest of the production without "empty", and the left side's
        set when the rest can vanish. */
    method FollowOccurrence(rules: seq<GrammarRule>, firstSets: Sets, ghost keys: seq<string>, ghost start: Sets, ghost pass: Sets,
                            sets: Sets, changed: bool, i: nat, j: nat, k: nat) returns (next: Sets, nextChanged: bool)
      requires i < |rules| && j < |rules[i].right| && k < |rules[i].right[j]|
      requires keys == ListOf(Lefts(rules) + Syms(rules))
      requires terminalSymbolsMap.Some? && rules[i].right[j][k] !in Terminals()
      requires FollowPassState(rules, Terminals(), firstSets, keys, start, pass, sets, changed, false, i, j, k)
      ensures FollowPassState(rules, Terminals(), firstSets, keys, start, pass, next, nextChanged, false, i, j, k + 1)
    {
      var rule := rules[i];
      var production := rule.right[j];
      var symbol := production[k];
      var suffix := production[k + 1..];
      var fr := First(suffix, firstSets);
      var firstOfSuffix := fr.value;
      assert rule.left in Lefts(rules) && symbol in Syms(rules) && symbol in keys;
      var follow := firstOfSuffix - {Empty};
      if Empty in firstOfSuffix || |suffix| == 0 {
        follow := follow + sets[rule.left];
      }
      next := sets;
      if symbol !in next {
        next := next[symbol := {}];
      }
      ghost var created := next;
      var initialCount := |next[symbol]|;
      next := next[symbol := next[symbol] + follow];
      CreateThenJoin(sets, symbol, follow, created, next);
      FollowVisit(rules, Terminals(), firstSets, keys, start, pass, sets, changed, false, i, j, k,
                  firstOfSuffix, follow, next, |next[symbol]| > initialCount);
      nextChanged := changed;
      if |next[symbol]| > initialCount {
        nextChanged := true;
      }
    }

    /** The body of GenerateTable's production loop once FIRST of the
        production is known: the production goes under every member of
        FIRST except "empty", then, when FIRST holds "empty", under every
        member of the left side's FOLLOW set. */
    method WriteLookaheads(table: Table, left: string, production: seq<string>, firstSet: set<string>, followSets: Sets)
      returns (t: Table)
      requires Empty in firstSet ==> left in followSets
      ensures t == Write(table, left, (firstSet - {Empty}) + (if Empty in firstSet then followSets[left] else {}), production)
    {
      t := WriteUnder(table, left, firstSet, {Empty}, production);
      if Empty in firstSet {
        t := WriteUnder(t, left, followSets[left], {}, production);
        assert followSets[left] - {} == followSets[left];
        WriteTwice(table, left, firstSet - {Empty}, followSets[left], production);
      } else {
        assert (firstSet - {Empty}) + {} == firstSet - {Empty};
      }
    }

    /** One `foreach` of GenerateTable: the production goes under every
        member of `lookaheads` that is not in `skip`. */
    method WriteUnder(table: Table, left: string, lookaheads: set<string>, skip: set<string>, production: seq<string>)
      returns (t: Table)
      ensures t == Write(table, left, lookaheads - skip, production)
    {
      t := table;
      var todo := lookaheads;
      assert (lookaheads - todo) - skip == {};
      WriteNone(table, left, production);
      while todo != {}
        invariant todo <= lookaheads
        invariant t == Write(table, left, (lookaheads - todo) - skip, production)
        decreases |todo|
      {
        var x :| x in todo;
        ghost var previous := t;
        if x !in skip {
          t := t[(left, x) := production];
        }
        WriteVisit(table, left, lookaheads, skip, todo, x, production, previous, t);
        todo := todo - {x};
      }
      assert lookaheads - todo == lookaheads;
    }

    /** The table: for each production in order, write it under every
        lookahead it selects; a later production overwrites an earlier
        one. */
    method GenerateTable(rules: seq<GrammarRule>) returns (r: Result<Table>, ghost firstSets: Sets, ghost followSets: Sets)
      ensures terminalSymbolsMap.None? && HasNonEmptyProduction(rules) ==> r == Err(NullReference)
      ensures !(terminalSymbolsMap.None? && HasNonEmptyProduction(rules)) && StartSymbol !in Lefts(rules) ==>
        r == Err(KeyNotFound(StartSymbol))
      ensures !(terminalSymbolsMap.None? && HasNonEmptyProduction(rules)) && StartSymbol in Lefts(rules) ==> r.Ok?
      ensures r.Ok? ==> IsFirstSets(rules, Terminals(), firstSets)
      ensures r.Ok? ==> IsFollowSets(rules, Terminals(), firstSets, followSets)
      ensures r.Ok? ==> r.value == TableOf(Flat(rules), Selector(Terminals(), firstSets, followSets))
      ensures r.Ok? ==> forall a :: (a, Empty) !in r.value
    {
      var fsr := CalculateFirstSets(rules);
      if fsr.Err? {
        return Err(fsr.error), map[], map[];
      }
      var fs := fsr.value;
      var flr := CalculateFollowSets(rules, fs);
      if flr.Err? {
        return Err(flr.error), fs, map[];
      }
      var fl := flr.value;
      firstSets, followSets := fs, fl;
      ghost var select := Selector(Terminals(), fs, fl);
      var table: Table := map[];
      for i := 0 to |rules|
        invariant table == TableOf(Flat(rules[..i]), select)
      {
        var rule := rules[i];
        var left := rule.left;
        TableStart(rules, select, i, table);
        for j := 0 to |rule.right|
          invariant table == TableOf(Flat(rules[..i]) + Pairs(rule)[..j], select)
        {
          var production := rule.right[j];
          if terminalSymbolsMap.None? {
            AllProductionsEmpty(rules, i, j);
          }
          var fr := First(production, fs);
          var firstSet := fr.value;
          assert left in Lefts(rules);
          ghost var before := table;
          table := WriteLookaheads(table, left, production, firstSet, fl);
          SelectorAt(Terminals(), fs, fl, left, production, firstSet);
          TableNext(rules, select, i, j, (firstSet - {Empty}) + (if Empty in firstSet then fl[left] else {}), before, table);
        }
        TableNextRule(rules, select, i, table);
      }
      assert rules[..|rules|] == rules;
      forall a ensures (a, Empty) !in table {
        NoEmptyLookahead(Flat(rules), Terminals(), fs, fl, a);
      }
      return Ok(table), fs, fl;
    }
  }
}
