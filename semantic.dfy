/** SemanticAnalysis/SemanticAnalyzer.cs: a walk over a C# syntax tree that
    declares every namespace, class, method, parameter and local variable in
    the symbol table, reporting a diagnostic for a name its scope already
    holds. The walk keeps the scope being declared into in `currentScope`.
    (SemanticAnalysis/SementicAnalyzer.cs is the same walk without the
    console output.) */
module Semantic {
  import opened Common
  import opened Symbols
  import opened SemanticWalk

  /** The key a symbol named `name` declared in `scope` is stored under. */
  function ScopedName(scope: Symbol?, name: string): string
    requires scope != null ==> scope.Rooted()
  {
    if scope == null then name else Qualify(scope.FullName(), name)
  }

  /** A local declaration ends as its closed form says: the "already
      exists" messages of the refused variables are appended, every other
      variable before the first throw is stored, and the first variable
      whose key is taken throws. */
  predicate LocalDeclared(t0: map<string, Entry>, d0: seq<DiagnosticMessage>, scope: Option<string>, typ: SyntaxKind,
                          vs: seq<VariableDeclarator>, t: map<string, Entry>, d: seq<DiagnosticMessage>, r: Outcome)
  {
    var n := FirstThrow(t0, scope, vs, 0);
    && d == d0 + Reports(t0, scope, vs, n)
    && t == Added(t0, scope, typ, vs, n)
    && r == if n < |vs| then Fail(DuplicateKey(Key(scope, vs[n].identifier))) else Pass
  }

  /** The walk of a local declaration ends in its closed form. */
  lemma LocalDeclaredEnds(st: State, scope: Option<string>, typ: SyntaxKind, vs: seq<VariableDeclarator>, after: State, r: Outcome)
    requires VariablesRun(st, scope, typ, vs, 0) == Run(after, r)
    ensures LocalDeclared(st.table, st.diagnostics, scope, typ, vs, after.table, after.diagnostics, r)
  {
    VariablesClosedForm(st, scope, typ, vs);
  }

  /** A stored symbol as an entry. */
  ghost function EntryOf(s: Symbol): Entry
    requires s.Rooted()
  {
    Entry(s.name, s.kind, s.typ, if s.parent == null then None else Some(s.parent.FullName()))
  }

  /** The table's symbols as entries, under the same keys. */
  ghost function Abs(m: map<string, Symbol>): map<string, Entry>
    requires KeyedByFullName(m)
  {
    map k | k in m :: EntryOf(m[k])
  }

  /** The key a scope object is stored under, none for no scope. */
  ghost function KeyOf(scope: Symbol?): Option<string>
    requires scope != null ==> scope.Rooted()
  {
    if scope == null then None else Some(scope.FullName())
  }

  /** `s` is the symbol stored under its full name. */
  ghost predicate Stored(m: map<string, Symbol>, s: Symbol) {
    s.Rooted() && s.FullName() in m && m[s.FullName()] == s
  }

  /** The parent of every stored symbol is stored too, so a parent object
      is known by its key. */
  ghost predicate ParentsStored(m: map<string, Symbol>) {
    var ok := forall k :: k in m && m[k].parent != null ==> Stored(m, m[k].parent);
    ok
  }

  /** `i` is the first predefined type whose name `m` already holds. */
  ghost predicate FirstClash(m: map<string, Symbol>, i: int) {
    && 0 <= i < |PredefinedTypes|
    && PredefinedTypes[i].0 in m
    && forall j :: 0 <= j < i ==> PredefinedTypes[j].0 !in m
  }

  class SemanticAnalyzer {
    const symbolTable: SymbolTable
    var diagnostics: seq<DiagnosticMessage>
    var currentScope: Symbol?

    /** The table is keyed by full names, every stored parent is stored,
        and so is the current scope. */
    ghost predicate Valid()
      reads this, symbolTable
    {
      && symbolTable.Valid() && ParentsStored(symbolTable.symbols)
      && (currentScope != null ==> Stored(symbolTable.symbols, currentScope))
    }

    /** The table as entries, and the diagnostics. */
    ghost function View(): State
      reads this, symbolTable
      requires symbolTable.Valid()
    {
      State(Abs(symbolTable.symbols), diagnostics)
    }

    ghost function ScopeKey(): Option<string>
      reads this
      requires currentScope != null ==> currentScope.Rooted()
    {
      KeyOf(currentScope)
    }

    /** The analyzer is in the state `run` ends in, with its outcome. */
    ghost predicate Ends(run: Run, r: Outcome)
      reads this, symbolTable
      requires symbolTable.Valid()
    {
      View() == run.state && r == run.outcome
    }

    /** The scope a new declaration is attached to, which gains a child. */
    function Scope(): set<object>
      reads this
    {
      if currentScope == null then {} else {currentScope}
    }

    constructor()
      ensures Valid() && fresh(symbolTable)
      ensures symbolTable.symbols == map[] && symbolTable.usingNamespaces == {}
      ensures diagnostics == [] && currentScope == null
    {
      symbolTable := new SymbolTable();
      diagnostics := [];
      currentScope := null;
    }

    /** Declares the built-in types, then records the usings, then walks the
        members; the diagnostics so far are the result. A declaration the
        table refuses with an exception ends the analysis with that error. */
    method Analyze(root: CompilationUnitSyntax) returns (r: Result<seq<DiagnosticMessage>>)
      requires Valid()
      modifies this, symbolTable, Scope()
      ensures Valid()
      ensures old(diagnostics) <= diagnostics
      ensures Grows(old(symbolTable.symbols), symbolTable.symbols)
      ensures "int" in symbolTable.symbols
      ensures "int" in old(symbolTable.symbols) ==> r == Err(DuplicateKey("int"))
      ensures forall i :: FirstClash(old(symbolTable.symbols), i) ==> r == Err(DuplicateKey(PredefinedTypes[i].0))
      ensures r.Ok? ==> r.value == diagnostics && currentScope == old(currentScope)
      ensures currentScope != old(currentScope) ==> currentScope != null && fresh(currentScope)
      ensures symbolTable.usingNamespaces ==
        old(symbolTable.usingNamespaces) + if PredefinedRun(old(View()), 0).outcome.Pass? then UsingNames(root.usings) else {}
      ensures Ends(AnalyzeRun(old(View()), old(ScopeKey()), root), if r.Ok? then Pass else Fail(r.error))
    {
      var predefined := AddPredefinedTypes();
      if predefined.Fail? {
        return Err(predefined.error);
      }
      var imported := AddUsings(root.usings);
      if imported.Fail? {
        return Err(imported.error);
      }
      var members := AnalyzeMembers(root.members);
      if members.Fail? {
        return Err(members.error);
      }
      return Ok(diagnostics);
    }

    /** Each using directive's name is imported in order; a using without
        a name throws, keeping the imports before it. Nothing else changes. */
    method AddUsings(usings: seq<Option<string>>) returns (r: Outcome)
      modifies symbolTable
      ensures symbolTable.usingNamespaces == old(symbolTable.usingNamespaces) + UsingNames(usings)
      ensures r == if NamedPrefix(usings) < |usings| then Fail(NullReference) else Pass
      ensures symbolTable.symbols == old(symbolTable.symbols)
    {
      var n := NamedPrefix(usings);
      var i := 0;
      while i < |usings|
        invariant i <= n
        invariant symbolTable.symbols == old(symbolTable.symbols)
        invariant symbolTable.usingNamespaces == old(symbolTable.usingNamespaces) + set k | 0 <= k < i :: usings[k].value
      {
        if usings[i].None? {
          return Fail(NullReference);
        }
        symbolTable.AddNamespace(usings[i].value);
        i := i + 1;
      }
      return Pass;
    }

    /** Namespaces and classes are declared; any other member is skipped. */
    method AnalyzeMember(member: MemberDeclarationSyntax) returns (r: Outcome)
      requires Valid()
      modifies this, symbolTable, Scope()
      ensures Valid()
      ensures old(diagnostics) <= diagnostics
      ensures Grows(old(symbolTable.symbols), symbolTable.symbols)
      ensures symbolTable.usingNamespaces == old(symbolTable.usingNamespaces)
      ensures r.Pass? ==> currentScope == old(currentScope)
      ensures currentScope != old(currentScope) ==> currentScope != null && fresh(currentScope)
      ensures member.OtherMember? ==> r == Pass && diagnostics == old(diagnostics) && symbolTable.symbols == old(symbolTable.symbols)
      ensures Ends(MemberRun(old(View()), old(ScopeKey()), member), r)
      decreases member, 1
    {
      match member
      case NamespaceDecl(_, _, _) =>
        r := AnalyzeNamespace(member);
      case ClassDecl(_, _, _) =>
        r := AnalyzeClass(member);
      case OtherMember =>
        r := Pass;
    }

    /** A namespace symbol has no parent, so the table never refuses it
        quietly: a name already stored throws. */
    method AnalyzeNamespace(ns: MemberDeclarationSyntax) returns (r: Outcome)
      requires ns.NamespaceDecl? && Valid()
      modifies this, symbolTable, Scope()
      ensures Valid()
      ensures old(diagnostics) <= diagnostics
      ensures Grows(old(symbolTable.symbols), symbolTable.symbols)
      ensures symbolTable.usingNamespaces == old(symbolTable.usingNamespaces)
      ensures r.Pass? ==> currentScope == old(currentScope)
      ensures currentScope != old(currentScope) ==> currentScope != null && fresh(currentScope)
      ensures ns.name in old(symbolTable.symbols) ==>
        r == Fail(DuplicateKey(ns.name)) && symbolTable.symbols == old(symbolTable.symbols) && diagnostics == old(diagnostics)
      ensures ns.name !in old(symbolTable.symbols) ==>
        ns.name in symbolTable.symbols && symbolTable.symbols[ns.name].kind == Namespace
      ensures Ends(NamespaceRun(old(View()), ns), r)
      decreases ns, 0
    {
      ghost var st := View();
      var symbol := new Symbol(ns.name, Namespace, NamespaceDeclaration, null);
      ghost var declared := symbolTable.DeclaredIn(ns.name, null);
      DeclaredInIsDeclared(symbolTable, ns.name, null);
      var added := symbolTable.TryAddSymbol(symbol);
      DeclareOutcome(old(symbolTable.symbols), symbolTable.symbols, symbol, ns.name, Namespace, NamespaceDeclaration, null, declared, added);
      NamespaceStep(st, ns, added, Abs(symbolTable.symbols));
      if added.Err? {
        return Fail(added.error);
      }
      if !added.value {
        // unreachable: a parentless symbol is only ever added or refused by an exception
        assert false;
      }
      var previousScope := currentScope;
      currentScope := symbol;
      r := AnalyzeMembers(ns.members);
      if r.Fail? {
        return r;
      }
      currentScope := previousScope;
    }

    /** The members in order, stopping at the first throw. */
    method AnalyzeMembers(members: seq<MemberDeclarationSyntax>) returns (r: Outcome)
      requires Valid()
      modifies this, symbolTable, Scope()
      ensures Valid()
      ensures old(diagnostics) <= diagnostics
      ensures Grows(old(symbolTable.symbols), symbolTable.symbols)
      ensures symbolTable.usingNamespaces == old(symbolTable.usingNamespaces)
      ensures r.Pass? ==> currentScope == old(currentScope)
      ensures currentScope != old(currentScope) ==> currentScope != null && fresh(currentScope)
      ensures Ends(MembersRun(old(View()), old(ScopeKey()), members, 0), r)
      decreases members, 2
    {
      ghost var scope := ScopeKey();
      for i := 0 to |members|
        invariant Valid() && currentScope == old(currentScope)
        invariant old(diagnostics) <= diagnostics
        invariant Grows(old(symbolTable.symbols), symbolTable.symbols)
        invariant symbolTable.usingNamespaces == old(symbolTable.usingNamespaces)
        invariant MembersRun(View(), scope, members, i) == MembersRun(old(View()), scope, members, 0)
      {
        var member := AnalyzeMember(members[i]);
        if member.Fail? {
          return member;
        }
      }
      return Pass;
    }

    /** A class is declared in the current scope. A name the scope already
        holds gives one diagnostic and the class body is not visited. */
    method AnalyzeClass(cls: MemberDeclarationSyntax) returns (r: Outcome)
      requires cls.ClassDecl? && Valid()
      modifies this, symbolTable, Scope()
      ensures Valid()
      ensures old(diagnostics) <= diagnostics
      ensures Grows(old(symbolTable.symbols), symbolTable.symbols)
      ensures symbolTable.usingNamespaces == old(symbolTable.usingNamespaces)
      ensures r.Pass? ==> currentScope == old(currentScope)
      ensures currentScope != old(currentScope) ==> currentScope != null && fresh(currentScope)
      ensures old(symbolTable.DeclaredIn(cls.identifier, currentScope)) ==>
        && r == Pass && symbolTable.symbols == old(symbolTable.symbols)
        && diagnostics == old(diagnostics) + [DiagnosticMessage(AlreadyExists(TypeWord, cls.identifier), cls.location)]
      ensures !old(symbolTable.DeclaredIn(cls.identifier, currentScope)) && old(ScopedName(currentScope, cls.identifier)) in old(symbolTable.symbols) ==>
        && r == Fail(DuplicateKey(old(ScopedName(currentScope, cls.identifier))))
        && symbolTable.symbols == old(symbolTable.symbols) && diagnostics == old(diagnostics)
      ensures !old(symbolTable.DeclaredIn(cls.identifier, currentScope)) && old(ScopedName(currentScope, cls.identifier)) !in old(symbolTable.symbols) ==>
        var key := old(ScopedName(currentScope, cls.identifier));
        key in symbolTable.symbols && var s := symbolTable.symbols[key];
        && s.name == cls.identifier && s.kind == Class && s.typ == ClassDeclaration && s.parent == old(currentScope)
      ensures Ends(ClassRun(old(View()), old(ScopeKey()), cls), r)
    {
      ghost var st := View();
      var symbol, added := DeclareInScope(cls.identifier, Class, ClassDeclaration);
      ClassStep(st, KeyOf(currentScope), cls, added, Abs(symbolTable.symbols));
      if added.Err? {
        return Fail(added.error);
      }
      if !added.value {
        ReportError(AlreadyExists(TypeWord, symbol.name), cls.location);
        return Pass;
      }
      var previousScope := currentScope;
      currentScope := symbol;
      r := AnalyzeClassMembers(cls.classMembers);
      if r.Fail? {
        return r;
      }
      currentScope := previousScope;
    }

    /** The class body: only method declarations are visited. */
    method AnalyzeClassMembers(members: seq<ClassMemberSyntax>) returns (r: Outcome)
      requires Valid()
      modifies this, symbolTable, Scope()
      ensures Valid()
      ensures old(diagnostics) <= diagnostics
      ensures Grows(old(symbolTable.symbols), symbolTable.symbols)
      ensures symbolTable.usingNamespaces == old(symbolTable.usingNamespaces)
      ensures r.Pass? ==> currentScope == old(currentScope)
      ensures currentScope != old(currentScope) ==> currentScope != null && fresh(currentScope)
      ensures Ends(ClassMembersRun(old(View()), old(ScopeKey()), members, 0), r)
    {
      ghost var scope := ScopeKey();
      for i := 0 to |members|
        invariant Valid() && currentScope == old(currentScope)
        invariant old(diagnostics) <= diagnostics
        invariant Grows(old(symbolTable.symbols), symbolTable.symbols)
        invariant symbolTable.usingNamespaces == old(symbolTable.usingNamespaces)
        invariant ClassMembersRun(View(), scope, members, i) == ClassMembersRun(old(View()), scope, members, 0)
      {
        if members[i].MethodDecl? {
          var analyzed := AnalyzeMethod(members[i]);
          if analyzed.Fail? {
            return analyzed;
          }
        }
      }
      return Pass;
    }

    /** A method is declared in the current (class) scope with its return
        type's kind; a refused name gives one diagnostic and neither the
        parameters nor the body are visited. */
    method AnalyzeMethod(decl: ClassMemberSyntax) returns (r: Outcome)
      requires decl.MethodDecl? && Valid()
      modifies this, symbolTable, Scope()
      ensures Valid()
      ensures old(diagnostics) <= diagnostics
      ensures Grows(old(symbolTable.symbols), symbolTable.symbols)
      ensures symbolTable.usingNamespaces == old(symbolTable.usingNamespaces)
      ensures r.Pass? ==> currentScope == old(currentScope)
      ensures currentScope != old(currentScope) ==> currentScope != null && fresh(currentScope)
      ensures old(symbolTable.DeclaredIn(decl.identifier, currentScope)) ==>
        && r == Pass && symbolTable.symbols == old(symbolTable.symbols)
        && diagnostics == old(diagnostics) + [DiagnosticMessage(AlreadyExists(MethodWord, decl.identifier), decl.location)]
      ensures !old(symbolTable.DeclaredIn(decl.identifier, currentScope)) && old(ScopedName(currentScope, decl.identifier)) in old(symbolTable.symbols) ==>
        && r == Fail(DuplicateKey(old(ScopedName(currentScope, decl.identifier))))
        && symbolTable.symbols == old(symbolTable.symbols) && diagnostics == old(diagnostics)
      ensures !old(symbolTable.DeclaredIn(decl.identifier, currentScope)) && old(ScopedName(currentScope, decl.identifier)) !in old(symbolTable.symbols) ==>
        var key := old(ScopedName(currentScope, decl.identifier));
        key in symbolTable.symbols && var s := symbolTable.symbols[key];
        && s.name == decl.identifier && s.kind == Method && s.typ == GetTypeKind(decl.returnType) && s.parent == old(currentScope)
      ensures Ends(MethodRun(old(View()), old(ScopeKey()), decl), r)
    {
      ghost var st := View();
      var symbol, added := DeclareInScope(decl.identifier, Method, GetTypeKind(decl.returnType));
      MethodStep(st, KeyOf(currentScope), decl, added, Abs(symbolTable.symbols));
      if added.Err? {
        return Fail(added.error);
      }
      if !added.value {
        ReportError(AlreadyExists(MethodWord, symbol.name), decl.location);
        return Pass;
      }
      var previousScope := currentScope;
      currentScope := symbol;
      r := AnalyzeParameters(decl.parameters);
      if r.Fail? {
        return r;
      }
      if decl.body.Some? {
        r := AnalyzeStatements(decl.body.value);
        if r.Fail? {
          return r;
        }
      }
      currentScope := previousScope;
    }

    /** The parameters in order, stopping at the first throw. */
    method AnalyzeParameters(parameters: seq<ParameterSyntax>) returns (r: Outcome)
      requires Valid()
      modifies this, symbolTable, Scope()
      ensures Valid()
      ensures currentScope == old(currentScope)
      ensures old(diagnostics) <= diagnostics
      ensures Grows(old(symbolTable.symbols), symbolTable.symbols)
      ensures symbolTable.usingNamespaces == old(symbolTable.usingNamespaces)
      ensures Ends(ParametersRun(old(View()), old(ScopeKey()), parameters, 0), r)
    {
      ghost var scope := ScopeKey();
      for i := 0 to |parameters|
        invariant Valid() && currentScope == old(currentScope)
        invariant old(diagnostics) <= diagnostics
        invariant Grows(old(symbolTable.symbols), symbolTable.symbols)
        invariant symbolTable.usingNamespaces == old(symbolTable.usingNamespaces)
        invariant ParametersRun(View(), scope, parameters, i) == ParametersRun(old(View()), scope, parameters, 0)
      {
        var parameter := AnalyzeParameter(parameters[i]);
        if parameter.Fail? {
          return parameter;
        }
      }
      return Pass;
    }

    /** A parameter is declared in the current (method) scope; a refused
        name gives one diagnostic and the walk goes on. */
    method AnalyzeParameter(param: ParameterSyntax) returns (r: Outcome)
      requires Valid()
      modifies this, symbolTable, Scope()
      ensures Valid()
      ensures currentScope == old(currentScope)
      ensures Grows(old(symbolTable.symbols), symbolTable.symbols)
      ensures symbolTable.usingNamespaces == old(symbolTable.usingNamespaces)
      ensures old(symbolTable.DeclaredIn(param.identifier, currentScope)) ==>
        && r == Pass && symbolTable.symbols == old(symbolTable.symbols)
        && diagnostics == old(diagnostics) + [DiagnosticMessage(AlreadyExists(ParameterWord, param.identifier), param.location)]
      ensures !old(symbolTable.DeclaredIn(param.identifier, currentScope)) && old(ScopedName(currentScope, param.identifier)) in old(symbolTable.symbols) ==>
        && r == Fail(DuplicateKey(old(ScopedName(currentScope, param.identifier))))
        && symbolTable.symbols == old(symbolTable.symbols) && diagnostics == old(diagnostics)
      ensures !old(symbolTable.DeclaredIn(param.identifier, currentScope)) && old(ScopedName(currentScope, param.identifier)) !in old(symbolTable.symbols) ==>
        var key := old(ScopedName(currentScope, param.identifier));
        key in symbolTable.symbols && var s := symbolTable.symbols[key];
        && r == Pass && diagnostics == old(diagnostics)
        && s.name == param.identifier && s.kind == Parameter && s.typ == GetTypeKind(param.typ) && s.parent == old(currentScope)
      ensures Ends(ParameterRun(old(View()), old(ScopeKey()), param), r)
    {
      ghost var st := View();
      var symbol, added := DeclareInScope(param.identifier, Parameter, GetTypeKind(param.typ));
      LeafStep(st, KeyOf(currentScope), param.identifier, Parameter, GetTypeKind(param.typ), ParameterWord, param.location,
               added, Abs(symbolTable.symbols));
      if added.Err? {
        return Fail(added.error);
      }
      if !added.value {
        ReportError(AlreadyExists(ParameterWord, symbol.name), param.location);
      }
      return Pass;
    }

    /** Only local declarations among the statements declare anything. */
    method AnalyzeStatements(statements: seq<StatementSyntax>) returns (r: Outcome)
      requires Valid()
      modifies this, symbolTable, Scope()
      ensures Valid()
      ensures currentScope == old(currentScope)
      ensures old(diagnostics) <= diagnostics
      ensures Grows(old(symbolTable.symbols), symbolTable.symbols)
      ensures symbolTable.usingNamespaces == old(symbolTable.usingNamespaces)
      ensures Ends(StatementsRun(old(View()), old(ScopeKey()), statements, 0), r)
    {
      ghost var scope := ScopeKey();
      for i := 0 to |statements|
        invariant Valid() && currentScope == old(currentScope)
        invariant old(diagnostics) <= diagnostics
        invariant Grows(old(symbolTable.symbols), symbolTable.symbols)
        invariant symbolTable.usingNamespaces == old(symbolTable.usingNamespaces)
        invariant StatementsRun(View(), scope, statements, i) == StatementsRun(old(View()), scope, statements, 0)
      {
        if statements[i].LocalDeclaration? {
          var local := AnalyzeLocalDeclaration(statements[i]);
          if local.Fail? {
            return local;
          }
        }
      }
      return Pass;
    }

    /** Every declared variable is declared in the current scope with the
        declaration's type kind; each refused name gives one diagnostic and
        the walk goes on; the first name whose key is taken throws. */
    method AnalyzeLocalDeclaration(localDecl: StatementSyntax) returns (r: Outcome)
      requires localDecl.LocalDeclaration? && Valid()
      modifies this, symbolTable, Scope()
      ensures Valid()
      ensures currentScope == old(currentScope)
      ensures Grows(old(symbolTable.symbols), symbolTable.symbols)
      ensures symbolTable.usingNamespaces == old(symbolTable.usingNamespaces)
      ensures old(diagnostics) <= diagnostics
      ensures Ends(VariablesRun(old(View()), old(ScopeKey()), GetTypeKind(localDecl.typ), localDecl.variables, 0), r)
      ensures LocalDeclared(Abs(old(symbolTable.symbols)), old(diagnostics), old(ScopeKey()), GetTypeKind(localDecl.typ), localDecl.variables,
                            Abs(symbolTable.symbols), diagnostics, r)
    {
      ghost var scope := ScopeKey();
      var typ := GetTypeKind(localDecl.typ);
      for i := 0 to |localDecl.variables|
        invariant Valid() && currentScope == old(currentScope)
        invariant Grows(old(symbolTable.symbols), symbolTable.symbols)
        invariant symbolTable.usingNamespaces == old(symbolTable.usingNamespaces)
        invariant VariablesRun(View(), scope, typ, localDecl.variables, i) == VariablesRun(old(View()), scope, typ, localDecl.variables, 0)
      {
        r := AnalyzeVariable(localDecl.variables[i], localDecl.typ);
        if r.Fail? {
          LocalDeclaredEnds(old(View()), scope, typ, localDecl.variables, View(), r);
          return;
        }
      }
      r := Pass;
      LocalDeclaredEnds(old(View()), scope, typ, localDecl.variables, View(), r);
    }

    /** One turn of the variable loop: the variable is declared in the
        current scope; a refused name is reported and the walk goes on. */
    method AnalyzeVariable(variable: VariableDeclarator, typ: TypeSyntax) returns (r: Outcome)
      requires Valid()
      modifies this, symbolTable, Scope()
      ensures Valid()
      ensures currentScope == old(currentScope)
      ensures Grows(old(symbolTable.symbols), symbolTable.symbols)
      ensures symbolTable.usingNamespaces == old(symbolTable.usingNamespaces)
      ensures old(symbolTable.DeclaredIn(variable.identifier, currentScope)) ==>
        && r == Pass && symbolTable.symbols == old(symbolTable.symbols)
        && diagnostics == old(diagnostics) + [DiagnosticMessage(AlreadyExists(VariableWord, variable.identifier), variable.location)]
      ensures !old(symbolTable.DeclaredIn(variable.identifier, currentScope)) && old(ScopedName(currentScope, variable.identifier)) in old(symbolTable.symbols) ==>
        && r == Fail(DuplicateKey(old(ScopedName(currentScope, variable.identifier))))
        && symbolTable.symbols == old(symbolTable.symbols) && diagnostics == old(diagnostics)
      ensures !old(symbolTable.DeclaredIn(variable.identifier, currentScope)) && old(ScopedName(currentScope, variable.identifier)) !in old(symbolTable.symbols) ==>
        var key := old(ScopedName(currentScope, variable.identifier));
        key in symbolTable.symbols && var s := symbolTable.symbols[key];
        && r == Pass && diagnostics == old(diagnostics)
        && s.name == variable.identifier && s.kind == Variable && s.typ == GetTypeKind(typ) && s.parent == old(currentScope)
      ensures Ends(VariableRun(old(View()), old(ScopeKey()), GetTypeKind(typ), variable), r)
    {
      ghost var st := View();
      var symbol, added := DeclareInScope(variable.identifier, Variable, GetTypeKind(typ));
      LeafStep(st, KeyOf(currentScope), variable.identifier, Variable, GetTypeKind(typ), VariableWord, variable.location,
               added, Abs(symbolTable.symbols));
      if added.Err? {
        return Fail(added.error);
      }
      if !added.value {
        ReportError(AlreadyExists(VariableWord, symbol.name), variable.location);
      }
      return Pass;
    }

    /** The built-in types are parentless classes added with AddSymbol, so
        a second analysis with the same table throws on "int". */
    method AddPredefinedTypes() returns (r: Outcome)
      requires Valid()
      modifies symbolTable
      ensures Valid()
      ensures Grows(old(symbolTable.symbols), symbolTable.symbols)
      ensures symbolTable.usingNamespaces == old(symbolTable.usingNamespaces)
      ensures r.Pass? <==> forall i :: 0 <= i < |PredefinedTypes| ==> PredefinedTypes[i].0 !in old(symbolTable.symbols)
      ensures forall i :: FirstClash(old(symbolTable.symbols), i) ==> r == Fail(DuplicateKey(PredefinedTypes[i].0))
      ensures "int" in old(symbolTable.symbols) ==> r == Fail(DuplicateKey("int"))
      ensures r.Pass? ==> forall i :: 0 <= i < |PredefinedTypes| ==> PredefinedEntry(symbolTable.symbols, i)
      ensures r.Pass? ==> symbolTable.symbols.Keys == old(symbolTable.symbols.Keys) + PredefinedNames(|PredefinedTypes|)
      ensures "int" in symbolTable.symbols
      ensures Ends(PredefinedRun(old(View()), 0), r)
    {
      r := Pass;
      for i := 0 to |PredefinedTypes|
        invariant Valid()
        invariant Grows(old(symbolTable.symbols), symbolTable.symbols)
        invariant symbolTable.usingNamespaces == old(symbolTable.usingNamespaces)
        invariant PredefinedSoFar(old(symbolTable.symbols), symbolTable.symbols, i)
        invariant r == Pass
        invariant PredefinedRun(View(), i) == PredefinedRun(old(View()), 0)
      {
        ghost var before := symbolTable.symbols;
        var (name, kind) := PredefinedTypes[i];
        var symbol := new Symbol(name, Class, kind, null);
        r := symbolTable.AddSymbol(symbol);
        if r.Fail? {
          PredefinedClash(old(symbolTable.symbols), before, i);
          return r;
        }
        PredefinedStep(old(symbolTable.symbols), before, symbolTable.symbols, i, symbol);
        AbsAdd(before, symbol);
        GrowsTrans(old(symbolTable.symbols), before, symbolTable.symbols);
      }
      PredefinedDone(old(symbolTable.symbols), symbolTable.symbols);
    }

    /** A new symbol of this name, kind and type in the current scope,
        offered to the table: `false` when the scope already holds the name. */
    method DeclareInScope(name: string, kind: SymbolKind, typ: SyntaxKind) returns (symbol: Symbol, added: Result<bool>)
      requires Valid()
      modifies symbolTable, Scope()
      ensures Valid()
      ensures Grows(old(symbolTable.symbols), symbolTable.symbols)
      ensures symbolTable.usingNamespaces == old(symbolTable.usingNamespaces)
      ensures fresh(symbol) && symbol.Rooted()
      ensures symbol.name == name && symbol.kind == kind && symbol.typ == typ && symbol.parent == currentScope
      ensures symbol.FullName() == Key(KeyOf(currentScope), name)
      ensures old(symbolTable.DeclaredIn(name, currentScope)) ==>
        added == Ok(false) && symbolTable.symbols == old(symbolTable.symbols)
      ensures !old(symbolTable.DeclaredIn(name, currentScope)) && ScopedName(currentScope, name) in old(symbolTable.symbols) ==>
        added == Err(DuplicateKey(ScopedName(currentScope, name))) && symbolTable.symbols == old(symbolTable.symbols)
      ensures !old(symbolTable.DeclaredIn(name, currentScope)) && ScopedName(currentScope, name) !in old(symbolTable.symbols) ==>
        added == Ok(true) && symbolTable.symbols == old(symbolTable.symbols)[ScopedName(currentScope, name) := symbol]
      ensures added == Ok(true) ==> Stored(symbolTable.symbols, symbol)
      ensures Offered(Abs(old(symbolTable.symbols)), KeyOf(currentScope), name, kind, typ, added, Abs(symbolTable.symbols))
    {
      symbol := new Symbol(name, kind, typ, currentScope);
      ghost var declared := symbolTable.DeclaredIn(name, currentScope);
      DeclaredInIsDeclared(symbolTable, name, currentScope);
      added := symbolTable.TryAddSymbol(symbol);
      DeclareOutcome(old(symbolTable.symbols), symbolTable.symbols, symbol, name, kind, typ, currentScope, declared, added);
    }

    method ReportError(message: string, location: Location)
      modifies this
      ensures diagnostics == old(diagnostics) + [DiagnosticMessage(message, location)]
      ensures currentScope == old(currentScope)
    {
      diagnostics := diagnostics + [DiagnosticMessage(message, location)];
    }
  }

  /** Object identity and keys agree: a scope holds a name exactly when its
      key is the parent key of an entry of that name. */
  lemma DeclaredInIsDeclared(t: SymbolTable, name: string, scope: Symbol?)
    requires t.Valid() && ParentsStored(t.symbols) && (scope != null ==> Stored(t.symbols, scope))
    ensures t.DeclaredIn(name, scope) <==> Declared(Abs(t.symbols), name, KeyOf(scope))
  {
    var m := t.symbols;
    var a := Abs(m);
    if t.DeclaredIn(name, scope) {
      var s :| s in m.Values && s.parent == scope && s.name == name;
      var k :| k in m && m[k] == s;
      assert a[k].parent == KeyOf(scope) && a[k].name == name;
    }
    if Declared(a, name, KeyOf(scope)) {
      var k :| k in a && a[k].parent == KeyOf(scope) && a[k].name == name;
      var s := m[k];
      assert Stored(m, s.parent);
      assert s in m.Values;
    }
  }

  /** A declaration with no body, read off what the table did. */
  lemma LeafStep(st: State, scope: Option<string>, name: string, kind: SymbolKind, typ: SyntaxKind, what: string,
                 location: Location, added: Result<bool>, next: map<string, Entry>)
    requires Offered(st.table, scope, name, kind, typ, added, next)
    ensures added.Err? ==> LeafRun(st, scope, name, kind, typ, what, location) == Run(st, Fail(added.error))
    ensures added == Ok(true) ==> LeafRun(st, scope, name, kind, typ, what, location) == Run(State(next, st.diagnostics), Pass)
    ensures added == Ok(false) ==>
      next == st.table && LeafRun(st, scope, name, kind, typ, what, location) == Run(Reported(st, what, name, location), Pass)
  {
  }

  /** A method declaration, read off what the table did: a new method's
      parameters and body are walked in the scope under its key. */
  lemma MethodStep(st: State, scope: Option<string>, m: ClassMemberSyntax, added: Result<bool>, next: map<string, Entry>)
    requires m.MethodDecl?
    requires Offered(st.table, scope, m.identifier, Method, GetTypeKind(m.returnType), added, next)
    ensures added.Err? ==> MethodRun(st, scope, m) == Run(st, Fail(added.error))
    ensures added == Ok(true) ==> MethodRun(st, scope, m) == MethodBodyRun(State(next, st.diagnostics), Some(Key(scope, m.identifier)), m)
    ensures added == Ok(false) ==>
      next == st.table && MethodRun(st, scope, m) == Run(Reported(st, MethodWord, m.identifier, m.location), Pass)
  {
  }

  /** A class declaration, read off what the table did: a new class's
      members are walked in the scope under its key. */
  lemma ClassStep(st: State, scope: Option<string>, c: MemberDeclarationSyntax, added: Result<bool>, next: map<string, Entry>)
    requires c.ClassDecl?
    requires Offered(st.table, scope, c.identifier, Class, ClassDeclaration, added, next)
    ensures added.Err? ==> ClassRun(st, scope, c) == Run(st, Fail(added.error))
    ensures added == Ok(true) ==>
      ClassRun(st, scope, c) == ClassMembersRun(State(next, st.diagnostics), Some(Key(scope, c.identifier)), c.classMembers, 0)
    ensures added == Ok(false) ==>
      next == st.table && ClassRun(st, scope, c) == Run(Reported(st, TypeWord, c.identifier, c.location), Pass)
  {
  }

  /** A namespace declaration, read off what the table did: with no parent
      it is never refused, and a new namespace's members are walked in the
      scope under its name. */
  lemma NamespaceStep(st: State, ns: MemberDeclarationSyntax, added: Result<bool>, next: map<string, Entry>)
    requires ns.NamespaceDecl?
    requires Offered(st.table, None, ns.name, Namespace, NamespaceDeclaration, added, next)
    ensures added != Ok(false)
    ensures added.Err? ==> NamespaceRun(st, ns) == Run(st, Fail(added.error))
    ensures added == Ok(true) ==> NamespaceRun(st, ns) == MembersRun(State(next, st.diagnostics), Some(ns.name), ns.members, 0)
  {
  }

  /** `added` is what Declare gives on `table`, with `next` the table after. */
  ghost predicate Offered(table: map<string, Entry>, scope: Option<string>, name: string, kind: SymbolKind, typ: SyntaxKind,
                          added: Result<bool>, next: map<string, Entry>) {
    var ok := match added
      case Err(e) => Declare(table, scope, name, kind, typ) == Err(e)
      case Ok(b) => Declare(table, scope, name, kind, typ) == Ok((next, b));
    ok
  }

  /** What TryAddSymbol did to the table, told on entries: Declare gives
      the same outcome and the new table, and the table stays keyed by full
      names with every parent stored. */
  lemma DeclareOutcome(m: map<string, Symbol>, next: map<string, Symbol>, s: Symbol, name: string, kind: SymbolKind, typ: SyntaxKind,
                       scope: Symbol?, declared: bool, added: Result<bool>)
    requires KeyedByFullName(m) && ParentsStored(m) && s.Rooted()
    requires s.name == name && s.kind == kind && s.typ == typ && s.parent == scope
    requires s.parent != null ==> Stored(m, s.parent)
    requires declared == Declared(Abs(m), s.name, KeyOf(s.parent))
    requires declared ==> added == Ok(false) && next == m
    requires !declared && s.FullName() in m ==> added == Err(DuplicateKey(s.FullName())) && next == m
    requires !declared && s.FullName() !in m ==> added == Ok(true) && next == m[s.FullName() := s]
    ensures KeyedByFullName(next) && ParentsStored(next) && Grows(m, next)
    ensures s.FullName() == Key(KeyOf(scope), name)
    ensures added == Ok(true) ==> Stored(next, s)
    ensures Offered(Abs(m), KeyOf(scope), name, kind, typ, added, Abs(next))
  {
    if added == Ok(true) {
      AbsAdd(m, s);
      GrowsAdd(m, s.FullName(), s);
      ParentsStoredAdd(m, s);
    }
  }

  /** Storing a symbol under its full name stores its entry under that key. */
  lemma AbsAdd(m: map<string, Symbol>, s: Symbol)
    requires KeyedByFullName(m) && s.Rooted()
    ensures KeyedByFullName(m[s.FullName() := s])
    ensures Abs(m[s.FullName() := s]) == Abs(m)[s.FullName() := EntryOf(s)]
  {
    KeyedAdd(m, s);
  }

  /** A new symbol whose parent is stored keeps every parent stored. */
  lemma ParentsStoredAdd(m: map<string, Symbol>, s: Symbol)
    requires ParentsStored(m) && s.Rooted() && s.FullName() !in m
    requires s.parent != null ==> Stored(m, s.parent)
    ensures ParentsStored(m[s.FullName() := s]) && Stored(m[s.FullName() := s], s)
  {
    var next := m[s.FullName() := s];
    forall k | k in next && next[k].parent != null
      ensures Stored(next, next[k].parent)
    {
      if k != s.FullName() {
        assert Stored(m, m[k].parent);
      }
    }
  }

  lemma StoredGrows(m: map<string, Symbol>, next: map<string, Symbol>, s: Symbol)
    requires Grows(m, next) && Stored(m, s)
    ensures Stored(next, s)
  {
  }

  /** The names of the first `n` built-in types. */
  function PredefinedNames(n: nat): set<string>
    requires n <= |PredefinedTypes|
  {
    set j | 0 <= j < n :: PredefinedTypes[j].0
  }

  /** `m` holds the `i`-th built-in type as a parentless class. */
  ghost predicate PredefinedEntry(m: map<string, Symbol>, i: int)
    requires 0 <= i < |PredefinedTypes|
  {
    var (name, kind) := PredefinedTypes[i];
    name in m && m[name].name == name && m[name].kind == Class && m[name].typ == kind && m[name].parent == null
  }

  lemma PredefinedNamesDistinct()
    ensures forall i, j :: 0 <= i < j < |PredefinedTypes| ==> PredefinedTypes[i].0 != PredefinedTypes[j].0
  {
  }

  /** After the first `i` built-in types went in: none of them was in `m0`,
      each is in `m`, and they are all `m` added to `m0`. */
  ghost predicate PredefinedSoFar(m0: map<string, Symbol>, m: map<string, Symbol>, i: int) {
    var ok :=
      && 0 <= i <= |PredefinedTypes|
      && (forall j :: 0 <= j < i ==> PredefinedTypes[j].0 !in m0)
      && (forall j :: 0 <= j < i ==> PredefinedEntry(m, j))
      && m.Keys == m0.Keys + PredefinedNames(i);
    ok
  }

  lemma PredefinedStep(m0: map<string, Symbol>, m: map<string, Symbol>, next: map<string, Symbol>, i: int, s: Symbol)
    requires 0 <= i < |PredefinedTypes| && PredefinedSoFar(m0, m, i)
    requires PredefinedTypes[i].0 !in m && next == m[PredefinedTypes[i].0 := s]
    requires s.name == PredefinedTypes[i].0 && s.kind == Class && s.typ == PredefinedTypes[i].1 && s.parent == null
    ensures PredefinedSoFar(m0, next, i + 1) && Grows(m, next)
  {
    PredefinedNamesDistinct();
    assert PredefinedNames(i + 1) == PredefinedNames(i) + {PredefinedTypes[i].0};
    GrowsAdd(m, PredefinedTypes[i].0, s);
    forall j | 0 <= j < i + 1
      ensures PredefinedEntry(next, j)
    {
      if j < i {
        assert PredefinedEntry(m, j);
        GrowsKeeps(m, next, PredefinedTypes[j].0);
      }
    }
  }

  /** A built-in name found in the table was there before the analysis,
      and it is the first one that was. */
  lemma PredefinedClash(m0: map<string, Symbol>, m: map<string, Symbol>, i: int)
    requires 0 <= i < |PredefinedTypes| && PredefinedSoFar(m0, m, i)
    requires PredefinedTypes[i].0 in m
    ensures FirstClash(m0, i)
    ensures forall k :: FirstClash(m0, k) ==> k == i
    ensures "int" in m0 ==> i == 0
    ensures "int" in m
  {
    if i > 0 {
      assert PredefinedEntry(m, 0);
    }
    PredefinedNamesDistinct();
    assert PredefinedTypes[i].0 !in PredefinedNames(i);
    assert PredefinedTypes[0].0 == "int";
  }

  lemma PredefinedDone(m0: map<string, Symbol>, m: map<string, Symbol>)
    requires PredefinedSoFar(m0, m, |PredefinedTypes|)
    ensures forall i :: 0 <= i < |PredefinedTypes| ==> PredefinedTypes[i].0 !in m0
    ensures forall i :: 0 <= i < |PredefinedTypes| ==> PredefinedEntry(m, i)
    ensures m.Keys == m0.Keys + PredefinedNames(|PredefinedTypes|)
    ensures "int" in m && "int" !in m0
  {
    assert PredefinedEntry(m, 0);
  }

  lemma ClashUnique(m: map<string, Symbol>, i: int)
    requires FirstClash(m, i)
    ensures forall k :: FirstClash(m, k) ==> k == i
  {
  }

  /** A second analysis on the same analyzer throws on the first built-in
      type, whatever became of the first. The first imports the using names
      before any using without a name, even when it or a member throws, and
      the second imports nothing more. */
  method AnalyzeTwice(root: CompilationUnitSyntax)
    returns (first: Result<seq<DiagnosticMessage>>, second: Result<seq<DiagnosticMessage>>, imports: set<string>)
    ensures second == Err(DuplicateKey("int"))
    ensures imports == UsingNames(root.usings)
  {
    var analyzer := new SemanticAnalyzer();
    PredefinedFresh(analyzer.View());
    first := analyzer.Analyze(root);
    second := analyzer.Analyze(root);
    imports := analyzer.symbolTable.usingNamespaces;
  }

  /** `using System; using Num = int; using X;` on a fresh table: only
      `System` is imported, and the analysis throws on the alias before
      any member is walked. */
  lemma AliasUsingThrows(st: State, scope: Option<string>, members: seq<MemberDeclarationSyntax>)
    requires st.table == map[]
    ensures var root := CompilationUnit([Some("System"), None, Some("X")], members);
      && UsingNames(root.usings) == {"System"}
      && AnalyzeRun(st, scope, root).outcome == Fail(NullReference)
  {
    var usings := [Some("System"), None, Some("X")];
    PredefinedFresh(st);
    assert usings[1..][0].None?;
    assert NamedPrefix(usings) == 1;
  }

  /** On a table with none of the built-in names, declaring them passes. */
  lemma PredefinedFresh(st: State)
    requires st.table == map[]
    ensures PredefinedRun(st, 0).outcome.Pass?
  {
    var t1 := map["int" := Entry("int", Class, IntKeyword, None)];
    var t2 := t1["string" := Entry("string", Class, StringKeyword, None)];
    var t3 := t2["void" := Entry("void", Class, VoidKeyword, None)];
    var t4 := t3["bool" := Entry("bool", Class, BoolKeyword, None)];
    assert PredefinedRun(State(t4, st.diagnostics), 4) == Run(State(t4, st.diagnostics), Pass);
  }
}
