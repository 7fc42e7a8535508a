/** The walk of SemanticAnalysis/SemanticAnalyzer.cs on values: the part
    of the syntax tree it reads, and each Analyze method as a function from
    the table and diagnostics before it to the state it leaves and whether
    it threw. A local declaration's effect is also given in closed form. */
module SemanticWalk {
  import opened Common
  import opened Symbols

  /** The part of a Roslyn syntax tree the walk looks at. */
  datatype TypeSyntax =
    | PredefinedType(keyword: SyntaxKind)
    | IdentifierNameType(identifier: string)
    | OtherType

  datatype ParameterSyntax = ParameterSyntax(identifier: string, typ: TypeSyntax, location: Location)

  datatype VariableDeclarator = VariableDeclarator(identifier: string, location: Location)

  datatype StatementSyntax =
    | LocalDeclaration(typ: TypeSyntax, variables: seq<VariableDeclarator>)
    | OtherStatement

  datatype ClassMemberSyntax =
    | MethodDecl(identifier: string, returnType: TypeSyntax, parameters: seq<ParameterSyntax>,
                 body: Option<seq<StatementSyntax>>, location: Location)
    | OtherClassMember

  datatype MemberDeclarationSyntax =
    | NamespaceDecl(name: string, members: seq<MemberDeclarationSyntax>, location: Location)
    | ClassDecl(identifier: string, classMembers: seq<ClassMemberSyntax>, location: Location)
    | OtherMember

  /** A using is the text of its name, or None where Roslyn's `Name` is
      null: an alias to a type that is not a name (`using Num = int;`). */
  datatype CompilationUnitSyntax = CompilationUnit(usings: seq<Option<string>>, members: seq<MemberDeclarationSyntax>)

  /** SemanticAnalysis/DiagnosticMessage.cs. */
  datatype DiagnosticMessage = DiagnosticMessage(message: string, location: Location)

  /** A predefined type's keyword is a keyword. */
  predicate WellFormedType(t: TypeSyntax) {
    t.PredefinedType? ==> IsKeywordKind(t.keyword)
  }

  /** The type kind recorded for a declaration: the keyword of a predefined
      type, IdentifierName for a named type, None otherwise. */
  function GetTypeKind(t: TypeSyntax): (k: SyntaxKind)
    ensures t.PredefinedType? ==> k == t.keyword
    ensures WellFormedType(t) ==> (IsKeywordKind(k) <==> t.PredefinedType?)
    ensures WellFormedType(t) ==> (k == IdentifierName <==> t.IdentifierNameType?)
    ensures WellFormedType(t) ==> (k == NoneKind <==> t.OtherType?)
  {
    match t
    case PredefinedType(keyword) => keyword
    case IdentifierNameType(_) => IdentifierName
    case OtherType => NoneKind
  }

  /** "{what} '{name}' 已存在" ("... already exists"). */
  function AlreadyExists(what: string, name: string): string {
    what + " '" + name + "' 已存在"
  }

  const NamespaceWord := "命名空间"
  const TypeWord := "类型"
  const MethodWord := "方法"
  const ParameterWord := "参数"
  const VariableWord := "变量"

  /** The built-in types declared before every analysis, in order. */
  const PredefinedTypes: seq<(string, SyntaxKind)> :=
    [("int", IntKeyword), ("string", StringKeyword), ("void", VoidKeyword), ("bool", BoolKeyword)]

  /** A stored symbol as a value: its parent is given by the parent's key. */
  datatype Entry = Entry(name: string, kind: SymbolKind, typ: SyntaxKind, parent: Option<string>)

  /** The table's entries and the diagnostics reported so far. */
  datatype State = State(table: map<string, Entry>, diagnostics: seq<DiagnosticMessage>)

  /** Where a walk stops: the state then, and whether it threw. */
  datatype Run = Run(state: State, outcome: Outcome)

  /** The key of `name` declared in the scope stored under `scope`. */
  function Key(scope: Option<string>, name: string): string {
    if scope.None? then name else Qualify(scope.value, name)
  }

  /** The scope stored under `scope` already has a child called `name`. */
  predicate Declared(table: map<string, Entry>, name: string, scope: Option<string>) {
    scope.Some? && exists k :: k in table && table[k].parent == scope && table[k].name == name
  }

  /** A new symbol offered to TryAddSymbol: refused (false) when its scope
      already declares the name, else stored under its key, which throws
      when the key is taken. */
  function Declare(table: map<string, Entry>, scope: Option<string>, name: string, kind: SymbolKind, typ: SyntaxKind): Result<(map<string, Entry>, bool)> {
    if Declared(table, name, scope) then Ok((table, false))
    else if Key(scope, name) in table then Err(DuplicateKey(Key(scope, name)))
    else Ok((table[Key(scope, name) := Entry(name, kind, typ, scope)], true))
  }

  /** The state with one more "already exists" diagnostic. */
  function Reported(st: State, what: string, name: string, location: Location): State {
    State(st.table, st.diagnostics + [DiagnosticMessage(AlreadyExists(what, name), location)])
  }

  /** A declaration with no body: a refusal is reported and the walk goes on. */
  function LeafRun(st: State, scope: Option<string>, name: string, kind: SymbolKind, typ: SyntaxKind,
                   what: string, location: Location): Run {
    match Declare(st.table, scope, name, kind, typ)
    case Err(e) => Run(st, Fail(e))
    case Ok((table, added)) =>
      if added then Run(State(table, st.diagnostics), Pass) else Run(Reported(st, what, name, location), Pass)
  }

  function ParameterRun(st: State, scope: Option<string>, p: ParameterSyntax): Run {
    LeafRun(st, scope, p.identifier, Parameter, GetTypeKind(p.typ), ParameterWord, p.location)
  }

  /** The parameters from the `i`-th on, stopping at the first throw. */
  function ParametersRun(st: State, scope: Option<string>, ps: seq<ParameterSyntax>, i: nat): Run
    requires i <= |ps|
    decreases |ps| - i
  {
    if i == |ps| then Run(st, Pass)
    else
      var r := ParameterRun(st, scope, ps[i]);
      if r.outcome.Fail? then r else ParametersRun(r.state, scope, ps, i + 1)
  }

  function VariableRun(st: State, scope: Option<string>, typ: SyntaxKind, v: VariableDeclarator): Run {
    LeafRun(st, scope, v.identifier, Variable, typ, VariableWord, v.location)
  }

  /** The variables from the `i`-th on, stopping at the first throw. */
  function VariablesRun(st: State, scope: Option<string>, typ: SyntaxKind, vs: seq<VariableDeclarator>, i: nat): Run
    requires i <= |vs|
    decreases |vs| - i
  {
    if i == |vs| then Run(st, Pass)
    else
      var r := VariableRun(st, scope, typ, vs[i]);
      if r.outcome.Fail? then r else VariablesRun(r.state, scope, typ, vs, i + 1)
  }

  function StatementRun(st: State, scope: Option<string>, s: StatementSyntax): Run {
    if s.LocalDeclaration? then VariablesRun(st, scope, GetTypeKind(s.typ), s.variables, 0) else Run(st, Pass)
  }

  /** The statements from the `i`-th on, stopping at the first throw. */
  function StatementsRun(st: State, scope: Option<string>, ss: seq<StatementSyntax>, i: nat): Run
    requires i <= |ss|
    decreases |ss| - i
  {
    if i == |ss| then Run(st, Pass)
    else
      var r := StatementRun(st, scope, ss[i]);
      if r.outcome.Fail? then r else StatementsRun(r.state, scope, ss, i + 1)
  }

  /** A new method's parameters, then its body, are walked in its own scope. */
  function MethodRun(st: State, scope: Option<string>, m: ClassMemberSyntax): Run
    requires m.MethodDecl?
  {
    match Declare(st.table, scope, m.identifier, Method, GetTypeKind(m.returnType))
    case Err(e) => Run(st, Fail(e))
    case Ok((table, added)) =>
      if !added then Run(Reported(st, MethodWord, m.identifier, m.location), Pass)
      else MethodBodyRun(State(table, st.diagnostics), Some(Key(scope, m.identifier)), m)
  }

  /** The parameters, then the statements of the body if there is one. */
  function MethodBodyRun(st: State, inner: Option<string>, m: ClassMemberSyntax): Run
    requires m.MethodDecl?
  {
    var ps := ParametersRun(st, inner, m.parameters, 0);
    if ps.outcome.Fail? || m.body.None? then ps else StatementsRun(ps.state, inner, m.body.value, 0)
  }

  /** The class members from the `i`-th on; only methods are walked. */
  function ClassMembersRun(st: State, scope: Option<string>, ms: seq<ClassMemberSyntax>, i: nat): Run
    requires i <= |ms|
    decreases |ms| - i
  {
    if i == |ms| then Run(st, Pass)
    else
      var r := if ms[i].MethodDecl? then MethodRun(st, scope, ms[i]) else Run(st, Pass);
      if r.outcome.Fail? then r else ClassMembersRun(r.state, scope, ms, i + 1)
  }

  /** A new class's members are walked in its own scope. */
  function ClassRun(st: State, scope: Option<string>, c: MemberDeclarationSyntax): Run
    requires c.ClassDecl?
  {
    match Declare(st.table, scope, c.identifier, Class, ClassDeclaration)
    case Err(e) => Run(st, Fail(e))
    case Ok((table, added)) =>
      if !added then Run(Reported(st, TypeWord, c.identifier, c.location), Pass)
      else ClassMembersRun(State(table, st.diagnostics), Some(Key(scope, c.identifier)), c.classMembers, 0)
  }

  /** A namespace is declared with no parent, whatever the scope, and its
      members are walked in its own scope. */
  function NamespaceRun(st: State, ns: MemberDeclarationSyntax): Run
    requires ns.NamespaceDecl?
    decreases ns, 0
  {
    match Declare(st.table, None, ns.name, Namespace, NamespaceDeclaration)
    case Err(e) => Run(st, Fail(e))
    case Ok((table, _)) => MembersRun(State(table, st.diagnostics), Some(ns.name), ns.members, 0)
  }

  function MemberRun(st: State, scope: Option<string>, m: MemberDeclarationSyntax): Run
    decreases m, 1
  {
    match m
    case NamespaceDecl(_, _, _) => NamespaceRun(st, m)
    case ClassDecl(_, _, _) => ClassRun(st, scope, m)
    case OtherMember => Run(st, Pass)
  }

  /** The members from the `i`-th on, stopping at the first throw. */
  function MembersRun(st: State, scope: Option<string>, ms: seq<MemberDeclarationSyntax>, i: nat): Run
    requires i <= |ms|
    decreases ms, |ms| - i
  {
    if i == |ms| then Run(st, Pass)
    else
      var r := MemberRun(st, scope, ms[i]);
      if r.outcome.Fail? then r else MembersRun(r.state, scope, ms, i + 1)
  }

  /** The built-in types from the `i`-th on, each added with no parent;
      a taken name throws. */
  function PredefinedRun(st: State, i: nat): Run
    requires i <= |PredefinedTypes|
    decreases |PredefinedTypes| - i
  {
    if i == |PredefinedTypes| then Run(st, Pass)
    else
      var (name, kind) := PredefinedTypes[i];
      if name in st.table then Run(st, Fail(DuplicateKey(name)))
      else PredefinedRun(State(st.table[name := Entry(name, Class, kind, None)], st.diagnostics), i + 1)
  }

  /** A whole compilation unit: the built-in types, then the members in
      the scope the analyzer is in (none on a new analyzer). */
  function AnalyzeRun(st: State, scope: Option<string>, root: CompilationUnitSyntax): Run {
    var p := PredefinedRun(st, 0);
    if p.outcome.Fail? then p
    else if NamedPrefix(root.usings) < |root.usings| then Run(p.state, Fail(NullReference))
    else MembersRun(p.state, scope, root.members, 0)
  }

  /** How many usings come before the first one without a name. */
  function NamedPrefix(usings: seq<Option<string>>): (n: nat)
    ensures n <= |usings|
    ensures forall i :: 0 <= i < n ==> usings[i].Some?
    ensures n < |usings| ==> usings[n].None?
  {
    if usings == [] || usings[0].None? then 0 else 1 + NamedPrefix(usings[1..])
  }

  /** The names the using loop imports: those before the first using
      without a name. */
  function UsingNames(usings: seq<Option<string>>): set<string> {
    set i | 0 <= i < NamedPrefix(usings) :: usings[i].value
  }

  // A local declaration in closed form.

  /** The `i`-th variable of a declaration in `scope` is refused: the
      scope already held its name, or an earlier variable of the same
      declaration has that name. With no scope nothing is refused, since
      TryAddSymbol refuses only a symbol that has a parent. */
  predicate Refused(table: map<string, Entry>, scope: Option<string>, vs: seq<VariableDeclarator>, i: int)
    requires 0 <= i < |vs|
  {
    Declared(table, vs[i].identifier, scope) || (scope.Some? && Repeats(vs, i))
  }

  /** An earlier variable of the same declaration has the `i`-th one's name. */
  predicate Repeats(vs: seq<VariableDeclarator>, i: int)
    requires 0 <= i < |vs|
  {
    exists j :: 0 <= j < i && vs[j].identifier == vs[i].identifier
  }

  /** The `i`-th variable throws: it is not refused, but its key was taken
      before the declaration, or (with no scope) by an earlier variable of
      the same name. */
  predicate Throws(table: map<string, Entry>, scope: Option<string>, vs: seq<VariableDeclarator>, i: int)
    requires 0 <= i < |vs|
  {
    !Refused(table, scope, vs, i) && (Key(scope, vs[i].identifier) in table || Repeats(vs, i))
  }

  /** The first variable from the `i`-th on that throws, or |vs|. */
  function FirstThrow(table: map<string, Entry>, scope: Option<string>, vs: seq<VariableDeclarator>, i: nat): (n: nat)
    requires i <= |vs|
    ensures i <= n <= |vs|
    decreases |vs| - i
  {
    if i == |vs| then i
    else if Throws(table, scope, vs, i) then i
    else FirstThrow(table, scope, vs, i + 1)
  }

  /** FirstThrow finds a throwing variable, and none before it. */
  lemma {:induction false} FirstThrowIsFirst(table: map<string, Entry>, scope: Option<string>, vs: seq<VariableDeclarator>, i: nat)
    requires i <= |vs|
    ensures var n := FirstThrow(table, scope, vs, i);
      (n < |vs| ==> Throws(table, scope, vs, n)) && forall j :: i <= j < n ==> !Throws(table, scope, vs, j)
    decreases |vs| - i
  {
    if i < |vs| && !Throws(table, scope, vs, i) {
      FirstThrowIsFirst(table, scope, vs, i + 1);
    }
  }

  /** One "already exists" message per refused variable among the first
      `n`, in order. */
  function Reports(table: map<string, Entry>, scope: Option<string>, vs: seq<VariableDeclarator>, n: nat): seq<DiagnosticMessage>
    requires n <= |vs|
  {
    if n == 0 then []
    else
      Reports(table, scope, vs, n - 1)
      + if Refused(table, scope, vs, n - 1) then [DiagnosticMessage(AlreadyExists(VariableWord, vs[n - 1].identifier), vs[n - 1].location)] else []
  }

  /** The table with an entry for every variable among the first `n` that
      is not refused. */
  function Added(table: map<string, Entry>, scope: Option<string>, typ: SyntaxKind, vs: seq<VariableDeclarator>, n: nat): map<string, Entry>
    requires n <= |vs|
  {
    if n == 0 then table
    else if Refused(table, scope, vs, n - 1) then Added(table, scope, typ, vs, n - 1)
    else Added(table, scope, typ, vs, n - 1)[Key(scope, vs[n - 1].identifier) := Entry(vs[n - 1].identifier, Variable, typ, scope)]
  }

  /** A local declaration in `scope`: each refused variable is reported
      in order; every other variable is stored under its key in `scope` with the
      declaration's type; the first variable whose key was already taken
      ends the walk with DuplicateKey, and the variables after it are not
      looked at. */
  lemma VariablesClosedForm(st: State, scope: Option<string>, typ: SyntaxKind, vs: seq<VariableDeclarator>)
    ensures var n := FirstThrow(st.table, scope, vs, 0);
      VariablesRun(st, scope, typ, vs, 0) ==
        Run(State(Added(st.table, scope, typ, vs, n), st.diagnostics + Reports(st.table, scope, vs, n)),
            if n < |vs| then Fail(DuplicateKey(Key(scope, vs[n].identifier))) else Pass)
  {
    assert StateAt(st.table, st.diagnostics, scope, typ, vs, 0) == st;
    VariablesFrom(st.table, st.diagnostics, scope, typ, vs, 0);
  }

  /** The state after the first `i` variables, as the closed form gives it. */
  function StateAt(t0: map<string, Entry>, d0: seq<DiagnosticMessage>, scope: Option<string>, typ: SyntaxKind,
                   vs: seq<VariableDeclarator>, i: nat): State
    requires i <= |vs|
  {
    State(Added(t0, scope, typ, vs, i), d0 + Reports(t0, scope, vs, i))
  }

  lemma {:induction false} VariablesFrom(t0: map<string, Entry>, d0: seq<DiagnosticMessage>, scope: Option<string>, typ: SyntaxKind,
                                         vs: seq<VariableDeclarator>, i: nat)
    requires i <= |vs| && forall j :: 0 <= j < i ==> !Throws(t0, scope, vs, j)
    ensures var n := FirstThrow(t0, scope, vs, i);
      VariablesRun(StateAt(t0, d0, scope, typ, vs, i), scope, typ, vs, i) ==
        Run(StateAt(t0, d0, scope, typ, vs, n), if n < |vs| then Fail(DuplicateKey(Key(scope, vs[n].identifier))) else Pass)
    decreases |vs| - i
  {
    if i < |vs| {
      VariableStep(t0, d0, scope, typ, vs, i);
      if !Throws(t0, scope, vs, i) {
        VariablesFrom(t0, d0, scope, typ, vs, i + 1);
      }
    }
  }

  /** One variable, in the closed form: a refused one adds its report, a
      throwing one stops, any other adds its entry. */
  lemma VariableStep(t0: map<string, Entry>, d0: seq<DiagnosticMessage>, scope: Option<string>, typ: SyntaxKind,
                     vs: seq<VariableDeclarator>, i: nat)
    requires i < |vs| && forall j :: 0 <= j < i ==> !Throws(t0, scope, vs, j)
    ensures VariablesRun(StateAt(t0, d0, scope, typ, vs, i), scope, typ, vs, i) ==
      if Throws(t0, scope, vs, i) then Run(StateAt(t0, d0, scope, typ, vs, i), Fail(DuplicateKey(Key(scope, vs[i].identifier))))
      else VariablesRun(StateAt(t0, d0, scope, typ, vs, i + 1), scope, typ, vs, i + 1)
  {
    var st := StateAt(t0, d0, scope, typ, vs, i);
    var v := vs[i];
    LeafRunCases(st, scope, v.identifier, Variable, typ, VariableWord, v.location);
    DeclaredSoFar(t0, scope, typ, vs, i);
    TakenSoFar(t0, scope, typ, vs, i);
    var next := StateAt(t0, d0, scope, typ, vs, i + 1);
    if Refused(t0, scope, vs, i) {
      assert next == Reported(st, VariableWord, v.identifier, v.location);
    } else if !Throws(t0, scope, vs, i) {
      assert next == State(st.table[Key(scope, v.identifier) := Entry(v.identifier, Variable, typ, scope)], st.diagnostics);
    }
  }

  /** LeafRun's three outcomes: refused and reported, thrown, or stored. */
  lemma LeafRunCases(st: State, scope: Option<string>, name: string, kind: SymbolKind, typ: SyntaxKind,
                     what: string, location: Location)
    ensures LeafRun(st, scope, name, kind, typ, what, location) ==
      if Declared(st.table, name, scope) then Run(Reported(st, what, name, location), Pass)
      else if Key(scope, name) in st.table then Run(st, Fail(DuplicateKey(Key(scope, name))))
      else Run(State(st.table[Key(scope, name) := Entry(name, kind, typ, scope)], st.diagnostics), Pass)
  {
  }

  /** With no throw so far, the entries stored for the first `i` variables
      make the `i`-th refused exactly as the closed form says. */
  lemma DeclaredSoFar(t0: map<string, Entry>, scope: Option<string>, typ: SyntaxKind, vs: seq<VariableDeclarator>, i: nat)
    requires i < |vs| && forall j :: 0 <= j < i ==> !Throws(t0, scope, vs, j)
    ensures Declared(Added(t0, scope, typ, vs, i), vs[i].identifier, scope) <==> Refused(t0, scope, vs, i)
  {
    DeclaredMeansRefused(t0, scope, typ, vs, i);
    RefusedMeansDeclared(t0, scope, typ, vs, i);
  }

  lemma DeclaredMeansRefused(t0: map<string, Entry>, scope: Option<string>, typ: SyntaxKind, vs: seq<VariableDeclarator>, i: nat)
    requires i < |vs| && forall j :: 0 <= j < i ==> !Throws(t0, scope, vs, j)
    ensures Declared(Added(t0, scope, typ, vs, i), vs[i].identifier, scope) ==> Refused(t0, scope, vs, i)
  {
    var a := Added(t0, scope, typ, vs, i);
    var name := vs[i].identifier;
    if Declared(a, name, scope) {
      var k :| k in a && a[k].parent == scope && a[k].name == name;
      if k in t0 {
        AddedKeeps(t0, scope, typ, vs, i, k);
        assert t0[k] == a[k];
      } else {
        AddedOnly(t0, scope, typ, vs, i, k);
        var j :| 0 <= j < i && !Refused(t0, scope, vs, j) && k == Key(scope, vs[j].identifier);
        AddedHas(t0, scope, typ, vs, i, j);
        assert vs[j].identifier == a[k].name;
      }
    }
  }

  lemma RefusedMeansDeclared(t0: map<string, Entry>, scope: Option<string>, typ: SyntaxKind, vs: seq<VariableDeclarator>, i: nat)
    requires i < |vs| && forall j :: 0 <= j < i ==> !Throws(t0, scope, vs, j)
    ensures Refused(t0, scope, vs, i) ==> Declared(Added(t0, scope, typ, vs, i), vs[i].identifier, scope)
  {
    var a := Added(t0, scope, typ, vs, i);
    var name := vs[i].identifier;
    if Refused(t0, scope, vs, i) {
      if Declared(t0, name, scope) {
        var k :| k in t0 && t0[k].parent == scope && t0[k].name == name;
        AddedKeeps(t0, scope, typ, vs, i, k);
        assert a[k] == t0[k];
      } else {
        var j0 :| 0 <= j0 < i && vs[j0].identifier == name;
        var j := FirstNamed(vs, name, 0, j0);
        assert !Refused(t0, scope, vs, j);
        AddedHas(t0, scope, typ, vs, i, j);
        assert a[Key(scope, vs[j].identifier)] == NewEntry(scope, typ, vs, j);
      }
    }
  }

  /** With no throw so far, a variable that is not refused finds its key
      taken only if it was taken before the declaration. */
  lemma TakenSoFar(t0: map<string, Entry>, scope: Option<string>, typ: SyntaxKind, vs: seq<VariableDeclarator>, i: nat)
    requires i < |vs| && forall j :: 0 <= j < i ==> !Throws(t0, scope, vs, j)
    ensures !Refused(t0, scope, vs, i) ==>
      (Key(scope, vs[i].identifier) in Added(t0, scope, typ, vs, i) <==> Key(scope, vs[i].identifier) in t0 || Repeats(vs, i))
  {
    var name := vs[i].identifier;
    var a := Added(t0, scope, typ, vs, i);
    if Key(scope, name) in t0 {
      AddedKeeps(t0, scope, typ, vs, i, Key(scope, name));
    }
    if scope.None? && Repeats(vs, i) {
      var j :| 0 <= j < i && vs[j].identifier == name;
      AddedHas(t0, scope, typ, vs, i, j);
    }
    if Key(scope, name) in a && Key(scope, name) !in t0 {
      AddedOnly(t0, scope, typ, vs, i, Key(scope, name));
      var j :| 0 <= j < i && !Refused(t0, scope, vs, j) && Key(scope, name) == Key(scope, vs[j].identifier);
      KeyInjective(scope, name, vs[j].identifier);
      assert Repeats(vs, i);
    }
  }

  /** The entry stored for the `j`-th variable. */
  function NewEntry(scope: Option<string>, typ: SyntaxKind, vs: seq<VariableDeclarator>, j: int): Entry
    requires 0 <= j < |vs|
  {
    Entry(vs[j].identifier, Variable, typ, scope)
  }

  /** With no throw among the first `i` variables, an entry that was there
      before the declaration is untouched. */
  lemma {:induction false} AddedKeeps(t0: map<string, Entry>, scope: Option<string>, typ: SyntaxKind, vs: seq<VariableDeclarator>, i: nat, k: string)
    requires i <= |vs| && forall j :: 0 <= j < i ==> !Throws(t0, scope, vs, j)
    requires k in t0
    ensures k in Added(t0, scope, typ, vs, i) && Added(t0, scope, typ, vs, i)[k] == t0[k]
  {
    if i > 0 {
      AddedKeeps(t0, scope, typ, vs, i - 1, k);
      assert !Throws(t0, scope, vs, i - 1);
      var prev := Added(t0, scope, typ, vs, i - 1);
      var key := Key(scope, vs[i - 1].identifier);
      var refused := Refused(t0, scope, vs, i - 1);
      assert Added(t0, scope, typ, vs, i) == if refused then prev else prev[key := NewEntry(scope, typ, vs, i - 1)];
    }
  }

  /** The `j`-th variable, when it is not refused, is stored under its own
      key after the first `i`. */
  lemma {:induction false} AddedHas(t0: map<string, Entry>, scope: Option<string>, typ: SyntaxKind, vs: seq<VariableDeclarator>, i: nat, j: nat)
    requires j < i <= |vs| && !Refused(t0, scope, vs, j)
    ensures Key(scope, vs[j].identifier) in Added(t0, scope, typ, vs, i)
    ensures Added(t0, scope, typ, vs, i)[Key(scope, vs[j].identifier)] == NewEntry(scope, typ, vs, j)
  {
    var prev := Added(t0, scope, typ, vs, i - 1);
    var key := Key(scope, vs[i - 1].identifier);
    var refused := Refused(t0, scope, vs, i - 1);
    assert Added(t0, scope, typ, vs, i) == if refused then prev else prev[key := NewEntry(scope, typ, vs, i - 1)];
    if j < i - 1 {
      AddedHas(t0, scope, typ, vs, i - 1, j);
      if !refused && vs[j].identifier != vs[i - 1].identifier {
        KeyInjective(scope, vs[j].identifier, vs[i - 1].identifier);
      }
    }
  }

  /** A key stored for the first `i` variables that was not there before
      belongs to one of them that is not refused. */
  lemma {:induction false} AddedOnly(t0: map<string, Entry>, scope: Option<string>, typ: SyntaxKind, vs: seq<VariableDeclarator>, i: nat, k: string)
    requires i <= |vs|
    ensures k in Added(t0, scope, typ, vs, i) && k !in t0 ==>
      exists j :: 0 <= j < i && !Refused(t0, scope, vs, j) && k == Key(scope, vs[j].identifier)
  {
    if i > 0 && k in Added(t0, scope, typ, vs, i) && k !in t0 {
      var prev := Added(t0, scope, typ, vs, i - 1);
      var key := Key(scope, vs[i - 1].identifier);
      var refused := Refused(t0, scope, vs, i - 1);
      assert Added(t0, scope, typ, vs, i) == if refused then prev else prev[key := NewEntry(scope, typ, vs, i - 1)];
      if !refused && k == key {
        assert 0 <= i - 1 < i;
      } else {
        assert k in prev;
        AddedOnly(t0, scope, typ, vs, i - 1, k);
        var j :| 0 <= j < i - 1 && !Refused(t0, scope, vs, j) && k == Key(scope, vs[j].identifier);
        assert 0 <= j < i;
      }
    }
  }

  /** The first index from `k` to `j` whose variable is called `name`. */
  function FirstNamed(vs: seq<VariableDeclarator>, name: string, k: nat, j: nat): (r: nat)
    requires k <= j < |vs| && vs[j].identifier == name
    ensures k <= r <= j && vs[r].identifier == name
    ensures forall l :: k <= l < r ==> vs[l].identifier != name
    decreases j - k
  {
    if vs[k].identifier == name then k else FirstNamed(vs, name, k + 1, j)
  }

  /** Two names declared in the same scope get the same key only when they
      are the same name. */
  lemma KeyInjective(scope: Option<string>, a: string, b: string)
    ensures Key(scope, a) == Key(scope, b) ==> a == b
  {
    if scope.Some? && Key(scope, a) == Key(scope, b) {
      var prefix := scope.value;
      assert a == Qualify(prefix, a)[|prefix| + 1..];
      assert b == Qualify(prefix, b)[|prefix| + 1..];
    }
  }
}
