/** SemanticAnalysis/Symbol.cs and SymbolTable.cs: declared names as
    objects linked to their enclosing scope, and a table of them keyed by
    dotted full name with the imported namespaces beside it. Symbols are
    compared by reference, as SymbolTable.cs compares `Parent` objects. */
module Symbols {
  import opened Common

  datatype SymbolKind = Namespace | Class | Method | Variable | Parameter

  /** The .NET enum name, as string interpolation prints it; it has no
      space, so in ToString's text the kind is what comes before the first
      space. */
  function KindName(k: SymbolKind): (r: string)
    ensures r != [] && ' ' !in r
  {
    match k
    case Namespace => "Namespace"
    case Class => "Class"
    case Method => "Method"
    case Variable => "Variable"
    case Parameter => "Parameter"
  }

  /** The Roslyn enum name of a syntax kind, as string interpolation prints
      it; every keyword's name ends in "Keyword". */
  function TypeName(k: SyntaxKind): (r: string)
    ensures IsKeywordKind(k) ==> IsSuffix("Keyword", r)
  {
    if IsKeywordKind(k) then KeywordName(KeywordKindStem(k)) else NodeOrTokenName(k)
  }

  /** The part of a keyword kind's enum name before "Keyword" (empty for
      the other kinds, which TypeName names by NodeOrTokenName). */
  function KeywordKindStem(k: SyntaxKind): string {
    match k
    case UsingKeyword => "Using"
    case ClassKeyword => "Class"
    case PublicKeyword => "Public"
    case PrivateKeyword => "Private"
    case StaticKeyword => "Static"
    case IntKeyword => "Int"
    case StringKeyword => "String"
    case VoidKeyword => "Void"
    case BoolKeyword => "Bool"
    case OtherKeyword(spelling) => KeywordStem(spelling)
    case _ => ""
  }

  /** The enum name of a token or node kind (empty for the keyword kinds,
      which TypeName names by KeywordName). */
  function NodeOrTokenName(k: SyntaxKind): string {
    match k
    case NoneKind => "None"
    case WhitespaceTrivia => "WhitespaceTrivia"
    case EndOfLineTrivia => "EndOfLineTrivia"
    case SingleLineCommentTrivia => "SingleLineCommentTrivia"
    case MultiLineCommentTrivia => "MultiLineCommentTrivia"
    case NumericLiteralToken => "NumericLiteralToken"
    case StringLiteralToken => "StringLiteralToken"
    case IdentifierToken => "IdentifierToken"
    case EndOfFileToken => "EndOfFileToken"
    case SemicolonToken => "SemicolonToken"
    case ColonToken => "ColonToken"
    case CommaToken => "CommaToken"
    case DotToken => "DotToken"
    case LessThanEqualsToken => "LessThanEqualsToken"
    case GreaterThanEqualsToken => "GreaterThanEqualsToken"
    case EqualsEqualsToken => "EqualsEqualsToken"
    case EqualsToken => "EqualsToken"
    case OpenParenToken => "OpenParenToken"
    case CloseParenToken => "CloseParenToken"
    case OpenBraceToken => "OpenBraceToken"
    case CloseBraceToken => "CloseBraceToken"
    case OpenBracketToken => "OpenBracketToken"
    case CloseBracketToken => "CloseBracketToken"
    case GreaterThanToken => "GreaterThanToken"
    case LessThanToken => "LessThanToken"
    case PlusToken => "PlusToken"
    case MinusToken => "MinusToken"
    case AsteriskToken => "AsteriskToken"
    case SlashToken => "SlashToken"
    case ExclamationEqualsToken => "ExclamationEqualsToken"
    case AmpersandAmpersandToken => "AmpersandAmpersandToken"
    case BarBarToken => "BarBarToken"
    case ExclamationToken => "ExclamationToken"
    case IdentifierName => "IdentifierName"
    case NamespaceDeclaration => "NamespaceDeclaration"
    case ClassDeclaration => "ClassDeclaration"
    case _ => ""
  }

  /** A keyword kind's enum name: its stem followed by "Keyword". */
  function KeywordName(stem: string): (r: string)
    ensures IsSuffix("Keyword", r)
  {
    ConcatParts(stem, "", "Keyword");
    assert stem + "" + "Keyword" == stem + "Keyword";
    stem + "Keyword"
  }

  /** The part of a keyword's Roslyn enum name before "Keyword": the
      spelling without a leading "__", with a capital at the start of each
      word (`UIntKeyword`, `ReadOnlyKeyword`, `ArgListKeyword`), except
      the `#r` directive's `ReferenceKeyword`. */
  function KeywordStem(spelling: string): string {
    if spelling == "r" then "Reference" else Recased(Unprefixed(spelling), WordStarts(spelling))
  }

  /** Where the words of a keyword's enum name start, in its spelling
      without "__": at 0 only, but for the keywords Roslyn names with
      more than one word. */
  function WordStarts(spelling: string): set<nat> {
    match spelling
    case "sbyte" => {0, 1}
    case "ushort" => {0, 1}
    case "uint" => {0, 1}
    case "ulong" => {0, 1}
    case "foreach" => {0, 3}
    case "readonly" => {0, 4}
    case "typeof" => {0, 4}
    case "sizeof" => {0, 4}
    case "stackalloc" => {0, 5}
    case "nameof" => {0, 4}
    case "orderby" => {0, 5}
    case "typevar" => {0, 4}
    case "endif" => {0, 3}
    case "endregion" => {0, 3}
    case "__arglist" => {0, 3}
    case "__makeref" => {0, 4}
    case "__reftype" => {0, 3}
    case "__refvalue" => {0, 3}
    case _ => {0}
  }

  function UpperChar(c: char): char {
    if 'a' <= c <= 'z' then (c as int - 32) as char else c
  }

  function LowerChar(c: char): char {
    if 'A' <= c <= 'Z' then (c as int + 32) as char else c
  }

  /** `s` with the letters at `starts` made capital. */
  function Recased(s: string, starts: set<nat>): (r: string)
    ensures |r| == |s| && forall i :: 0 <= i < |s| ==> r[i] == if i in starts then UpperChar(s[i]) else s[i]
  {
    seq(|s|, i requires 0 <= i < |s| => if i in starts then UpperChar(s[i]) else s[i])
  }

  /** `s` with every capital letter made small. */
  function Lowered(s: string): (r: string)
    ensures |r| == |s| && forall i :: 0 <= i < |s| ==> r[i] == LowerChar(s[i])
  {
    seq(|s|, i requires 0 <= i < |s| => LowerChar(s[i]))
  }

  /** `s` without its leading "__", if it has one. */
  function Unprefixed(s: string): string {
    if |s| >= 2 && s[0] == '_' && s[1] == '_' then s[2..] else s
  }

  predicate NoCapitals(s: string) {
    forall i :: 0 <= i < |s| ==> !('A' <= s[i] <= 'Z')
  }

  /** A keyword's enum name only recases its spelling, less any leading
      "__": lowered, the stem gives that spelling back, and a spelling that
      starts with a letter gives a stem that starts with a capital. */
  lemma KeywordStemSpells(spelling: string)
    requires NoCapitals(spelling) && spelling != "r"
    ensures var stem := KeywordStem(spelling);
      && Lowered(stem) == Unprefixed(spelling)
      && (Unprefixed(spelling) != [] && 'a' <= Unprefixed(spelling)[0] <= 'z' ==> 'A' <= stem[0] <= 'Z')
  {
    var t := Unprefixed(spelling);
    var stem := KeywordStem(spelling);
    assert 0 in WordStarts(spelling);
    forall i | 0 <= i < |t|
      ensures Lowered(stem)[i] == t[i]
    {
      assert !('A' <= t[i] <= 'Z');
    }
  }

  /** Any other keyword prints as its stem and "Keyword". */
  lemma OtherKeywordName(spelling: string)
    ensures TypeName(OtherKeyword(spelling)) == KeywordStem(spelling) + "Keyword"
  {
  }

  /** The integer keywords whose enum name has two capitals. */
  lemma UnsignedKeywordStems()
    ensures KeywordStem("uint") == "UInt" && KeywordStem("ushort") == "UShort"
    ensures KeywordStem("ulong") == "ULong" && KeywordStem("sbyte") == "SByte"
  {
    assert Recased("uint", {0, 1}) == "UInt";
    assert Recased("ushort", {0, 1}) == "UShort";
    assert Recased("ulong", {0, 1}) == "ULong";
    assert Recased("sbyte", {0, 1}) == "SByte";
  }

  /** `readonly` is two words, `goto` one. */
  lemma WordKeywordStems()
    ensures KeywordStem("readonly") == "ReadOnly" && KeywordStem("goto") == "Goto"
  {
    assert Recased("readonly", {0, 4}) == "ReadOnly";
    assert Recased("goto", {0}) == "Goto";
  }

  /** A `__` keyword drops its underscores; `#r` is the reference directive. */
  lemma OddKeywordStems()
    ensures KeywordStem("__arglist") == "ArgList" && KeywordStem("r") == "Reference"
  {
    assert Unprefixed("__arglist") == "arglist";
    assert Recased("arglist", {0, 3}) == "ArgList";
  }

  /** `prefix.name`, the form of every scoped or imported lookup key. */
  function Qualify(prefix: string, name: string): string {
    prefix + "." + name
  }

  class Symbol {
    const name: string
    const kind: SymbolKind
    const typ: SyntaxKind
    const parent: Symbol?
    /** Length of the parent chain; parents are built before their children,
        so the chain is finite. */
    ghost const depth: nat
    var children: seq<Symbol>

    /** The parent chain ends. */
    ghost predicate Rooted()
      decreases depth
    {
      parent != null ==> parent.depth < depth && parent.Rooted()
    }

    /** A new symbol registers itself as the last child of its parent. */
    constructor(name: string, kind: SymbolKind, typ: SyntaxKind, parent: Symbol?)
      requires parent != null ==> parent.Rooted()
      modifies if parent == null then {} else {parent}
      ensures this.name == name && this.kind == kind && this.typ == typ && this.parent == parent
      ensures children == []
      ensures Rooted()
      ensures parent != null ==> parent.children == old(parent.children) + [this]
    {
      this.name := name;
      this.kind := kind;
      this.typ := typ;
      this.parent := parent;
      depth := if parent == null then 0 else parent.depth + 1;
      children := [];
      new;
      if parent != null {
        parent.AddChild(this);
      }
    }

    method AddChild(child: Symbol)
      modifies this
      ensures children == old(children) + [child]
    {
      children := children + [child];
    }

    /** The names from the outermost ancestor down to this symbol. */
    ghost function Path(): (p: seq<string>)
      requires Rooted()
      ensures p != [] && p[|p| - 1] == name
      decreases depth
    {
      if parent == null then [name] else parent.Path() + [name]
    }

    /** The names along the parent chain joined by dots. */
    function FullName(): string
      requires Rooted()
      decreases depth
    {
      if parent == null then name else Qualify(parent.FullName(), name)
    }

    /** "{Kind} {FullName}: {Type}": the kind, a space, the names along the
        parent chain joined by dots, a colon and the type. */
    function ToString(): (r: string)
      requires Rooted()
      ensures KindName(kind) + " " <= r
      ensures IsSuffix(": " + TypeName(typ), r)
      ensures r == KindName(kind) + " " + JoinDots(Path()) + ": " + TypeName(typ)
    {
      var head := KindName(kind) + " ";
      var tail := ": " + TypeName(typ);
      var middle := FullName();
      ConcatParts(head, middle, tail);
      FullNameIsPath(this);
      head + middle + tail
    }
  }

  predicate IsSuffix(suffix: string, s: string) {
    |suffix| <= |s| && s[|s| - |suffix|..] == suffix
  }

  lemma ConcatParts(a: string, b: string, c: string)
    ensures a <= a + b + c
    ensures IsSuffix(c, a + b + c)
  {
    var s := a + b + c;
    assert s[..|a|] == a;
    assert s[|s| - |c|..] == c;
  }

  /** Names joined by ".". */
  function JoinDots(names: seq<string>): string
    decreases |names|
  {
    if names == [] then ""
    else if |names| == 1 then names[0]
    else JoinDots(names[..|names| - 1]) + "." + names[|names| - 1]
  }

  lemma JoinDotsSnoc(names: seq<string>, x: string)
    requires names != []
    ensures JoinDots(names + [x]) == Qualify(JoinDots(names), x)
  {
    assert (names + [x])[..|names|] == names;
  }

  /** The full name is the names along the parent chain joined by dots. */
  lemma {:induction false} FullNameIsPath(s: Symbol)
    requires s.Rooted()
    ensures s.FullName() == JoinDots(s.Path())
    decreases s.depth
  {
    if s.parent != null {
      FullNameIsPath(s.parent);
      JoinDotsSnoc(s.parent.Path(), s.name);
    }
  }

  /** Every entry of `m` is a rooted symbol stored under its full name. */
  ghost predicate KeyedByFullName(m: map<string, Symbol>) {
    var ok := forall key :: key in m ==> m[key].Rooted() && m[key].FullName() == key;
    ok
  }

  lemma KeyedAdd(m: map<string, Symbol>, s: Symbol)
    requires KeyedByFullName(m) && s.Rooted()
    ensures KeyedByFullName(m[s.FullName() := s])
  {
  }

  /** `b` keeps every entry of `a`. */
  predicate Grows(a: map<string, Symbol>, b: map<string, Symbol>) {
    var ok := forall key :: key in a ==> key in b && b[key] == a[key];
    ok
  }

  lemma GrowsTrans(a: map<string, Symbol>, b: map<string, Symbol>, c: map<string, Symbol>)
    requires Grows(a, b) && Grows(b, c)
    ensures Grows(a, c)
  {
  }

  lemma GrowsAdd(a: map<string, Symbol>, key: string, s: Symbol)
    requires key !in a
    ensures Grows(a, a[key := s])
  {
  }

  lemma GrowsKeeps(a: map<string, Symbol>, b: map<string, Symbol>, key: string)
    requires Grows(a, b) && key in a
    ensures key in b && b[key] == a[key]
  {
  }

  /** The keys a scoped lookup of `name` from `scope` tries, in order: the
      name qualified by the scope and by each ancestor, then the bare name. */
  ghost function ScopeCandidates(name: string, scope: Symbol?): seq<string>
    requires scope != null ==> scope.Rooted()
    decreases if scope == null then 0 else scope.depth + 1
  {
    if scope == null then [name]
    else [Qualify(scope.FullName(), name)] + ScopeCandidates(name, scope.parent)
  }

  /** `r` is the entry of the first key of `keys` present in `m`, or None
      when none is. */
  ghost predicate FirstHit(keys: seq<string>, m: map<string, Symbol>, r: Option<Symbol>) {
    && (r.Some? ==> exists k :: 0 <= k < |keys| && keys[k] in m && m[keys[k]] == r.value &&
                                (forall l :: 0 <= l < k ==> keys[l] !in m))
    && (r.None? ==> forall k :: 0 <= k < |keys| ==> keys[k] !in m)
  }

  class SymbolTable {
    var symbols: map<string, Symbol>
    var usingNamespaces: set<string>

    ghost predicate Valid()
      reads this
    {
      KeyedByFullName(symbols)
    }

    constructor()
      ensures symbols == map[] && usingNamespaces == {}
      ensures Valid()
    {
      symbols := map[];
      usingNamespaces := {};
    }

    /** Some stored symbol has this name and this (non-null) parent object. */
    ghost predicate DeclaredIn(name: string, scope: Symbol?)
      reads this
    {
      var ok := scope != null && exists s :: s in symbols.Values && s.parent == scope && s.name == name;
      ok
    }

    /** Dictionary.Add under the full name: a present key throws. */
    method AddSymbol(symbol: Symbol) returns (r: Outcome)
      requires Valid() && symbol.Rooted()
      modifies this
      ensures Valid()
      ensures usingNamespaces == old(usingNamespaces)
      ensures symbol.FullName() in old(symbols) ==> r == Fail(DuplicateKey(symbol.FullName())) && symbols == old(symbols)
      ensures symbol.FullName() !in old(symbols) ==> r == Pass && symbols == old(symbols)[symbol.FullName() := symbol]
    {
      var name := symbol.FullName();
      if name in symbols {
        return Fail(DuplicateKey(name));
      }
      KeyedAdd(symbols, symbol);
      symbols := symbols[name := symbol];
      return Pass;
    }

    /** False, with nothing changed, when the symbol's scope already holds
        its name; otherwise AddSymbol, which may throw. */
    method TryAddSymbol(symbol: Symbol) returns (r: Result<bool>)
      requires Valid() && symbol.Rooted()
      modifies this
      ensures Valid()
      ensures usingNamespaces == old(usingNamespaces)
      ensures old(DeclaredIn(symbol.name, symbol.parent)) ==> r == Ok(false) && symbols == old(symbols)
      ensures !old(DeclaredIn(symbol.name, symbol.parent)) && symbol.FullName() in old(symbols) ==>
        r == Err(DuplicateKey(symbol.FullName())) && symbols == old(symbols)
      ensures !old(DeclaredIn(symbol.name, symbol.parent)) && symbol.FullName() !in old(symbols) ==>
        r == Ok(true) && symbols == old(symbols)[symbol.FullName() := symbol]
      ensures symbol.parent == null ==> r != Ok(false)
    {
      var declared := IsSymbolDeclaredInScope(symbol.name, symbol.parent);
      if declared {
        return Ok(false);
      }
      var added := AddSymbol(symbol);
      if added.Fail? {
        return Err(added.error);
      }
      return Ok(true);
    }

    /** Exact lookup by full name, with no scoping. */
    function TryGetSymbol(name: string): (r: Option<Symbol>)
      reads this
      ensures r.Some? <==> name in symbols
      ensures r.Some? ==> symbols[name] == r.value
    {
      if name in symbols then Some(symbols[name]) else None
    }

    method AddNamespace(ns: string)
      modifies this
      ensures usingNamespaces == old(usingNamespaces) + {ns}
      ensures symbols == old(symbols)
    {
      usingNamespaces := usingNamespaces + {ns};
    }

    /** Scans the stored symbols for one with this name and this parent
        object; a null scope is never searched. */
    method IsSymbolDeclaredInScope(name: string, scope: Symbol?) returns (b: bool)
      ensures b <==> DeclaredIn(name, scope)
    {
      if scope == null {
        return false;
      }
      var todo := symbols.Values;
      while todo != {}
        invariant todo <= symbols.Values
        invariant forall s :: s in symbols.Values && s !in todo ==> !(s.parent == scope && s.name == name)
        decreases |todo|
      {
        var symbol :| symbol in todo;
        if symbol.parent == scope && symbol.name == name {
          return true;
        }
        todo := todo - {symbol};
      }
      return false;
    }

    /** The scoped lookup: the name qualified by the scope, then by each
        ancestor in turn, then the bare name. */
    function TryResolveInScope(name: string, currentScope: Symbol?): (r: Option<Symbol>)
      requires currentScope != null ==> currentScope.Rooted()
      reads this
      ensures FirstHit(ScopeCandidates(name, currentScope), symbols, r)
      decreases if currentScope == null then 0 else currentScope.depth + 1
    {
      if currentScope != null then
        var scopedName := Qualify(currentScope.FullName(), name);
        var here := TryGetSymbol(scopedName);
        if here.Some? then
          FirstHitHead(scopedName, ScopeCandidates(name, currentScope.parent), symbols);
          here
        else
          var r := TryResolveInScope(name, currentScope.parent);
          FirstHitCons(scopedName, ScopeCandidates(name, currentScope.parent), symbols, r);
          r
      else
        assert [name] + [] == [name];
        if name in symbols then
          FirstHitHead(name, [], symbols);
          TryGetSymbol(name)
        else
          FirstHitCons(name, [], symbols, None);
          TryGetSymbol(name)
    }

    /** Some imported namespace qualifies `name` to a stored key. */
    ghost predicate NamespaceHit(name: string, ns: string)
      reads this
    {
      ns in usingNamespaces && Qualify(ns, name) in symbols
    }

    /** Tries the imported namespaces in an unspecified order. */
    method TryResolveInNamespace(name: string) returns (r: Option<Symbol>)
      ensures r.Some? ==> exists ns :: NamespaceHit(name, ns) && symbols[Qualify(ns, name)] == r.value
      ensures r.None? <==> forall ns :: !NamespaceHit(name, ns)
    {
      var todo := usingNamespaces;
      while todo != {}
        invariant todo <= usingNamespaces
        invariant forall ns :: ns !in todo ==> !NamespaceHit(name, ns)
        decreases |todo|
      {
        var ns :| ns in todo;
        var fullName := Qualify(ns, name);
        if fullName in symbols {
          return Some(symbols[fullName]);
        }
        todo := todo - {ns};
      }
      return None;
    }

    /** The scoped lookup first, then the imported namespaces. */
    method TryResolveSymbol(name: string, currentScope: Symbol?) returns (r: Option<Symbol>)
      requires currentScope != null ==> currentScope.Rooted()
      ensures TryResolveInScope(name, currentScope).Some? ==> r == TryResolveInScope(name, currentScope)
      ensures TryResolveInScope(name, currentScope).None? ==>
        (r.Some? ==> exists ns :: NamespaceHit(name, ns) && symbols[Qualify(ns, name)] == r.value)
      ensures r.None? <==> TryResolveInScope(name, currentScope).None? && forall ns :: !NamespaceHit(name, ns)
    {
      r := TryResolveInScope(name, currentScope);
      if r.Some? {
        return r;
      }
      r := TryResolveInNamespace(name);
    }
  }

  lemma FirstHitHead(key: string, rest: seq<string>, m: map<string, Symbol>)
    requires key in m
    ensures FirstHit([key] + rest, m, Some(m[key]))
  {
    assert ([key] + rest)[0] == key;
  }

  lemma FirstHitCons(key: string, rest: seq<string>, m: map<string, Symbol>, r: Option<Symbol>)
    requires key !in m && FirstHit(rest, m, r)
    ensures FirstHit([key] + rest, m, r)
  {
    var keys := [key] + rest;
    if r.Some? {
      var k :| 0 <= k < |rest| && rest[k] in m && m[rest[k]] == r.value && (forall l :: 0 <= l < k ==> rest[l] !in m);
      assert keys[k + 1] == rest[k];
      forall l | 0 <= l < k + 1 ensures keys[l] !in m {
        if l > 0 {
          assert keys[l] == rest[l - 1];
        }
      }
    } else {
      forall k | 0 <= k < |keys| ensures keys[k] !in m {
        if k > 0 {
          assert keys[k] == rest[k - 1];
        }
      }
    }
  }

  /** A symbol stored under its full name is what the scoped lookup of its
      name from its own parent finds: the first key tried is its full name. */
  lemma ResolveFindsDeclared(t: SymbolTable, s: Symbol)
    requires s.Rooted() && s.FullName() in t.symbols && t.symbols[s.FullName()] == s
    ensures t.TryResolveInScope(s.name, s.parent) == Some(s)
  {
  }
}
