/** Parser.cs: a recursive-descent parser over the token list with a cursor
    field. Each parsing routine is specified by a function of the token list
    and the cursor that returns the node and the cursor after it, or the
    exception the routine throws; the `Parser` class runs the routines as
    Parser.cs does and is proved to agree with those functions. */
module Parser {
  import opened Common

  /** A name: an identifier, or a qualified name whose left part is itself a
      name (so `A.B.C` nests to the left). */
  datatype NameSyntax =
    | IdentifierNameSyntax(identifier: string)
    | QualifiedNameSyntax(left: NameSyntax, right: string)

  datatype UsingDirectiveSyntax = UsingDirective(usingKeyword: Token, name: NameSyntax, semicolon: Token)

  /** A class declaration as the parser builds it: it never has members, type
      parameters or a base list. */
  datatype ClassDeclarationSyntax = ClassDeclarationSyntax(
    modifiers: seq<Token>, keyword: Token, identifier: Token,
    openBrace: Token, closeBrace: Token, semicolon: Token)

  datatype CompilationUnitSyntax = CompilationUnit(usings: seq<UsingDirectiveSyntax>, members: seq<ClassDeclarationSyntax>)

  /** The kinds ParseModifiers accepts. */
  predicate IsModifier(k: SyntaxKind) {
    k == PublicKeyword || k == PrivateKeyword || k == StaticKeyword
  }

  /** The shape the lexer guarantees: the list ends with its end-of-file token. */
  predicate EndsWithEof(ts: seq<Token>) {
    |ts| > 0 && ts[|ts| - 1].kind == EndOfFileToken
  }

  /** What a routine leaves behind when it started at a cursor `pos` below the
      final end-of-file token: the cursor stays on the list, and reading the
      current token never fails. */
  predicate StaysOnList<T(==)>(ts: seq<Token>, pos: nat, r: Result<(T, nat)>) {
    EndsWithEof(ts) && pos < |ts| ==> (r.Ok? ==> r.value.1 < |ts|) && r != Err(IndexOutOfRange)
  }

  // ---------------------------------------------------------------------
  // The routines as functions of (tokens, cursor)

  /** The `Current` property: the token under the cursor; the list indexer
      throws past the end. */
  function CurrentAt(ts: seq<Token>, pos: nat): Result<Token> {
    if pos < |ts| then Ok(ts[pos]) else Err(IndexOutOfRange)
  }

  /** MatchToken(kind): the current token and the cursor after it, when the
      current token has that kind. */
  function MatchAt(ts: seq<Token>, pos: nat, kind: SyntaxKind): (r: Result<(Token, nat)>)
    ensures r.Ok? <==> pos < |ts| && ts[pos].kind == kind
    ensures r.Ok? ==> r.value == (ts[pos], pos + 1)
    ensures r.Err? && pos < |ts| ==> r.error == Expected(kind, ts[pos].value)
    ensures pos >= |ts| ==> r == Err(IndexOutOfRange)
    ensures kind != EndOfFileToken ==> StaysOnList(ts, pos, r)
  {
    var current :- CurrentAt(ts, pos);
    if current.kind == kind then Ok((current, pos + 1))
    else Err(Expected(kind, current.value))
  }

  /** ParseSimpleName: one identifier token. */
  function SimpleNameAt(ts: seq<Token>, pos: nat): (r: Result<(NameSyntax, nat)>)
    ensures r.Ok? ==> pos < |ts| && r.value.1 == pos + 1 && r.value.0 == IdentifierNameSyntax(ts[pos].value)
    ensures StaysOnList(ts, pos, r)
  {
    var id :- MatchAt(ts, pos, IdentifierToken);
    Ok((IdentifierNameSyntax(id.0.value), id.1))
  }

  /** The loop of ParseQualifiedName: while the current token is a dot, read
      a dot and an identifier and nest what was read so far to the left. */
  function DottedTailAt(ts: seq<Token>, pos: nat, left: NameSyntax): (r: Result<(NameSyntax, nat)>)
    ensures r.Ok? ==> pos <= r.value.1
    ensures StaysOnList(ts, pos, r)
    decreases |ts| - pos
  {
    var current :- CurrentAt(ts, pos);
    if current.kind != DotToken then Ok((left, pos))
    else
      // the dot is consumed; matching it cannot fail
      var right :- SimpleNameAt(ts, pos + 1);
      DottedTailAt(ts, right.1, QualifiedNameSyntax(left, right.0.identifier))
  }

  /** ParseQualifiedName: an identifier followed by any number of
      dot-identifier pairs. */
  function QualifiedNameAt(ts: seq<Token>, pos: nat): (r: Result<(NameSyntax, nat)>)
    ensures r.Ok? ==> pos < r.value.1
    ensures StaysOnList(ts, pos, r)
  {
    var left :- SimpleNameAt(ts, pos);
    DottedTailAt(ts, left.1, left.0)
  }

  /** ParseUsingDirective: `using` Name `;`. */
  function UsingAt(ts: seq<Token>, pos: nat): (r: Result<(UsingDirectiveSyntax, nat)>)
    ensures r.Ok? ==> pos + 3 <= r.value.1
    ensures StaysOnList(ts, pos, r)
  {
    var keyword :- MatchAt(ts, pos, UsingKeyword);
    var name :- QualifiedNameAt(ts, keyword.1);
    var semicolon :- MatchAt(ts, name.1, SemicolonToken);
    Ok((UsingDirective(keyword.0, name.0, semicolon.0), semicolon.1))
  }

  /** The first loop of ParseCompilationUnit: using directives while the
      current token is `using`. */
  function UsingsAt(ts: seq<Token>, pos: nat): (r: Result<(seq<UsingDirectiveSyntax>, nat)>)
    ensures r.Ok? ==> pos <= r.value.1 < |ts| && ts[r.value.1].kind != UsingKeyword
    ensures StaysOnList(ts, pos, r)
    decreases |ts| - pos
  {
    var current :- CurrentAt(ts, pos);
    if current.kind != UsingKeyword then Ok(([], pos))
    else
      var directive :- UsingAt(ts, pos);
      var rest :- UsingsAt(ts, directive.1);
      Ok(([directive.0] + rest.0, rest.1))
  }

  /** The loop of ParseModifiers: the cursor after the run of modifier
      keywords that starts at `pos`. */
  function ModifiersEndAt(ts: seq<Token>, pos: nat): (r: Result<nat>)
    ensures r.Ok? ==> pos <= r.value < |ts| && !IsModifier(ts[r.value].kind)
    ensures r.Ok? ==> forall k :: pos <= k < r.value ==> IsModifier(ts[k].kind)
    ensures r.Err? ==> r.error == IndexOutOfRange && forall k :: pos <= k < |ts| ==> IsModifier(ts[k].kind)
    decreases |ts| - pos
  {
    var current :- CurrentAt(ts, pos);
    if IsModifier(current.kind) then ModifiersEndAt(ts, pos + 1) else Ok(pos)
  }

  /** ParseClassDeclaration: `class` IDENT `{` `}` `;`, with the modifiers
      read before it. */
  function ClassAt(ts: seq<Token>, pos: nat, modifiers: seq<Token>): (r: Result<(ClassDeclarationSyntax, nat)>)
    ensures r.Ok? ==> r.value.1 == pos + 5 && r.value.0.modifiers == modifiers
  {
    // each match that succeeds moves the cursor one token on
    var keyword :- MatchAt(ts, pos, ClassKeyword);
    var name :- MatchAt(ts, pos + 1, IdentifierToken);
    // a `<` here is looked at and ignored
    var openBrace :- MatchAt(ts, pos + 2, OpenBraceToken);
    var closeBrace :- MatchAt(ts, pos + 3, CloseBraceToken);
    var semicolon :- MatchAt(ts, pos + 4, SemicolonToken);
    Ok((ClassDeclarationSyntax(modifiers, keyword.0, name.0, openBrace.0, closeBrace.0, semicolon.0), pos + 5))
  }

  /** The only member the parser accepts, kind by kind. */
  function ClassShape(j: nat): SyntaxKind {
    if j == 0 then ClassKeyword
    else if j == 1 then IdentifierToken
    else if j == 2 then OpenBraceToken
    else if j == 3 then CloseBraceToken
    else SemicolonToken
  }

  /** How many tokens from `pos` follow the class shape, given that the
      first `k` do. */
  function ShapeMatched(ts: seq<Token>, pos: nat, k: nat): (n: nat)
    requires k <= 5 && pos + k <= |ts|
    requires forall j :: 0 <= j < k ==> ts[pos + j].kind == ClassShape(j)
    ensures k <= n <= 5 && pos + n <= |ts|
    ensures forall j :: 0 <= j < n ==> ts[pos + j].kind == ClassShape(j)
    ensures n < 5 ==> pos + n == |ts| || ts[pos + n].kind != ClassShape(n)
    decreases 5 - k
  {
    if k < 5 && pos + k < |ts| && ts[pos + k].kind == ClassShape(k) then ShapeMatched(ts, pos, k + 1) else k
  }

  /** The five tokens of the class shape make an accepted class declaration
      that holds them. */
  lemma ClassAccepted(ts: seq<Token>, pos: nat, modifiers: seq<Token>)
    requires pos + 5 <= |ts| && forall j :: 0 <= j < 5 ==> ts[pos + j].kind == ClassShape(j)
    ensures ClassAt(ts, pos, modifiers)
         == Ok((ClassDeclarationSyntax(modifiers, ts[pos], ts[pos + 1], ts[pos + 2], ts[pos + 3], ts[pos + 4]), pos + 5))
  {
    assert ts[pos].kind == ClassShape(0);
    assert ts[pos + 1].kind == ClassShape(1);
    assert ts[pos + 2].kind == ClassShape(2);
    assert ts[pos + 3].kind == ClassShape(3);
    assert ts[pos + 4].kind == ClassShape(4);
  }

  /** Only the class shape is accepted. */
  lemma ClassAcceptedOnlyIf(ts: seq<Token>, pos: nat, modifiers: seq<Token>)
    requires ClassAt(ts, pos, modifiers).Ok?
    ensures pos + 5 <= |ts| && forall j :: 0 <= j < 5 ==> ts[pos + j].kind == ClassShape(j)
  {
    // every one of the five matches succeeded, since the first to fail decides the error
    ClassAtFails(ts, pos, modifiers);
    assert MatchAt(ts, pos, ClassKeyword).Ok? && MatchAt(ts, pos + 1, IdentifierToken).Ok?;
    assert MatchAt(ts, pos + 2, OpenBraceToken).Ok? && MatchAt(ts, pos + 3, CloseBraceToken).Ok?;
    assert MatchAt(ts, pos + 4, SemicolonToken).Ok?;
    forall j | 0 <= j < 5
      ensures ts[pos + j].kind == ClassShape(j)
    {
      if j == 0 { } else if j == 1 { } else if j == 2 { } else if j == 3 { } else { }
    }
  }

  /** A class declaration fails at its first token of the wrong kind, with
      the message naming the expected kind and the text found, or with the
      indexer's exception when the list ends first. So a `<` after the name
      fails where `{` is expected, a member fails where `}` is expected, and a
      missing `;` fails at whatever follows `}`. */
  lemma ClassFailsAtFirstMismatch(ts: seq<Token>, pos: nat, modifiers: seq<Token>, k: nat)
    requires k < 5 && pos + k <= |ts|
    requires forall j :: 0 <= j < k ==> ts[pos + j].kind == ClassShape(j)
    requires pos + k < |ts| ==> ts[pos + k].kind != ClassShape(k)
    ensures ClassAt(ts, pos, modifiers)
         == Err(if pos + k < |ts| then Expected(ClassShape(k), ts[pos + k].value) else IndexOutOfRange)
  {
    var e := if pos + k < |ts| then Expected(ClassShape(k), ts[pos + k].value) else IndexOutOfRange;
    assert MatchAt(ts, pos + k, ClassShape(k)) == Err(e);
    ClassAtFails(ts, pos, modifiers);
    // one case per place of the mismatch; the tokens before it match
    if k == 0 {
    } else if k == 1 {
      assert ts[pos + 0].kind == ClassShape(0);
    } else if k == 2 {
      assert ts[pos + 0].kind == ClassShape(0) && ts[pos + 1].kind == ClassShape(1);
    } else if k == 3 {
      assert ts[pos + 0].kind == ClassShape(0) && ts[pos + 1].kind == ClassShape(1);
      assert ts[pos + 2].kind == ClassShape(2);
    } else {
      assert ts[pos + 0].kind == ClassShape(0) && ts[pos + 1].kind == ClassShape(1);
      assert ts[pos + 2].kind == ClassShape(2) && ts[pos + 3].kind == ClassShape(3);
    }
  }

  /** A class declaration fails with the error of its first match that fails. */
  lemma ClassAtFails(ts: seq<Token>, pos: nat, modifiers: seq<Token>)
    ensures MatchAt(ts, pos, ClassKeyword).Err? ==> ClassAt(ts, pos, modifiers) == Err(MatchAt(ts, pos, ClassKeyword).error)
    ensures (MatchAt(ts, pos, ClassKeyword).Ok? && MatchAt(ts, pos + 1, IdentifierToken).Err?) ==>
      ClassAt(ts, pos, modifiers) == Err(MatchAt(ts, pos + 1, IdentifierToken).error)
    ensures (MatchAt(ts, pos, ClassKeyword).Ok? && MatchAt(ts, pos + 1, IdentifierToken).Ok? &&
             MatchAt(ts, pos + 2, OpenBraceToken).Err?) ==>
      ClassAt(ts, pos, modifiers) == Err(MatchAt(ts, pos + 2, OpenBraceToken).error)
    ensures (MatchAt(ts, pos, ClassKeyword).Ok? && MatchAt(ts, pos + 1, IdentifierToken).Ok? &&
             MatchAt(ts, pos + 2, OpenBraceToken).Ok? && MatchAt(ts, pos + 3, CloseBraceToken).Err?) ==>
      ClassAt(ts, pos, modifiers) == Err(MatchAt(ts, pos + 3, CloseBraceToken).error)
    ensures (MatchAt(ts, pos, ClassKeyword).Ok? && MatchAt(ts, pos + 1, IdentifierToken).Ok? &&
             MatchAt(ts, pos + 2, OpenBraceToken).Ok? && MatchAt(ts, pos + 3, CloseBraceToken).Ok? &&
             MatchAt(ts, pos + 4, SemicolonToken).Err?) ==>
      ClassAt(ts, pos, modifiers) == Err(MatchAt(ts, pos + 4, SemicolonToken).error)
  {
  }

  /** A class declaration read from below the final end-of-file token stays
      on the list. */
  lemma ClassStaysOnList(ts: seq<Token>, pos: nat, modifiers: seq<Token>)
    ensures StaysOnList(ts, pos, ClassAt(ts, pos, modifiers))
  {
    if EndsWithEof(ts) && pos < |ts| {
      var k := ShapeMatched(ts, pos, 0);
      if 0 < k {
        // the last matched token is not the end-of-file token
        assert ts[pos + k - 1].kind == ClassShape(k - 1) != EndOfFileToken;
      }
      if k < 5 {
        ClassFailsAtFirstMismatch(ts, pos, modifiers, k);
      } else {
        ClassAccepted(ts, pos, modifiers);
      }
    }
  }

  /** ParseMemberDeclaration as written: the run of modifiers is stepped
      over, then a class declaration is read carrying the list
      ParseModifiers returns, which is always empty. */
  function MemberAt(ts: seq<Token>, pos: nat): (r: Result<(ClassDeclarationSyntax, nat)>)
    ensures r.Ok? ==> pos + 5 <= r.value.1 <= |ts|
    ensures r.Ok? ==> r.value.0.modifiers == [] && forall k :: pos <= k < r.value.1 - 5 ==> IsModifier(ts[k].kind)
    ensures StaysOnList(ts, pos, r)
  {
    var end :- ModifiersEndAt(ts, pos);
    ClassStaysOnList(ts, end, []);
    ClassAt(ts, end, [])
  }

  /** ParseMemberDeclaration as evidently intended: the class declaration
      carries the modifier tokens that were read. */
  function MemberAtKept(ts: seq<Token>, pos: nat): (r: Result<(ClassDeclarationSyntax, nat)>)
    ensures r.Ok? ==> pos + 5 <= r.value.1 <= |ts|
    ensures r.Ok? ==> r.value.0.modifiers == ts[pos..r.value.1 - 5] && forall t <- r.value.0.modifiers :: IsModifier(t.kind)
    ensures StaysOnList(ts, pos, r)
  {
    var end :- ModifiersEndAt(ts, pos);
    ClassStaysOnList(ts, end, ts[pos..end]);
    ClassAt(ts, end, ts[pos..end])
  }

  /** A corrected member that parses is the class declaration read after its
      run of modifiers, carrying that run. */
  lemma MemberIsClass(ts: seq<Token>, pos: nat)
    requires MemberAtKept(ts, pos).Ok?
    ensures ModifiersEndAt(ts, pos).Ok?
    ensures var e := ModifiersEndAt(ts, pos).value;
      && pos <= e < |ts| && ts[e].kind == ClassKeyword
      && MemberAtKept(ts, pos) == ClassAt(ts, e, ts[pos..e])
  {
  }

  /** The second loop of ParseCompilationUnit: members until the current
      token is the end-of-file token. */
  function MembersAt(ts: seq<Token>, pos: nat): (r: Result<(seq<ClassDeclarationSyntax>, nat)>)
    ensures r.Ok? ==> pos <= r.value.1 < |ts| && ts[r.value.1].kind == EndOfFileToken
    ensures StaysOnList(ts, pos, r)
    decreases |ts| - pos
  {
    var current :- CurrentAt(ts, pos);
    if current.kind == EndOfFileToken then Ok(([], pos))
    else
      var member :- MemberAt(ts, pos);
      var rest :- MembersAt(ts, member.1);
      Ok(([member.0] + rest.0, rest.1))
  }

  /** ParseCompilationUnit: every leading using directive, then members up
      to the end-of-file token. */
  function CompilationUnitAt(ts: seq<Token>, pos: nat): (r: Result<(CompilationUnitSyntax, nat)>)
    ensures r.Ok? ==> pos <= r.value.1 < |ts| && ts[r.value.1].kind == EndOfFileToken
    ensures StaysOnList(ts, pos, r)
  {
    var usings :- UsingsAt(ts, pos);
    var members :- MembersAt(ts, usings.1);
    Ok((CompilationUnit(usings.0, members.0), members.1))
  }

  /** How a method's result and final cursor relate to the function that
      specifies it: the same node and cursor, or the same exception. */
  predicate Agrees<T(==)>(r: Result<T>, spec: Result<(T, nat)>, position: nat) {
    match spec
    case Ok((node, end)) => r == Ok(node) && position == end
    case Err(e) => r == Err(e)
  }

  // ---------------------------------------------------------------------
  // The parser object

  class Parser {
    const tokens: seq<Token>
    var position: nat

    /** The lexer's output ends with its end-of-file token and the cursor is
        on the list. */
    predicate Valid()
      reads this
    {
      EndsWithEof(tokens) && position < |tokens|
    }

    constructor(tokens: seq<Token>)
      ensures this.tokens == tokens && position == 0
      ensures EndsWithEof(tokens) ==> Valid()
    {
      this.tokens := tokens;
      position := 0;
    }

    /** The token under the cursor; past the end of the list it throws. */
    function Current(): (r: Result<Token>)
      reads this
      ensures Valid() ==> r.Ok?
      ensures r.Ok? ==> position < |tokens| && r.value == tokens[position]
      ensures r.Err? ==> position >= |tokens| && r.error == IndexOutOfRange
    {
      CurrentAt(tokens, position)
    }

    function IsAtEnd(): (r: Result<bool>)
      reads this
      ensures Valid() ==> r.Ok?
      ensures r.Ok? ==> position < |tokens| && (r.value <==> tokens[position].kind == EndOfFileToken)
    {
      var current :- Current();
      Ok(current.kind == EndOfFileToken)
    }

    /** Consumes the current token when it has kind `kind`; otherwise throws
        and leaves the cursor where it was. */
    method MatchToken(kind: SyntaxKind) returns (r: Result<Token>)
      modifies this
      ensures Agrees(r, MatchAt(tokens, old(position), kind), position)
      ensures r.Ok? ==> r.value == tokens[old(position)] && r.value.kind == kind && position == old(position) + 1
      ensures r.Err? ==> position == old(position)
    {
      var current :- Current();
      if current.kind == kind {
        var token := current;
        position := position + 1;
        return Ok(token);
      }
      return Err(Expected(kind, current.value));
    }

    method ParseSimpleName() returns (r: Result<NameSyntax>)
      modifies this
      ensures Agrees(r, SimpleNameAt(tokens, old(position)), position)
    {
      var identifier :- MatchToken(IdentifierToken);
      return Ok(IdentifierNameSyntax(identifier.value));
    }

    method ParseQualifiedName() returns (r: Result<NameSyntax>)
      modifies this
      ensures Agrees(r, QualifiedNameAt(tokens, old(position)), position)
    {
      var left :- ParseSimpleName();
      DottedTailTurn(tokens, position, left);
      var current :- Current();
      if current.kind != DotToken {
        return Ok(left);
      }
      var dot := MatchToken(DotToken);
      var right :- ParseSimpleName();
      var result := QualifiedNameSyntax(left, right.identifier);
      r := ParseDottedTail(result);
    }

    /** The `while` loop of ParseQualifiedName: dot-identifier pairs, each
        nesting the name read so far to the left. */
    method ParseDottedTail(left: NameSyntax) returns (r: Result<NameSyntax>)
      modifies this
      ensures Agrees(r, DottedTailAt(tokens, old(position), left), position)
    {
      ghost var start := position;
      var result := left;
      while true
        invariant DottedTailAt(tokens, start, left) == DottedTailAt(tokens, position, result)
        decreases |tokens| - position
      {
        DottedTailTurn(tokens, position, result);
        var current :- Current();
        if current.kind != DotToken {
          break;
        }
        var dot := MatchToken(DotToken);
        var right :- ParseSimpleName();
        result := QualifiedNameSyntax(result, right.identifier);
      }
      return Ok(result);
    }

    method ParseUsingDirective() returns (r: Result<UsingDirectiveSyntax>)
      modifies this
      ensures Agrees(r, UsingAt(tokens, old(position)), position)
    {
      var usingKeyword :- MatchToken(UsingKeyword);
      var name :- ParseQualifiedName();
      var semicolon :- MatchToken(SemicolonToken);
      return Ok(UsingDirective(usingKeyword, name, semicolon));
    }

    /** ParseModifiers as written: it steps over the run of modifier keywords
        but returns an empty list, since the list's `Add` returns a new list
        that is dropped. */
    method ParseModifiers() returns (r: Result<seq<Token>>)
      modifies this
      ensures Agrees(r, (var end :- ModifiersEndAt(tokens, old(position)); Ok(([], end))), position)
    {
      ghost var start := position;
      var modifiers: seq<Token> := [];
      ModifiersTurn(tokens, position);
      var current :- Current();
      while IsModifier(current.kind)
        invariant start <= position < |tokens| && current == tokens[position]
        invariant ModifiersEndAt(tokens, start) == ModifiersEndAt(tokens, position)
        invariant modifiers == []
        decreases |tokens| - position
      {
        var discarded := modifiers + [current];
        position := position + 1;
        ModifiersTurn(tokens, position);
        current :- Current();
      }
      return Ok(modifiers);
    }

    /** ParseModifiers as evidently intended: the tokens of the run, in order. */
    method ParseModifiersKept() returns (r: Result<seq<Token>>)
      modifies this
      ensures Agrees(r, (var end :- ModifiersEndAt(tokens, old(position)); Ok((tokens[old(position)..end], end))), position)
    {
      ghost var start := position;
      var modifiers: seq<Token> := [];
      ModifiersTurn(tokens, position);
      var current :- Current();
      while IsModifier(current.kind)
        invariant start <= position < |tokens| && current == tokens[position]
        invariant ModifiersEndAt(tokens, start) == ModifiersEndAt(tokens, position)
        invariant modifiers == tokens[start..position]
        decreases |tokens| - position
      {
        assert tokens[start..position + 1] == tokens[start..position] + [current];
        modifiers := modifiers + [current];
        position := position + 1;
        ModifiersTurn(tokens, position);
        current :- Current();
      }
      return Ok(modifiers);
    }

    method ParseClassDeclaration(modifiers: seq<Token>) returns (r: Result<ClassDeclarationSyntax>)
      modifies this
      ensures Agrees(r, ClassAt(tokens, old(position), modifiers), position)
    {
      var keyword :- MatchToken(ClassKeyword);
      var name :- MatchToken(IdentifierToken);
      var current :- Current();
      if current.kind == LessThanToken {
        // type parameter lists are not parsed
      }
      var openBrace :- MatchToken(OpenBraceToken);
      var closeBrace :- MatchToken(CloseBraceToken);
      var semicolon :- MatchToken(SemicolonToken);
      return Ok(ClassDeclarationSyntax(modifiers, keyword, name, openBrace, closeBrace, semicolon));
    }

    method ParseMemberDeclaration() returns (r: Result<ClassDeclarationSyntax>)
      modifies this
      ensures Agrees(r, MemberAt(tokens, old(position)), position)
    {
      var modifiers :- ParseModifiers();
      r := ParseClassDeclaration(modifiers);
    }

    /** ParseMemberDeclaration as evidently intended, over ParseModifiersKept. */
    method ParseMemberDeclarationKept() returns (r: Result<ClassDeclarationSyntax>)
      modifies this
      ensures Agrees(r, MemberAtKept(tokens, old(position)), position)
    {
      var modifiers :- ParseModifiersKept();
      r := ParseClassDeclaration(modifiers);
    }

    method ParseCompilationUnit() returns (r: Result<CompilationUnitSyntax>)
      modifies this
      ensures Agrees(r, CompilationUnitAt(tokens, old(position)), position)
      ensures old(Valid()) && r.Ok? ==> Valid() && tokens[position].kind == EndOfFileToken
    {
      var usings :- ParseUsingDirectives();
      var members :- ParseMemberDeclarations();
      return Ok(CompilationUnit(usings, members));
    }

    /** The first loop of ParseCompilationUnit. */
    method ParseUsingDirectives() returns (r: Result<seq<UsingDirectiveSyntax>>)
      modifies this
      ensures Agrees(r, UsingsAt(tokens, old(position)), position)
    {
      ghost var start := position;
      var usings: seq<UsingDirectiveSyntax> := [];
      var current :- Current();
      while current.kind == UsingKeyword
        invariant position < |tokens| && current == tokens[position]
        invariant UsingsAt(tokens, start) == Prepend(usings, UsingsAt(tokens, position))
        decreases |tokens| - position
      {
        UsingsTurn(tokens, position, usings);
        var directive :- ParseUsingDirective();
        usings := usings + [directive];
        current :- Current();
      }
      UsingsEnd(tokens, position, usings);
      return Ok(usings);
    }

    /** The second loop of ParseCompilationUnit. */
    method ParseMemberDeclarations() returns (r: Result<seq<ClassDeclarationSyntax>>)
      modifies this
      ensures Agrees(r, MembersAt(tokens, old(position)), position)
    {
      ghost var start := position;
      var members: seq<ClassDeclarationSyntax> := [];
      var atEnd :- IsAtEnd();
      while !atEnd
        invariant position < |tokens| && (atEnd <==> tokens[position].kind == EndOfFileToken)
        invariant MembersAt(tokens, start) == Prepend(members, MembersAt(tokens, position))
        decreases |tokens| - position
      {
        MembersTurn(tokens, position, members);
        var member :- ParseMemberDeclaration();
        members := members + [member];
        atEnd :- IsAtEnd();
      }
      MembersEnd(tokens, position, members);
      return Ok(members);
    }

    /** Parser.Parse: the compilation unit from the start of the list (the
        Roslyn syntax-tree wrapper is not modelled). */
    method Parse() returns (r: Result<CompilationUnitSyntax>)
      modifies this
      ensures Agrees(r, CompilationUnitAt(tokens, old(position)), position)
    {
      r := ParseCompilationUnit();
    }
  }

  /** The nodes read so far in front of what the rest of a loop reads. */
  function Prepend<T>(done: seq<T>, rest: Result<(seq<T>, nat)>): (r: Result<(seq<T>, nat)>)
    ensures done == [] ==> r == rest
  {
    match rest
    case Ok((more, end)) =>
      assert done == [] ==> done + more == more;
      Ok((done + more, end))
    case Err(e) => Err(e)
  }

  /** Prepending in two steps is prepending once. */
  lemma PrependTwice<T>(a: seq<T>, b: seq<T>, rest: Result<(seq<T>, nat)>)
    ensures Prepend(a, Prepend(b, rest)) == Prepend(a + b, rest)
  {
    if rest.Ok? {
      assert a + (b + rest.value.0) == (a + b) + rest.value.0;
    }
  }

  /** One turn of the dot loop: the list ends, the name ends, or a dot and
      a simple name follow. */
  lemma DottedTailTurn(ts: seq<Token>, pos: nat, left: NameSyntax)
    ensures pos >= |ts| ==> DottedTailAt(ts, pos, left) == Err(IndexOutOfRange)
    ensures pos < |ts| && ts[pos].kind != DotToken ==> DottedTailAt(ts, pos, left) == Ok((left, pos))
    ensures pos < |ts| && ts[pos].kind == DotToken && SimpleNameAt(ts, pos + 1).Err? ==>
      DottedTailAt(ts, pos, left) == Err(SimpleNameAt(ts, pos + 1).error)
    ensures pos < |ts| && ts[pos].kind == DotToken && SimpleNameAt(ts, pos + 1).Ok? ==>
      DottedTailAt(ts, pos, left) == DottedTailAt(ts, pos + 2, QualifiedNameSyntax(left, SimpleNameAt(ts, pos + 1).value.0.identifier))
  {
  }

  /** One turn of the modifier loop: the list ends, the run ends, or the
      run goes on one token later. */
  lemma ModifiersTurn(ts: seq<Token>, pos: nat)
    ensures pos >= |ts| ==> ModifiersEndAt(ts, pos) == Err(IndexOutOfRange)
    ensures pos < |ts| && !IsModifier(ts[pos].kind) ==> ModifiersEndAt(ts, pos) == Ok(pos)
    ensures pos < |ts| && IsModifier(ts[pos].kind) ==> ModifiersEndAt(ts, pos) == ModifiersEndAt(ts, pos + 1)
  {
  }

  /** One turn of the using loop, after the directives `done`. */
  lemma UsingsTurn(ts: seq<Token>, pos: nat, done: seq<UsingDirectiveSyntax>)
    requires pos < |ts| && ts[pos].kind == UsingKeyword
    ensures UsingAt(ts, pos).Err? ==> Prepend(done, UsingsAt(ts, pos)) == Err(UsingAt(ts, pos).error)
    ensures UsingAt(ts, pos).Ok? ==>
      Prepend(done, UsingsAt(ts, pos)) == Prepend(done + [UsingAt(ts, pos).value.0], UsingsAt(ts, UsingAt(ts, pos).value.1))
  {
    if UsingAt(ts, pos).Ok? {
      PrependTwice(done, [UsingAt(ts, pos).value.0], UsingsAt(ts, UsingAt(ts, pos).value.1));
    }
  }

  /** The using loop stops at a token that is not `using`. */
  lemma UsingsEnd(ts: seq<Token>, pos: nat, done: seq<UsingDirectiveSyntax>)
    requires pos < |ts| && ts[pos].kind != UsingKeyword
    ensures Prepend(done, UsingsAt(ts, pos)) == Ok((done, pos))
  {
    assert done + [] == done;
  }

  /** The member loop stops at the end-of-file token. */
  lemma MembersEnd(ts: seq<Token>, pos: nat, done: seq<ClassDeclarationSyntax>)
    requires pos < |ts| && ts[pos].kind == EndOfFileToken
    ensures Prepend(done, MembersAt(ts, pos)) == Ok((done, pos))
  {
    assert done + [] == done;
  }

  /** One turn of the member loop, after the members `done`. */
  lemma MembersTurn(ts: seq<Token>, pos: nat, done: seq<ClassDeclarationSyntax>)
    requires pos < |ts| && ts[pos].kind != EndOfFileToken
    ensures MemberAt(ts, pos).Err? ==> Prepend(done, MembersAt(ts, pos)) == Err(MemberAt(ts, pos).error)
    ensures MemberAt(ts, pos).Ok? ==>
      Prepend(done, MembersAt(ts, pos)) == Prepend(done + [MemberAt(ts, pos).value.0], MembersAt(ts, MemberAt(ts, pos).value.1))
  {
    if MemberAt(ts, pos).Ok? {
      PrependTwice(done, [MemberAt(ts, pos).value.0], MembersAt(ts, MemberAt(ts, pos).value.1));
    }
  }
}

/** Properties of the parsing functions: names round-trip through their
    tokens, the only accepted member shape, and the lost modifiers. */
module ParserProperties {
  import opened Common
  import opened Parser

  /** The identifiers of a name, left to right. */
  function Idents(n: NameSyntax): (ids: seq<string>)
    ensures |ids| > 0
  {
    match n
    case IdentifierNameSyntax(x) => [x]
    case QualifiedNameSyntax(l, r) => Idents(l) + [r]
  }

  /** The name the parser builds from identifiers `ids`: nested to the left. */
  function NameOf(ids: seq<string>): NameSyntax
    requires |ids| > 0
    decreases |ids|
  {
    if |ids| == 1 then IdentifierNameSyntax(ids[0])
    else QualifiedNameSyntax(NameOf(ids[..|ids| - 1]), ids[|ids| - 1])
  }

  lemma {:induction false} NameOfIdents(n: NameSyntax)
    ensures NameOf(Idents(n)) == n
  {
    match n
    case IdentifierNameSyntax(_) =>
    case QualifiedNameSyntax(l, r) =>
      NameOfIdents(l);
      assert Idents(n)[..|Idents(n)| - 1] == Idents(l);
  }

  /** `.x1 .x2 ...` as tokens. */
  function DottedTokens(ids: seq<string>): seq<Token> {
    if ids == [] then [] else [Token(DotToken, "."), Token(IdentifierToken, ids[0])] + DottedTokens(ids[1..])
  }

  /** The tokens of a name as the lexer produces them. */
  function NameTokens(n: NameSyntax): seq<Token> {
    var ids := Idents(n);
    [Token(IdentifierToken, ids[0])] + DottedTokens(ids[1..])
  }

  lemma {:induction false} DottedTokensLength(ids: seq<string>)
    ensures |DottedTokens(ids)| == 2 * |ids|
    decreases |ids|
  {
    if ids != [] {
      DottedTokensLength(ids[1..]);
    }
  }

  /** One turn of the dot loop: a dot and an identifier extend the name. */
  lemma DottedTailStep(ts: seq<Token>, pos: nat, left: NameSyntax)
    requires pos + 1 < |ts| && ts[pos].kind == DotToken && ts[pos + 1].kind == IdentifierToken
    ensures DottedTailAt(ts, pos, left) == DottedTailAt(ts, pos + 2, QualifiedNameSyntax(left, ts[pos + 1].value))
  {
  }

  /** The dot loop stops at a token that is not a dot. */
  lemma DottedTailStop(ts: seq<Token>, pos: nat, left: NameSyntax)
    requires pos < |ts| && ts[pos].kind != DotToken
    ensures DottedTailAt(ts, pos, left) == Ok((left, pos))
  {
  }

  /** From `pos` on, the tokens are the dot-identifier pairs of `more`,
      then `rest`, which does not start with a dot. */
  predicate LaidOut(ts: seq<Token>, pos: nat, more: seq<string>, rest: seq<Token>) {
    var ok := pos <= |ts| && ts[pos..] == DottedTokens(more) + rest && |rest| > 0 && rest[0].kind != DotToken;
    ok
  }

  /** The dot loop reads every dot-identifier pair and nests each to the left. */
  lemma {:induction false} DottedTailReads(ts: seq<Token>, pos: nat, done: seq<string>, more: seq<string>, rest: seq<Token>)
    requires |done| > 0 && LaidOut(ts, pos, more, rest)
    ensures DottedTailAt(ts, pos, NameOf(done)) == Ok((NameOf(done + more), pos + 2 * |more|))
    decreases |more|
  {
    if more == [] {
      DottedTailEnd(ts, pos, done, rest);
      assert done + more == done;
    } else {
      var next := done + [more[0]];
      calc {
        DottedTailAt(ts, pos, NameOf(done));
        { DottedTailNext(ts, pos, done, more, rest); }
        DottedTailAt(ts, pos + 2, NameOf(next));
        { DottedTailReads(ts, pos + 2, next, more[1..], rest); }
        Ok((NameOf(next + more[1..]), pos + 2 + 2 * |more[1..]|));
        { MoveHead(done, more); }
        Ok((NameOf(done + more), pos + 2 * |more|));
      }
    }
  }

  lemma MoveHead(done: seq<string>, more: seq<string>)
    requires more != []
    ensures NameOf((done + [more[0]]) + more[1..]) == NameOf(done + more)
  {
    assert (done + [more[0]]) + more[1..] == done + more;
  }

  /** No pair left: the loop stops where it is. */
  lemma DottedTailEnd(ts: seq<Token>, pos: nat, done: seq<string>, rest: seq<Token>)
    requires |done| > 0 && LaidOut(ts, pos, [], rest)
    ensures DottedTailAt(ts, pos, NameOf(done)) == Ok((NameOf(done), pos))
  {
    assert DottedTokens([]) + rest == rest;
    DropDrop(ts, pos, 1);
    DottedTailStop(ts, pos, NameOf(done));
  }

  /** The first pair moves the loop two tokens on with one more name. */
  lemma DottedTailNext(ts: seq<Token>, pos: nat, done: seq<string>, more: seq<string>, rest: seq<Token>)
    requires |done| > 0 && more != [] && LaidOut(ts, pos, more, rest)
    ensures LaidOut(ts, pos + 2, more[1..], rest)
    ensures DottedTailAt(ts, pos, NameOf(done)) == DottedTailAt(ts, pos + 2, NameOf(done + [more[0]]))
  {
    DottedTokensSplit(ts, pos, more, rest);
    NameOfSnoc(done, more[0]);
    DottedTailStep(ts, pos, NameOf(done));
  }

  lemma DottedTokensSplit(ts: seq<Token>, pos: nat, more: seq<string>, rest: seq<Token>)
    requires more != [] && pos <= |ts| && ts[pos..] == DottedTokens(more) + rest
    ensures pos + 2 <= |ts| && ts[pos] == Token(DotToken, ".") && ts[pos + 1] == Token(IdentifierToken, more[0])
    ensures ts[pos + 2..] == DottedTokens(more[1..]) + rest
  {
    var pairs := DottedTokens(more);
    assert pairs[2..] == DottedTokens(more[1..]);
    DropAppend(ts[pos..], pairs, rest, 2);
    DropDrop(ts, pos, 2);
  }

  /** Dropping from a concatenation drops from its first part. */
  lemma DropAppend<T>(s: seq<T>, a: seq<T>, b: seq<T>, n: nat)
    requires s == a + b && n <= |a|
    ensures s[n..] == a[n..] + b
    ensures forall k :: 0 <= k < n ==> s[k] == a[k]
  {
    assert s[n..] == a[n..] + b;
  }

  /** Dropping twice is dropping once. */
  lemma DropDrop<T>(s: seq<T>, m: nat, n: nat)
    requires m + n <= |s|
    ensures s[m..][n..] == s[m + n..]
    ensures forall k :: 0 <= k < n ==> s[m..][k] == s[m + k]
  {
  }

  /** One more identifier nests the name built so far to the left. */
  lemma NameOfSnoc(done: seq<string>, x: string)
    requires |done| > 0
    ensures NameOf(done + [x]) == QualifiedNameSyntax(NameOf(done), x)
  {
    assert (done + [x])[..|done|] == done;
  }

  /** Parsing a name's tokens gives back the name, whatever follows that is
      not a dot. */
  lemma QualifiedNameRoundTrip(n: NameSyntax, rest: seq<Token>)
    requires |rest| > 0 && rest[0].kind != DotToken
    ensures QualifiedNameAt(NameTokens(n) + rest, 0) == Ok((n, |NameTokens(n)|))
  {
    var ts := NameTokens(n) + rest;
    assert ts[0..] == ts;
    ShiftedName(ts, 0, n, rest);
  }

  /** A token with the text of a dot forgotten: the parser never reads
      what a dot token spells, only its kind. */
  function Spelled(t: Token): Token {
    if t.kind == DotToken then Token(DotToken, ".") else t
  }

  function SpelledAll(ts: seq<Token>): (r: seq<Token>)
    ensures |r| == |ts| && forall k :: 0 <= k < |ts| ==> r[k] == Spelled(ts[k])
  {
    seq(|ts|, k requires 0 <= k < |ts| => Spelled(ts[k]))
  }

  /** The other direction of the round trip: a name the parser accepts
      was read from exactly its own tokens, up to the text of the dots,
      and the token after it is not a dot. */
  lemma QualifiedNameReadBack(ts: seq<Token>, pos: nat)
    requires QualifiedNameAt(ts, pos).Ok?
    ensures var (n, end) := QualifiedNameAt(ts, pos).value;
      && end == pos + |NameTokens(n)| && end < |ts|
      && SpelledAll(ts[pos..end]) == NameTokens(n)
      && ts[end].kind != DotToken
  {
    var left := IdentifierNameSyntax(ts[pos].value);
    var (n, end) := QualifiedNameAt(ts, pos).value;
    DottedTailPrints(ts, pos + 1, left);
    var ids := Idents(n);
    DottedTokensLength(ids[1..]);
    assert ts[pos..end] == [ts[pos]] + ts[pos + 1..end];
    assert SpelledAll(ts[pos..end]) == [Token(IdentifierToken, ids[0])] + SpelledAll(ts[pos + 1..end]);
  }

  /** What the dot loop consumed, printed: the pairs of the identifiers it
      added to `left`. */
  lemma {:induction false} DottedTailPrints(ts: seq<Token>, pos: nat, left: NameSyntax)
    requires DottedTailAt(ts, pos, left).Ok?
    ensures var (n, end) := DottedTailAt(ts, pos, left).value;
      && |Idents(left)| <= |Idents(n)| && Idents(n)[..|Idents(left)|] == Idents(left)
      && end < |ts| && ts[end].kind != DotToken
      && SpelledAll(ts[pos..end]) == DottedTokens(Idents(n)[|Idents(left)|..])
    decreases |ts| - pos
  {
    var (n, end) := DottedTailAt(ts, pos, left).value;
    if ts[pos].kind != DotToken {
      assert end == pos && n == left;
    } else {
      var x := ts[pos + 1].value;
      var next := QualifiedNameSyntax(left, x);
      DottedTailStep(ts, pos, left);
      DottedTailPrints(ts, pos + 2, next);
      assert Idents(next) == Idents(left) + [x];
      DottedStep(Idents(n), Idents(left), x);
      SpelledPair(ts, pos, end);
    }
  }

  /** One more identifier after a prefix prints as one more dot pair. */
  lemma DottedStep(ids: seq<string>, prefix: seq<string>, x: string)
    requires |prefix| < |ids| && ids[..|prefix| + 1] == prefix + [x]
    ensures ids[..|prefix|] == prefix
    ensures DottedTokens(ids[|prefix|..]) == [Token(DotToken, "."), Token(IdentifierToken, x)] + DottedTokens(ids[|prefix| + 1..])
  {
    var l := |prefix|;
    assert ids[..l] == ids[..l + 1][..l];
    assert ids[l] == x;
    assert ids[l..][1..] == ids[l + 1..];
  }

  /** A dot and an identifier at the front of a slice, spelled. */
  lemma SpelledPair(ts: seq<Token>, pos: nat, end: nat)
    requires pos + 2 <= end <= |ts| && ts[pos].kind == DotToken && ts[pos + 1].kind == IdentifierToken
    ensures SpelledAll(ts[pos..end]) == [Token(DotToken, "."), ts[pos + 1]] + SpelledAll(ts[pos + 2..end])
  {
    assert ts[pos..end] == [ts[pos], ts[pos + 1]] + ts[pos + 2..end];
  }


  /** A using directive is `using` Name `;`, and its tokens parse back to it. */
  lemma UsingRoundTrip(n: NameSyntax, usingKeyword: Token, semicolon: Token, rest: seq<Token>)
    requires usingKeyword.kind == UsingKeyword && semicolon.kind == SemicolonToken
    ensures var ts := [usingKeyword] + NameTokens(n) + [semicolon] + rest;
      UsingAt(ts, 0) == Ok((UsingDirective(usingKeyword, n, semicolon), |NameTokens(n)| + 2))
  {
    var ts := [usingKeyword] + NameTokens(n) + [semicolon] + rest;
    var tail := [semicolon] + rest;
    assert ts[1..] == NameTokens(n) + tail;
    ShiftedName(ts, 1, n, tail);
    assert ts[1 + |NameTokens(n)|] == semicolon;
  }

  /** Reading a name does not depend on the tokens before it. */
  lemma ShiftedName(ts: seq<Token>, pos: nat, n: NameSyntax, tail: seq<Token>)
    requires pos <= |ts| && ts[pos..] == NameTokens(n) + tail
    requires |tail| > 0 && tail[0].kind != DotToken
    ensures QualifiedNameAt(ts, pos) == Ok((n, pos + |NameTokens(n)|))
  {
    var ids := Idents(n);
    NameTokensSplit(ts, pos, n, tail);
    DottedTailReads(ts, pos + 1, [ids[0]], ids[1..], tail);
    assert [ids[0]] + ids[1..] == ids;
    NameOfIdents(n);
  }

  /** A name's tokens are its first identifier, then its dot-identifier pairs. */
  lemma NameTokensSplit(ts: seq<Token>, pos: nat, n: NameSyntax, tail: seq<Token>)
    requires pos <= |ts| && ts[pos..] == NameTokens(n) + tail
    requires |tail| > 0 && tail[0].kind != DotToken
    ensures pos < |ts| && ts[pos] == Token(IdentifierToken, Idents(n)[0])
    ensures LaidOut(ts, pos + 1, Idents(n)[1..], tail)
    ensures |NameTokens(n)| == 1 + 2 * |Idents(n)[1..]|
  {
    var ids := Idents(n);
    DottedTokensLength(ids[1..]);
    assert NameTokens(n)[1..] == DottedTokens(ids[1..]);
    DropAppend(ts[pos..], NameTokens(n), tail, 1);
    DropDrop(ts, pos, 1);
  }

  /** Every using directive comes first: a `using` where a member is
      expected is reported as a missing `class`. */
  lemma UsingAfterMemberRejected(ts: seq<Token>, pos: nat)
    requires pos < |ts| && ts[pos].kind == UsingKeyword
    ensures MemberAt(ts, pos) == Err(Expected(ClassKeyword, ts[pos].value))
  {
    assert ModifiersEndAt(ts, pos) == Ok(pos);
  }

  /** As written, every member that parses has no modifiers. When it starts
      with a modifier, as `public class C { } ;` does, the corrected member
      reads the same tokens and keeps that modifier. */
  lemma ModifiersDropped(ts: seq<Token>, pos: nat)
    requires MemberAt(ts, pos).Ok?
    ensures MemberAt(ts, pos).value.0.modifiers == []
    ensures MemberAtKept(ts, pos).Ok?
    ensures MemberAtKept(ts, pos).value.1 == MemberAt(ts, pos).value.1
    ensures IsModifier(ts[pos].kind) ==> MemberAtKept(ts, pos).value.0.modifiers != []
  {
    var e := ModifiersEndAt(ts, pos).value;
    ClassAcceptedOnlyIf(ts, e, []);
    ClassAccepted(ts, e, []);
    ClassAccepted(ts, e, ts[pos..e]);
    if IsModifier(ts[pos].kind) {
      assert e != pos;
    }
  }

  /** The corrected member keeps the modifiers: they are exactly the tokens
      of the maximal run of `public`, `private` and `static` in front of
      `class`. */
  lemma ModifiersKept(ts: seq<Token>, pos: nat)
    requires MemberAtKept(ts, pos).Ok?
    ensures var (decl, end) := MemberAtKept(ts, pos).value;
      && pos + 5 <= end
      && decl.modifiers == ts[pos..end - 5]
      && (forall k :: 0 <= k < |decl.modifiers| ==> IsModifier(decl.modifiers[k].kind))
      && ts[end - 5].kind == ClassKeyword
  {
    MemberIsClass(ts, pos);
    var e := ModifiersEndAt(ts, pos).value;
    KeptRun(ts, pos, e, MemberAtKept(ts, pos).value);
  }

  /** A declaration read after the run of modifiers from `pos` to `e`,
      carrying that run, has exactly the run's tokens as modifiers. */
  lemma KeptRun(ts: seq<Token>, pos: nat, e: nat, member: (ClassDeclarationSyntax, nat))
    requires ModifiersEndAt(ts, pos) == Ok(e) && e < |ts| && ts[e].kind == ClassKeyword
    requires member.1 == e + 5 && member.0.modifiers == ts[pos..e]
    ensures var (decl, end) := member;
      && pos + 5 <= end
      && decl.modifiers == ts[pos..end - 5]
      && (forall k :: 0 <= k < |decl.modifiers| ==> IsModifier(decl.modifiers[k].kind))
      && ts[end - 5].kind == ClassKeyword
  {
    var mods := ts[pos..e];
    assert forall k :: 0 <= k < |mods| ==> mods[k] == ts[pos + k];
  }
}
