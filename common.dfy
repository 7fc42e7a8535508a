/** Types shared by every stage of the MiniCSharp front end: the failure
    wrappers that stand in for .NET exceptions, the syntax kinds the code
    names, and the lexer's token value. */
module Common {

  /** The exceptions the modelled code can raise, as values. */
  datatype Error =
    | IndexOutOfRange                         // List<T> indexer past the end
    | Expected(kind: SyntaxKind, got: string) // Parser.MatchToken's message
    | NullReference                           // a null-forgiven field that was never set
    | KeyNotFound(key: string)                // Dictionary indexer on a missing key
    | DuplicateKey(key: string)               // Dictionary.Add on a present key

  datatype Option<+T> = None | Some(value: T)

  /** Result of an operation that may throw; usable with `:-`. */
  datatype Result<+T> = Ok(value: T) | Err(error: Error) {
    predicate IsFailure() { Err? }
    function PropagateFailure<U>(): Result<U> requires Err? { Err(error) }
    function Extract(): T requires Ok? { value }
  }

  /** Result of an operation that may throw and returns nothing. */
  datatype Outcome = Pass | Fail(error: Error) {
    predicate IsFailure() { Fail? }
    function PropagateFailure<U>(): Result<U> requires Fail? { Err(error) }
  }

  /** The Roslyn syntax kinds the modelled code mentions. Keywords that the
      code never names are `OtherKeyword`, carrying their spelling. */
  datatype SyntaxKind =
    | NoneKind  // Roslyn's SyntaxKind.None
    // trivia and literals
    | WhitespaceTrivia | EndOfLineTrivia | SingleLineCommentTrivia | MultiLineCommentTrivia
    | NumericLiteralToken | StringLiteralToken | IdentifierToken | EndOfFileToken
    // punctuation and operators
    | SemicolonToken | ColonToken | CommaToken | DotToken
    | LessThanEqualsToken | GreaterThanEqualsToken | EqualsEqualsToken | EqualsToken
    | OpenParenToken | CloseParenToken | OpenBraceToken | CloseBraceToken
    | OpenBracketToken | CloseBracketToken | GreaterThanToken | LessThanToken
    | PlusToken | MinusToken | AsteriskToken | SlashToken
    | ExclamationEqualsToken | AmpersandAmpersandToken | BarBarToken | ExclamationToken
    // keywords
    | UsingKeyword | ClassKeyword | PublicKeyword | PrivateKeyword | StaticKeyword
    | IntKeyword | StringKeyword | VoidKeyword | BoolKeyword
    | OtherKeyword(spelling: string)
    // node kinds used as symbol types
    | IdentifierName | NamespaceDeclaration | ClassDeclaration

  predicate IsKeywordKind(k: SyntaxKind) {
    k.UsingKeyword? || k.ClassKeyword? || k.PublicKeyword? || k.PrivateKeyword? || k.StaticKeyword?
    || k.IntKeyword? || k.StringKeyword? || k.VoidKeyword? || k.BoolKeyword? || k.OtherKeyword?
  }

  /** A keyword table maps spellings to keyword kinds only. */
  predicate IsKeywordTable(keywords: map<string, SyntaxKind>) {
    forall w :: w in keywords ==> IsKeywordKind(keywords[w])
  }

  /** Lexer/Token.cs: a kind and the token's text (trivia lists are not modelled). */
  datatype Token = Token(kind: SyntaxKind, value: string)

  /** An opaque source location, as carried by a diagnostic. */
  datatype Location = Location(position: nat)
}
