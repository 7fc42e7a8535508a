# MiniCSharpCompiler front end, modelled in Dafny

This project models the hand-written front end of MiniCSharpCompiler, a small
compiler for a subset of C#, and proves properties of that model. It has five
parts.

- **Lexer** (`lexer.dfy`, module `Lexer`; properties in `LexerProperties`).
  `Tokenize` scans the source with a cursor. At each position it tries an
  ordered table of anchored patterns, and the first one that matches emits a
  token. A character that no pattern matches is skipped, and one end-of-file
  token closes the list. Each regular expression of the table is written as a
  matcher function that returns the length of its match. `Tokenize` and its
  loop are proved equal to the functional specification `Lex`.
- **Parser** (`parser.dfy`, modules `Parser` and `ParserProperties`).
  `class Parser` keeps the token list and a cursor. Every parsing routine is a
  method, proved against a function of the token list and the start cursor
  that gives either the syntax node and the end cursor or the exception the
  routine throws. The properties proved include round trips for qualified
  names and using directives, the exact token shape `class IDENT { } ;` that
  a member must have, and the fact that the cursor never passes the
  end-of-file token.
- **LL(1) table generator** (`table_generator.dfy`, module `TableGenerator`;
  specification in `ll1.dfy`, `passes.dfy` and `loop_states.dfy`).
  `class ParserTableGenerator` computes FIRST and FOLLOW sets with
  `do … while (changed)` fixpoint loops and fills the predictive table. These
  follow section 4.4 of Aho, Lam, Sethi and Ullman, "Compilers" (2nd edition):
  FIRST and FOLLOW in section 4.4.2, the table in Algorithm 4.31. The string
  "empty" stands for the empty string and "$" for the end of input. The
  methods are proved to compute the least sets closed under the generator's
  own rules and the table built from them, and to throw exactly where the
  code throws.
- **Symbols and the symbol table** (`symbols.dfy`, module `Symbols`).
  `class Symbol` has immutable name, kind, type and parent, and a children
  list that its constructor appends to. `class SymbolTable` is a dictionary
  keyed by full name plus a set of imported namespaces. Adding a duplicate
  key throws. A symbol whose scope already holds its name is refused.
  Resolution walks the scope chain, then the bare name, then the imported
  namespaces.
- **Semantic analyzer** (`semantic.dfy`, module `Semantic`; specification in
  `semantic_walk.dfy`, module `SemanticWalk`).
  `class SemanticAnalyzer` registers the predefined types, imports the using
  directives, and walks namespaces, classes, methods, parameters and local
  declarations. It saves and restores the current scope and appends
  "already exists" diagnostics. The Roslyn syntax tree becomes a small
  datatype with exactly these declaration shapes. `SemanticWalk` states the
  whole walk as functions on a table of entries and the diagnostics
  (`AnalyzeRun` and one run function per walker), and every walker method of
  the class is proved to end in the state and outcome its run function
  gives. The imported namespaces are not part of that state; `Analyze` and
  `AddUsings` state them directly. A using directive whose Roslyn `Name` is
  null (an alias to a type that is not a name, `using Num = int;`) makes the
  using loop throw a null reference, after importing the usings before it. A local declaration also has
  a closed form: which variables are reported, which are stored, and which
  one throws.

`common.dfy` (module `Common`) holds the shared vocabulary:

- `SyntaxKind`, the Roslyn kinds the code uses;
- `Token` and `Location`;
- `Option` and `Result`;
- `Error`, which names the exceptions the compiler lets escape: an index out
  of range, a failed `MatchToken`, a null reference, a missing key, and a
  duplicate dictionary key.

## Model

| member | source | states |
|---|---|---|
| Lexer.Span | src/MiniCSharpCompiler.Core/Lexer/Lexer.cs:57-58 | the greedy run of a character class: every character inside it is in the class and the next one is not |
| Lexer.CommentEnd | src/MiniCSharpCompiler.Core/Lexer/Lexer.cs:75 | the lazy `.*?\*/` stops at the first `*/` after the opening, and there is none when it fails |
| Lexer.MatchLength | src/MiniCSharpCompiler.Core/Lexer/Lexer.cs:55-99 | every pattern matches at least one character and never past the end; a string literal match includes both quotes (and the `@`) |
| Lexer.MakeTokenValue | src/MiniCSharpCompiler.Core/Lexer/Lexer.cs:55-99 | the token built for a match: a word is its keyword kind when the keyword table has it and an identifier otherwise; a string literal drops its quotes and `@`, keeping the text between; every other pattern keeps the matched text and its own kind |
| Lexer.FirstMatchFrom | src/MiniCSharpCompiler.Core/Lexer/Lexer.cs:110-127 | the pattern chosen is the first in table order that matches, and none before it matches; no result only when none matches |
| Lexer.Step | src/MiniCSharpCompiler.Core/Lexer/Lexer.cs:110-127 | one turn of the scan loop advances by at least one and at most the rest of the text |
| Lexer.Tokenize | src/MiniCSharpCompiler.Core/Lexer/Lexer.cs:49-138 | the tokens are those of the specification `Lex`, followed by one `EndOfFileToken` with empty text |
| Lexer.MatchFirstPattern | src/MiniCSharpCompiler.Core/Lexer/Lexer.cs:108-134 | the inner `foreach … break` does one step of `LexFrom`: with a match it emits the token and the cursor moves past the match; without one it moves by one character |
| Lexer.EmitsFound | src/MiniCSharpCompiler.Core/Lexer/Lexer.cs:112-125 | when the first matching pattern has a match of length `n`, the scan emits that pattern's token and resumes `n` characters on |
| Lexer.EmitsNothing | src/MiniCSharpCompiler.Core/Lexer/Lexer.cs:129-133 | when no pattern matches, the scan emits nothing at the cursor and resumes one character on |
| Lexer.Scan | src/MiniCSharpCompiler.Core/Lexer/Lexer.cs:104-135 | the scan loop emits exactly `LexFrom(table, source, 0)` for any pattern table |
| LexerProperties.LexWellFormed | src/MiniCSharpCompiler.Core/Lexer/Lexer.cs:55-99 | every token has the text its kind allows: words are keywords exactly when they are keys of the keyword table, string values contain no quote, punctuation has its own spelling, and no token is end-of-file |
| LexerProperties.StepWellFormed | src/MiniCSharpCompiler.Core/Lexer/Lexer.cs:58-117 | the token one step builds is well formed for the pattern that built it |
| LexerProperties.LexAll | src/MiniCSharpCompiler.Core/Lexer/Lexer.cs:104-135 | a property every step's token has holds for every token of the scan |
| LexerProperties.TokenizeEndsOnce | src/MiniCSharpCompiler.Core/Lexer/Lexer.cs:136 | the token list ends with end-of-file and has no other end-of-file token |
| LexerProperties.LexBounded | src/MiniCSharpCompiler.Core/Lexer/Lexer.cs:104-135 | `LexFrom`, and so `Lex`, emits at most one token per character from the cursor on: a matched token consumes at least one character and an unmatched character emits nothing |
| LexerProperties.UnknownCharacterSkipped | src/MiniCSharpCompiler.Core/Lexer/Lexer.cs:130-134 | a character no pattern can start with (tab, `\r`, `%`) builds no token and is skipped |
| LexerProperties.UnterminatedStringSkipped | src/MiniCSharpCompiler.Core/Lexer/Lexer.cs:66-134 | a quote with no closing quote matches nothing and is skipped like an unknown character |
| LexerProperties.StepAt | src/MiniCSharpCompiler.Core/Lexer/Lexer.cs:110-126 | the first matching pattern of the table decides the token and the length |
| LexerProperties.EqualsEqualsBeforeEquals | src/MiniCSharpCompiler.Core/Lexer/Lexer.cs:82-126 | `==` is one `EqualsEqualsToken`, never two `=` |
| LexerProperties.LessThanEqualsBeforeLessThan | src/MiniCSharpCompiler.Core/Lexer/Lexer.cs:80-126 | `<=` is one `LessThanEqualsToken`, never `<` then `=` |
| LexerProperties.LineCommentBeforeSlash | src/MiniCSharpCompiler.Core/Lexer/Lexer.cs:74-126 | `//` starts a comment that runs to the end of the line, never a division |
| LexerProperties.DigitsBeforeWord | src/MiniCSharpCompiler.Core/Lexer/Lexer.cs:57-58 | a digit run is a number even when letters follow (`12ab` starts with the number `12`) |
| LexerProperties.PlusIsSingle | src/MiniCSharpCompiler.Core/Lexer/Lexer.cs:92 | a plus sign is always a `PlusToken` of one character (there is no `++` pattern) |
| LexerProperties.GreaterThanEqualsBeforeGreaterThan | src/MiniCSharpCompiler.Core/Lexer/Lexer.cs:81-90 | `>=` is one `GreaterThanEqualsToken`, because its pattern comes before the one for `>` |
| LexerProperties.ExclamationEqualsBeforeExclamation | src/MiniCSharpCompiler.Core/Lexer/Lexer.cs:96-99 | `!=` is one `ExclamationEqualsToken`, because its pattern comes before the one for `!` |
| LexerProperties.PlusPlusIsTwoPlus | src/MiniCSharpCompiler.Core/Lexer/Lexer.cs:92 | `++` lexes as exactly two `PlusToken`s |
| LexerProperties.DigitsThenWord | src/MiniCSharpCompiler.Core/Lexer/Lexer.cs:57-65 | `12ab` lexes as exactly the number `12` followed by the word `ab`, which is an identifier unless the keyword table has it |
| Parser.MatchAt | src/MiniCSharpCompiler.Core/Parser/Parser.cs:15-25 | it succeeds exactly when the current token has the kind, returning it and the next cursor; otherwise it fails with the kind expected and the text found, or with index-out-of-range past the end |
| Parser.SimpleNameAt | src/MiniCSharpCompiler.Core/Parser/Parser.cs:89-93 | one identifier token gives an `IdentifierName` of its text and advances by one |
| Parser.QualifiedNameAt | src/MiniCSharpCompiler.Core/Parser/Parser.cs:68-87 | a name consumes at least one token; on a list that ends with end-of-file it never runs off the list (no index-out-of-range, end cursor on the list) |
| Parser.DottedTailAt | src/MiniCSharpCompiler.Core/Parser/Parser.cs:79-84 | the `while` loop of `ParseQualifiedName` never moves the cursor back and never runs off an EOF-terminated list |
| Parser.UsingAt | src/MiniCSharpCompiler.Core/Parser/Parser.cs:53-62 | a using directive consumes at least three tokens and stays on the list |
| Parser.UsingsAt | src/MiniCSharpCompiler.Core/Parser/Parser.cs:38-41 | the using loop stops on the first token that is not `using` |
| Parser.ModifiersEndAt | src/MiniCSharpCompiler.Core/Parser/Parser.cs:103-114 | the modifier loop consumes the maximal run of `public`, `private` and `static` tokens |
| Parser.ClassAt | src/MiniCSharpCompiler.Core/Parser/Parser.cs:116-130 | an accepted class is exactly five tokens long and carries the modifiers it was given |
| Parser.ClassAccepted | src/MiniCSharpCompiler.Core/Parser/Parser.cs:116-130 | the tokens `class IDENT { } ;` are always accepted |
| Parser.ClassAcceptedOnlyIf | src/MiniCSharpCompiler.Core/Parser/Parser.cs:116-130 | nothing else is accepted as a class |
| Parser.ClassFailsAtFirstMismatch | src/MiniCSharpCompiler.Core/Parser/Parser.cs:121-128 | a class fails at its first token that differs from `class IDENT { } ;`, naming the kind expected there (a `<` fails at the `{`, a member at the `}`, a missing `;` at the end) |
| Parser.ClassAtFails | src/MiniCSharpCompiler.Core/Parser/Parser.cs:116-130 | a class declaration fails with the error of the first of its five matches that fails |
| Parser.ClassStaysOnList | src/MiniCSharpCompiler.Core/Parser/Parser.cs:116-130 | on a list that ends with end-of-file, parsing a class never runs off the list |
| Parser.MemberAt | src/MiniCSharpCompiler.Core/Parser/Parser.cs:95-101 | as written: a member skips a run of modifier tokens and then reads exactly five class tokens, but the declaration it returns has no modifiers; it stays on the list |
| Parser.MemberAtKept | src/MiniCSharpCompiler.Core/Parser/Parser.cs:95-114 | corrected: the declaration carries exactly the modifier tokens in front of its five class tokens |
| Parser.MemberIsClass | src/MiniCSharpCompiler.Core/Parser/Parser.cs:95-101 | corrected: a member that parses is the class read right after its maximal run of modifiers, carrying that run |
| Parser.MembersAt | src/MiniCSharpCompiler.Core/Parser/Parser.cs:43-46 | as written, over `MemberAt`: the member loop ends on the end-of-file token and stays on the list |
| Parser.CompilationUnitAt | src/MiniCSharpCompiler.Core/Parser/Parser.cs:33-51 | as written: a compilation unit ends on the end-of-file token without consuming it |
| Parser.Parser.constructor | src/MiniCSharpCompiler.Core/Parser/Parser.cs:7-10 | a new parser starts at the first token and is valid when the list ends with end-of-file |
| Parser.Parser.Current | src/MiniCSharpCompiler.Core/Parser/Parser.cs:13 | the token under the cursor, or index-out-of-range past the end; never a failure while the parser is valid |
| Parser.Parser.IsAtEnd | src/MiniCSharpCompiler.Core/Parser/Parser.cs:12 | holds exactly when the current token is end-of-file; it cannot fail while the parser is valid |
| Parser.Parser.MatchToken | src/MiniCSharpCompiler.Core/Parser/Parser.cs:15-25 | on a token of the kind it returns that token and advances by exactly one; otherwise it throws and leaves the cursor where it was |
| Parser.Parser.ParseSimpleName | src/MiniCSharpCompiler.Core/Parser/Parser.cs:89-93 | agrees with `SimpleNameAt` on the node, the new cursor and the exception |
| Parser.Parser.ParseQualifiedName | src/MiniCSharpCompiler.Core/Parser/Parser.cs:68-87 | an identifier alone is returned as it is; otherwise the first pair and the loop build the left-nested name that `QualifiedNameAt` specifies |
| Parser.Parser.ParseDottedTail | src/MiniCSharpCompiler.Core/Parser/Parser.cs:79-84 | the `while` loop reads dot-identifier pairs, nesting to the left, as `DottedTailAt` specifies |
| Parser.Parser.ParseUsingDirective | src/MiniCSharpCompiler.Core/Parser/Parser.cs:53-62 | agrees with `UsingAt` |
| Parser.Parser.ParseModifiers | src/MiniCSharpCompiler.Core/Parser/Parser.cs:103-114 | as written: it consumes the maximal modifier run and returns an empty list |
| Parser.Parser.ParseModifiersKept | src/MiniCSharpCompiler.Core/Parser/Parser.cs:103-114 | corrected: it consumes the same run and returns exactly those tokens |
| Parser.Parser.ParseClassDeclaration | src/MiniCSharpCompiler.Core/Parser/Parser.cs:116-130 | agrees with `ClassAt` |
| Parser.Parser.ParseMemberDeclaration | src/MiniCSharpCompiler.Core/Parser/Parser.cs:95-101 | as written: agrees with `MemberAt` on the node, the cursor and the error, so its class has no modifiers |
| Parser.Parser.ParseMemberDeclarationKept | src/MiniCSharpCompiler.Core/Parser/Parser.cs:95-101 | corrected: over `ParseModifiersKept`, agrees with `MemberAtKept` |
| Parser.Parser.ParseUsingDirectives | src/MiniCSharpCompiler.Core/Parser/Parser.cs:38-41 | the using loop agrees with `UsingsAt` |
| Parser.Parser.ParseMemberDeclarations | src/MiniCSharpCompiler.Core/Parser/Parser.cs:43-46 | the member loop agrees with `MembersAt`, the as-written chain |
| Parser.Parser.ParseCompilationUnit | src/MiniCSharpCompiler.Core/Parser/Parser.cs:33-51 | all usings come before the members, and parsing stops on the end-of-file token with the parser still valid |
| Parser.Parser.Parse | src/MiniCSharpCompiler.Core/Parser/Parser.cs:27-31 | agrees with `CompilationUnitAt`, the as-written chain |
| Parser.PrependTwice | src/MiniCSharpCompiler.Core/Parser/Parser.cs:38-46 | prepending the items already read in two steps is prepending them in one step, which carries the loop accumulators |
| Parser.UsingsTurn | src/MiniCSharpCompiler.Core/Parser/Parser.cs:38-41 | one turn of the using loop: a failing directive fails the loop, and a successful one joins the directives read so far |
| Parser.UsingsEnd | src/MiniCSharpCompiler.Core/Parser/Parser.cs:38-41 | the using loop stops at the first token that is not `using`, with the directives read so far |
| Parser.MembersTurn | src/MiniCSharpCompiler.Core/Parser/Parser.cs:43-46 | one turn of the member loop, in the same way |
| Parser.MembersEnd | src/MiniCSharpCompiler.Core/Parser/Parser.cs:43-46 | the member loop stops at the end-of-file token, with the members read so far |
| ParserProperties.NameOfIdents | src/MiniCSharpCompiler.Core/Parser/Parser.cs:68-87 | a name is rebuilt from its identifiers by left nesting |
| ParserProperties.DottedTokensLength | src/MiniCSharpCompiler.Core/Parser/Parser.cs:76-84 | each further identifier of a name takes two tokens (`.` and the identifier) |
| ParserProperties.DottedTailReads | src/MiniCSharpCompiler.Core/Parser/Parser.cs:76-84 | the loop reads `.id` pairs until a token that is not a dot, nesting to the left |
| ParserProperties.QualifiedNameRoundTrip | src/MiniCSharpCompiler.Core/Parser/Parser.cs:68-87 | the tokens of any name parse back to that name, one identifier giving an `IdentifierName` and more giving a left-nested `QualifiedName` |
| ParserProperties.QualifiedNameReadBack | src/MiniCSharpCompiler.Core/Parser/Parser.cs:68-87 | the converse of the round trip: an accepted name was read from exactly its own printed tokens, up to the text of the dots, and the token after it is not a dot |
| ParserProperties.DottedTailPrints | src/MiniCSharpCompiler.Core/Parser/Parser.cs:76-84 | the dot loop consumed exactly the dot-identifier pairs of the identifiers it added to the name, and stopped at a token that is not a dot |
| ParserProperties.UsingRoundTrip | src/MiniCSharpCompiler.Core/Parser/Parser.cs:53-62 | `using` Name `;` parses back to the directive with that name and consumes exactly its tokens |
| ParserProperties.ShiftedName | src/MiniCSharpCompiler.Core/Parser/Parser.cs:68-87 | reading a name does not depend on the tokens before it |
| ParserProperties.UsingAfterMemberRejected | src/MiniCSharpCompiler.Core/Parser/Parser.cs:38-118 | a `using` after the first member fails as a missing `class` |
| ParserProperties.ModifiersDropped | src/MiniCSharpCompiler.Core/Parser/Parser.cs:103-114 | as written, a member with modifiers is accepted with the same tokens consumed, but its declaration has no modifiers |
| ParserProperties.ModifiersKept | src/MiniCSharpCompiler.Core/Parser/Parser.cs:103-114 | corrected, the declaration's modifiers are exactly the modifier tokens in front of `class` |
| TableGenerator.ParserTableGenerator.constructor | src/MiniCSharpCompiler.Core/Parser/ParserTableGenerator.cs:8 | a new generator has no terminal map |
| TableGenerator.ParserTableGenerator.IsTerminal | src/MiniCSharpCompiler.Core/Parser/ParserTableGenerator.cs:11-15 | a symbol is terminal exactly when it is a key of the loaded map; before loading the call throws a null reference |
| TableGenerator.ParserTableGenerator.LoadTerminalSymbolsMap | src/MiniCSharpCompiler.Core/Parser/ParserTableGenerator.cs:17-20 | the terminals become the keys of the given map |
| TableGenerator.ParserTableGenerator.First | src/MiniCSharpCompiler.Core/Parser/ParserTableGenerator.cs:93-126 | the loop with its breaks computes `FirstOf`; it throws only when no map is loaded and the string is not empty |
| TableGenerator.ParserTableGenerator.CalculateFirstSets | src/MiniCSharpCompiler.Core/Parser/ParserTableGenerator.cs:58-90 | the fixpoint loop ends with the least map, on the left sides, under which each rule's FIRST contains every production's FIRST; it throws exactly when no map is loaded and some production is not empty |
| TableGenerator.ParserTableGenerator.FirstPass | src/MiniCSharpCompiler.Core/Parser/ParserTableGenerator.cs:72-86 | one pass computes `FirstPassFrom`; `changed` means the total size grew, and otherwise nothing changed |
| TableGenerator.ParserTableGenerator.CalculateFollowSets | src/MiniCSharpCompiler.Core/Parser/ParserTableGenerator.cs:129-198 | with no `COMPILATION_UNIT` rule it throws a missing key; otherwise it ends with the least FOLLOW map that has "$" for the start symbol and meets every occurrence's constraints, with "empty" in no set |
| TableGenerator.ParserTableGenerator.FollowPass | src/MiniCSharpCompiler.Core/Parser/ParserTableGenerator.cs:151-194 | one pass computes `FollowPassFrom`; `changed` means the total size grew |
| TableGenerator.ParserTableGenerator.FollowProduction | src/MiniCSharpCompiler.Core/Parser/ParserTableGenerator.cs:157-192 | one production's occurrences are visited in order, keeping the pass state |
| TableGenerator.ParserTableGenerator.FollowSymbol | src/MiniCSharpCompiler.Core/Parser/ParserTableGenerator.cs:159-191 | one turn of the inner loop fails exactly when there is no terminal map, and otherwise moves the pass state one symbol on |
| TableGenerator.ParserTableGenerator.FollowOccurrence | src/MiniCSharpCompiler.Core/Parser/ParserTableGenerator.cs:162-190 | visiting a non-terminal occurrence adds FIRST of its suffix without "empty", and the left side's FOLLOW when the suffix can vanish, creating the set if missing |
| TableGenerator.ParserTableGenerator.WriteLookaheads | src/MiniCSharpCompiler.Core/Parser/ParserTableGenerator.cs:33-50 | a production is written under its FIRST without "empty", and under FOLLOW of its left side when its FIRST has "empty" |
| TableGenerator.ParserTableGenerator.WriteUnder | src/MiniCSharpCompiler.Core/Parser/ParserTableGenerator.cs:35-49 | each `foreach` writes the production under every member of its set except the skipped one ("empty" in the first loop, nothing in the second) |
| TableGenerator.ParserTableGenerator.GenerateTable | src/MiniCSharpCompiler.Core/Parser/ParserTableGenerator.cs:22-55 | the table is `TableOf` the productions in order under the FIRST and FOLLOW sets; no key uses "empty"; it throws a null reference or a missing key exactly where the code does |
| LL1.FirstOf | src/MiniCSharpCompiler.Core/Parser/ParserTableGenerator.cs:93-126 | FIRST of a string holds "empty" when every symbol is nullable, and (for a string without "empty" in it) only then |
| LL1.FirstScanEmpty | src/MiniCSharpCompiler.Core/Parser/ParserTableGenerator.cs:97-117 | the scan itself yields "empty" only when "empty" is one of the symbols |
| LL1.FirstOfNil | src/MiniCSharpCompiler.Core/Parser/ParserTableGenerator.cs:120-123 | FIRST of the empty string is {"empty"} |
| LL1.FirstOfTerminal | src/MiniCSharpCompiler.Core/Parser/ParserTableGenerator.cs:100-104 | a string starting with a terminal has just that terminal as its FIRST |
| LL1.FirstScanMono | src/MiniCSharpCompiler.Core/Parser/ParserTableGenerator.cs:97-117 | the scan only grows when the FIRST sets grow |
| LL1.FirstOfMono | src/MiniCSharpCompiler.Core/Parser/ParserTableGenerator.cs:93-126 | `First` is monotone in the FIRST sets, which makes the fixpoint loops converge to the least solution |
| LL1.FirstScanWithin | src/MiniCSharpCompiler.Core/Parser/ParserTableGenerator.cs:97-117 | the scan only yields symbols of the string or of the FIRST sets |
| LL1.FirstOfWithin | src/MiniCSharpCompiler.Core/Parser/ParserTableGenerator.cs:93-126 | `First` yields only symbols of the string, of the FIRST sets, or "empty" |
| LL1.FirstSetsUnique | src/MiniCSharpCompiler.Core/Parser/ParserTableGenerator.cs:58-90 | there is only one least closed FIRST map |
| LL1.FollowSetsUnique | src/MiniCSharpCompiler.Core/Parser/ParserTableGenerator.cs:129-198 | there is only one least closed FOLLOW map |
| LL1.SubsetSize | src/MiniCSharpCompiler.Core/Parser/ParserTableGenerator.cs:77-84 | a proper subset is smaller, so a growing count means a new element |
| LL1.UnionGrows | src/MiniCSharpCompiler.Core/Parser/ParserTableGenerator.cs:77-190 | `UnionWith` raises the count exactly when it adds something new, which is what `changed` records |
| LL1.TotalMono | src/MiniCSharpCompiler.Core/Parser/ParserTableGenerator.cs:68-87 | the total size of growing sets does not shrink |
| LL1.TotalStrict | src/MiniCSharpCompiler.Core/Parser/ParserTableGenerator.cs:68-87 | a pass that grows one set raises the total |
| LL1.TotalBound | src/MiniCSharpCompiler.Core/Parser/ParserTableGenerator.cs:68-195 | the total is bounded by keys times symbols, so the do-while loops terminate |
| LL1.WriteTwice | src/MiniCSharpCompiler.Core/Parser/ParserTableGenerator.cs:35-50 | writing a production under FIRST and then under FOLLOW is writing it under their union |
| LL1.WriteNone | src/MiniCSharpCompiler.Core/Parser/ParserTableGenerator.cs:44-50 | with no "empty" in FIRST the FOLLOW loop writes nothing |
| LL1.WriteOne | src/MiniCSharpCompiler.Core/Parser/ParserTableGenerator.cs:39-48 | one indexer assignment is a write under one lookahead |
| LL1.TableKeys | src/MiniCSharpCompiler.Core/Parser/ParserTableGenerator.cs:28-52 | a (non-terminal, lookahead) pair has an entry exactly when some production of that non-terminal selects that lookahead |
| LL1.TableLastWins | src/MiniCSharpCompiler.Core/Parser/ParserTableGenerator.cs:39-48 | on an LL(1) conflict the production visited last holds the entry |
| LL1.NoEmptyLookahead | src/MiniCSharpCompiler.Core/Parser/ParserTableGenerator.cs:37-49 | no table key uses "empty" as lookahead |
| Passes.GrowthCounts | src/MiniCSharpCompiler.Core/Parser/ParserTableGenerator.cs:77-84 | a set that grew in a pass raises the total |
| Passes.ExtendsTotal | src/MiniCSharpCompiler.Core/Parser/ParserTableGenerator.cs:178-182 | creating empty sets for new symbols leaves the total as it was |
| Passes.BelowTrans | src/MiniCSharpCompiler.Core/Parser/ParserTableGenerator.cs:68-87 | the "below" order between FIRST maps is transitive |
| Passes.FirstPassGrows | src/MiniCSharpCompiler.Core/Parser/ParserTableGenerator.cs:72-86 | a FIRST pass only grows the sets |
| Passes.FirstPassBounded | src/MiniCSharpCompiler.Core/Parser/ParserTableGenerator.cs:72-86 | a FIRST pass only adds grammar symbols and "empty" |
| Passes.FirstPassBelow | src/MiniCSharpCompiler.Core/Parser/ParserTableGenerator.cs:72-86 | a pass from below a closed map stays below it (the result is least) |
| Passes.FirstUpdateBelow | src/MiniCSharpCompiler.Core/Parser/ParserTableGenerator.cs:76-78 | one `UnionWith` from below a closed map stays below it |
| Passes.FirstPassFixed | src/MiniCSharpCompiler.Core/Parser/ParserTableGenerator.cs:72-87 | a pass that changes nothing leaves every production closed |
| Passes.WithinTrans | src/MiniCSharpCompiler.Core/Parser/ParserTableGenerator.cs:146-195 | the "within" order between FOLLOW maps is transitive |
| Passes.FollowPassGrows | src/MiniCSharpCompiler.Core/Parser/ParserTableGenerator.cs:151-194 | a FOLLOW pass only grows sets, and adds keys only for the non-terminal occurrences it visits |
| Passes.FollowPassBounded | src/MiniCSharpCompiler.Core/Parser/ParserTableGenerator.cs:151-194 | a FOLLOW pass adds only symbols of the grammar, of the FIRST sets and "$", never "empty" |
| Passes.FollowPassWithin | src/MiniCSharpCompiler.Core/Parser/ParserTableGenerator.cs:151-194 | a pass from within a closed map stays within it (the result is least) |
| Passes.FollowPassFixed | src/MiniCSharpCompiler.Core/Parser/ParserTableGenerator.cs:151-195 | a pass that changes nothing leaves every occurrence closed |
| Passes.FollowUpdateFixed | src/MiniCSharpCompiler.Core/Parser/ParserTableGenerator.cs:164-190 | an occurrence whose update changes nothing already meets its constraint |
| LoopStates.FirstPassLeast | src/MiniCSharpCompiler.Core/Parser/ParserTableGenerator.cs:68-87 | a FIRST pass keeps the sets below every closed map, and a pass that changes nothing ends closed |
| LoopStates.FirstPassDone | src/MiniCSharpCompiler.Core/Parser/ParserTableGenerator.cs:68-87 | the do-while state after a pass, with the bound that makes the loop terminate |
| LoopStates.FollowPassLeast | src/MiniCSharpCompiler.Core/Parser/ParserTableGenerator.cs:146-195 | a FOLLOW pass keeps the sets within every closed map, and a pass that changes nothing ends closed |
| LoopStates.FollowPassDone | src/MiniCSharpCompiler.Core/Parser/ParserTableGenerator.cs:146-195 | the do-while state after a pass, with the bound that makes the loop terminate |
| LoopStates.FollowLoopExit | src/MiniCSharpCompiler.Core/Parser/ParserTableGenerator.cs:195-197 | when the loop exits, the map is the FOLLOW sets and none of them contains "empty" |
| Symbols.Symbol.constructor | src/MiniCSharpCompiler.Core/SemanticAnalysis/Symbol.cs:25-33 | the fields are set once, and a symbol with a parent is appended exactly once to the end of the parent's children |
| Symbols.Symbol.AddChild | src/MiniCSharpCompiler.Core/SemanticAnalysis/Symbol.cs:35-38 | the children only grow, by one at the end |
| Symbols.Symbol.Path | src/MiniCSharpCompiler.Core/SemanticAnalysis/Symbol.cs:22 | the names along the parent chain end with the symbol's own name |
| Symbols.Symbol.ToString | src/MiniCSharpCompiler.Core/SemanticAnalysis/Symbol.cs:40-44 | the text is `KindName` of the kind, a space, the dotted names of the parent chain ending in the symbol's own name, ": " and `TypeName` of the type |
| Symbols.FullNameIsPath | src/MiniCSharpCompiler.Core/SemanticAnalysis/Symbol.cs:22 | the full name is the names from the root to the symbol joined with dots |
| Symbols.JoinDotsSnoc | src/MiniCSharpCompiler.Core/SemanticAnalysis/Symbol.cs:22 | one more name on the chain adds ".name" to the full name |
| Symbols.KindName | src/MiniCSharpCompiler.Core/SemanticAnalysis/Symbol.cs:5-12 | the enum name of a symbol kind is non-empty and has no space, so the text of `ToString` starts with the whole kind |
| Symbols.TypeName | src/MiniCSharpCompiler.Core/SemanticAnalysis/Symbol.cs:43 | a keyword kind's printed name ends in "Keyword"; which name it is, is stated by the `KeywordStem` lemmas below |
| Symbols.OtherKeywordName | src/MiniCSharpCompiler.Core/SemanticAnalysis/Symbol.cs:43 | any keyword the code does not name prints as its stem followed by "Keyword" |
| Symbols.KeywordStemSpells | src/MiniCSharpCompiler.Core/SemanticAnalysis/Symbol.cs:43 | a keyword's Roslyn enum name only recases its spelling: lowered, the stem is the spelling less any leading "__", and it starts with a capital when the spelling starts with a letter (every keyword but `#r`) |
| Symbols.UnsignedKeywordStems | src/MiniCSharpCompiler.Core/SemanticAnalysis/Symbol.cs:43 | `uint`, `ushort`, `ulong` and `sbyte` print as `UInt`, `UShort`, `ULong` and `SByte` |
| Symbols.WordKeywordStems | src/MiniCSharpCompiler.Core/SemanticAnalysis/Symbol.cs:43 | `readonly` prints as `ReadOnly` and `goto` as `Goto` |
| Symbols.OddKeywordStems | src/MiniCSharpCompiler.Core/SemanticAnalysis/Symbol.cs:43 | `__arglist` prints as `ArgList`, without its underscores, and the `#r` directive's keyword as `Reference` |
| Symbols.KeyedAdd | src/MiniCSharpCompiler.Core/SemanticAnalysis/SymbolTable.cs:8-12 | storing a symbol under its full name keeps every key equal to the full name of its symbol |
| Symbols.GrowsTrans | src/MiniCSharpCompiler.Core/SemanticAnalysis/SymbolTable.cs:8-24 | the table only grows across any number of additions |
| Symbols.GrowsAdd | src/MiniCSharpCompiler.Core/SemanticAnalysis/SymbolTable.cs:11 | adding a new key keeps every earlier entry |
| Symbols.GrowsKeeps | src/MiniCSharpCompiler.Core/SemanticAnalysis/SymbolTable.cs:11 | an entry present before is present and unchanged after |
| Symbols.SymbolTable.constructor | src/MiniCSharpCompiler.Core/SemanticAnalysis/SymbolTable.cs:5-6 | a new table is empty and imports nothing |
| Symbols.SymbolTable.AddSymbol | src/MiniCSharpCompiler.Core/SemanticAnalysis/SymbolTable.cs:8-12 | the symbol is stored under its full name; an existing key throws and changes nothing |
| Symbols.SymbolTable.TryAddSymbol | src/MiniCSharpCompiler.Core/SemanticAnalysis/SymbolTable.cs:14-24 | it returns false and changes nothing exactly when the scope already holds the name; otherwise it adds one key and returns true, or throws on a duplicate key; a parentless symbol never gets false |
| Symbols.SymbolTable.TryGetSymbol | src/MiniCSharpCompiler.Core/SemanticAnalysis/SymbolTable.cs:26-27 | an exact full-name lookup: found exactly when the key is present, giving its symbol |
| Symbols.SymbolTable.AddNamespace | src/MiniCSharpCompiler.Core/SemanticAnalysis/SymbolTable.cs:29-30 | the imports gain the namespace (a set, so adding twice is adding once) and the symbols do not change |
| Symbols.SymbolTable.IsSymbolDeclaredInScope | src/MiniCSharpCompiler.Core/SemanticAnalysis/SymbolTable.cs:46-58 | true exactly when the scope is not null and a stored symbol has that name and that same parent object |
| Symbols.SymbolTable.TryResolveInScope | src/MiniCSharpCompiler.Core/SemanticAnalysis/SymbolTable.cs:60-75 | the first hit among "scope.name" for the scope and each ancestor, then the bare name; none when none is stored |
| Symbols.SymbolTable.TryResolveInNamespace | src/MiniCSharpCompiler.Core/SemanticAnalysis/SymbolTable.cs:77-89 | a hit is "ns.name" for an imported namespace; the result is none exactly when no import gives a hit |
| Symbols.SymbolTable.TryResolveSymbol | src/MiniCSharpCompiler.Core/SemanticAnalysis/SymbolTable.cs:32-44 | the scope chain wins; otherwise an imported namespace; none exactly when both fail |
| Symbols.FirstHitHead | src/MiniCSharpCompiler.Core/SemanticAnalysis/SymbolTable.cs:65-67 | a present candidate is the first hit |
| Symbols.FirstHitCons | src/MiniCSharpCompiler.Core/SemanticAnalysis/SymbolTable.cs:69-70 | a missing candidate passes the search on to the parent scope |
| Symbols.ResolveFindsDeclared | src/MiniCSharpCompiler.Core/SemanticAnalysis/SymbolTable.cs:60-75 | a stored symbol is found by its name from its own parent scope |
| SemanticWalk.GetTypeKind | src/MiniCSharpCompiler.Core/SemanticAnalysis/SemanticAnalyzer.cs:190-195 | a predefined type gives its keyword kind, an identifier gives `IdentifierName`, anything else gives `None`, and these three cases are told apart by the kind |
| Semantic.SemanticAnalyzer.constructor | src/MiniCSharpCompiler.Core/SemanticAnalysis/SemanticAnalyzer.cs:9-11 | a new analyzer has an empty table, no diagnostics and no scope |
| Semantic.SemanticAnalyzer.Analyze | src/MiniCSharpCompiler.Core/SemanticAnalysis/SemanticAnalyzer.cs:13-34 | ends in the state and outcome of `AnalyzeRun`, the whole walk over the compilation unit, on the table and the diagnostics; the imports gain the names of the usings before the first using without a name (`UsingNames`) exactly when the predefined types were declared, whatever comes after, and none when those threw; such a using throws `NullReference` before any member is walked; a clash throws `DuplicateKey` on the first clashing name, "int" on a second run; the diagnostics and the table only grow; on success the scope is restored |
| Semantic.SemanticAnalyzer.AddUsings | src/MiniCSharpCompiler.Core/SemanticAnalysis/SemanticAnalyzer.cs:19-23 | the import set gains exactly the names of the usings before the first one without a name, which throws `NullReference` (the null-forgiven `Name`); with none, the loop passes; the symbols are unchanged |
| Semantic.SemanticAnalyzer.AnalyzeMember | src/MiniCSharpCompiler.Core/SemanticAnalysis/SemanticAnalyzer.cs:36-51 | only namespaces and classes are examined; any other member changes nothing |
| Semantic.SemanticAnalyzer.AnalyzeNamespace | src/MiniCSharpCompiler.Core/SemanticAnalysis/SemanticAnalyzer.cs:53-72 | a namespace is a parentless symbol, so a duplicate throws instead of reporting; otherwise it is stored as a namespace and the scope is restored |
| Semantic.SemanticAnalyzer.AnalyzeMembers | src/MiniCSharpCompiler.Core/SemanticAnalysis/SemanticAnalyzer.cs:26-31 | the member loop ends in the state and outcome of `MembersRun`, stopping on the first throw |
| Semantic.SemanticAnalyzer.AnalyzeClass | src/MiniCSharpCompiler.Core/SemanticAnalysis/SemanticAnalyzer.cs:74-98 | a class already in scope adds exactly one diagnostic and is not entered; a duplicate key throws; otherwise it is stored in the current scope and the scope is restored |
| Semantic.SemanticAnalyzer.AnalyzeClassMembers | src/MiniCSharpCompiler.Core/SemanticAnalysis/SemanticAnalyzer.cs:87-95 | ends in the state and outcome of `ClassMembersRun`: only methods are examined, in order, stopping on the first throw; the scope is kept |
| Semantic.SemanticAnalyzer.AnalyzeMethod | src/MiniCSharpCompiler.Core/SemanticAnalysis/SemanticAnalyzer.cs:100-130 | the same three cases with the return type's kind; the parameters and body are visited only for a new method, and the scope is restored |
| Semantic.SemanticAnalyzer.AnalyzeParameters | src/MiniCSharpCompiler.Core/SemanticAnalysis/SemanticAnalyzer.cs:114-119 | the parameter loop ends in the state and outcome of `ParametersRun`; the scope is kept |
| Semantic.SemanticAnalyzer.AnalyzeParameter | src/MiniCSharpCompiler.Core/SemanticAnalysis/SemanticAnalyzer.cs:132-140 | a duplicate parameter adds one diagnostic and analysis continues; a new one is stored with its type's kind and adds no diagnostic |
| Semantic.SemanticAnalyzer.AnalyzeStatements | src/MiniCSharpCompiler.Core/SemanticAnalysis/SemanticAnalyzer.cs:142-153 | ends in the state and outcome of `StatementsRun`: only local declarations directly in the body are examined, in order; the scope is kept |
| Semantic.SemanticAnalyzer.AnalyzeLocalDeclaration | src/MiniCSharpCompiler.Core/SemanticAnalysis/SemanticAnalyzer.cs:155-171 | in closed form (`LocalDeclared`): the new diagnostics are exactly one "already exists" message per variable whose name the scope held or an earlier variable of the declaration used, in order; every other variable is stored under its scoped name with the declaration's type; the first variable whose key was already taken throws `DuplicateKey` and ends the loop |
| Semantic.SemanticAnalyzer.AnalyzeVariable | src/MiniCSharpCompiler.Core/SemanticAnalysis/SemanticAnalyzer.cs:159-169 | one loop turn: a name already in scope adds one diagnostic; a taken key throws and changes nothing; otherwise the variable is stored with the type's kind under the current scope |
| Semantic.SemanticAnalyzer.AddPredefinedTypes | src/MiniCSharpCompiler.Core/SemanticAnalysis/SemanticAnalyzer.cs:173-188 | `int`, `string`, `void` and `bool` are added as parentless classes with their keyword kinds; it succeeds exactly when none was present, and otherwise throws on the first one present |
| Semantic.SemanticAnalyzer.DeclareInScope | src/MiniCSharpCompiler.Core/SemanticAnalysis/SemanticAnalyzer.cs:76-166 | the shared "new Symbol in the current scope, then TryAddSymbol" step: refused when in scope, a throw on a duplicate key, otherwise stored under the scoped name |
| Semantic.SemanticAnalyzer.ReportError | src/MiniCSharpCompiler.Core/SemanticAnalysis/SemanticAnalyzer.cs:197-200 | the diagnostics gain exactly the one message, at the end |
| Semantic.PredefinedNamesDistinct | src/MiniCSharpCompiler.Core/SemanticAnalysis/SemanticAnalyzer.cs:175-181 | the four predefined names are distinct |
| Semantic.PredefinedStep | src/MiniCSharpCompiler.Core/SemanticAnalysis/SemanticAnalyzer.cs:183-187 | adding one predefined type keeps the loop invariant |
| Semantic.PredefinedClash | src/MiniCSharpCompiler.Core/SemanticAnalysis/SemanticAnalyzer.cs:183-187 | the first predefined name already present is the one that throws, and it is "int" whenever "int" was present before |
| Semantic.PredefinedDone | src/MiniCSharpCompiler.Core/SemanticAnalysis/SemanticAnalyzer.cs:183-188 | after the loop the table holds exactly the old keys plus the four names |
| Semantic.ClashUnique | src/MiniCSharpCompiler.Core/SemanticAnalysis/SemanticAnalyzer.cs:183-187 | only one predefined name can be the first clash |
| Semantic.LocalDeclaredEnds | src/MiniCSharpCompiler.Core/SemanticAnalysis/SemanticAnalyzer.cs:155-171 | the walk of a local declaration ends in its closed form |
| Semantic.DeclaredInIsDeclared | src/MiniCSharpCompiler.Core/SemanticAnalysis/SemanticAnalyzer.cs:76-166 | the scope object holds a name exactly when an entry of that name has the scope's key as parent, so the object view and the key view agree |
| Semantic.LeafStep | src/MiniCSharpCompiler.Core/SemanticAnalysis/SemanticAnalyzer.cs:132-166 | a declaration with no body, read off what `TryAddSymbol` did: a throw fails, a refusal reports one message, an addition stores the entry |
| Semantic.MethodStep | src/MiniCSharpCompiler.Core/SemanticAnalysis/SemanticAnalyzer.cs:100-130 | a method declaration read off what `TryAddSymbol` did: a new method's parameters and body are walked in the scope under its key |
| Semantic.ClassStep | src/MiniCSharpCompiler.Core/SemanticAnalysis/SemanticAnalyzer.cs:74-98 | a class declaration read off what `TryAddSymbol` did: a new class's members are walked in the scope under its key |
| Semantic.NamespaceStep | src/MiniCSharpCompiler.Core/SemanticAnalysis/SemanticAnalyzer.cs:53-72 | a parentless namespace is never refused; a new one's members are walked in the scope under its name |
| Semantic.DeclareOutcome | src/MiniCSharpCompiler.Core/SemanticAnalysis/SemanticAnalyzer.cs:76-166 | `TryAddSymbol` on symbols and `Declare` on entries give the same outcome and the same new table, keeping the table keyed by full names with every parent stored |
| Semantic.AbsAdd | src/MiniCSharpCompiler.Core/SemanticAnalysis/SemanticAnalyzer.cs:76-166 | storing a symbol under its full name stores its entry under that key |
| Semantic.ParentsStoredAdd | src/MiniCSharpCompiler.Core/SemanticAnalysis/SemanticAnalyzer.cs:76-166 | a new symbol whose parent is stored keeps every parent stored |
| SemanticWalk.VariablesClosedForm | src/MiniCSharpCompiler.Core/SemanticAnalysis/SemanticAnalyzer.cs:155-171 | the walk of a local declaration equals its closed form: reports for the refused variables, entries for the others, up to the first throw |
| SemanticWalk.FirstThrowIsFirst | src/MiniCSharpCompiler.Core/SemanticAnalysis/SemanticAnalyzer.cs:159-169 | the first throwing variable does throw, and none before it does |
| SemanticWalk.VariablesFrom | src/MiniCSharpCompiler.Core/SemanticAnalysis/SemanticAnalyzer.cs:159-169 | from any turn before the first throw, the rest of the loop ends in the closed form |
| SemanticWalk.VariableStep | src/MiniCSharpCompiler.Core/SemanticAnalysis/SemanticAnalyzer.cs:159-169 | one loop turn in the closed form: a refused variable adds its report, a throwing one stops, any other adds its entry |
| SemanticWalk.LeafRunCases | src/MiniCSharpCompiler.Core/SemanticAnalysis/SemanticAnalyzer.cs:132-166 | a declaration with no body has three outcomes: refused and reported, thrown, or stored |
| SemanticWalk.DeclaredSoFar | src/MiniCSharpCompiler.Core/SemanticAnalysis/SemanticAnalyzer.cs:159-169 | with no throw so far, a variable's name is in scope after the earlier turns exactly when the closed form calls it refused |
| SemanticWalk.TakenSoFar | src/MiniCSharpCompiler.Core/SemanticAnalysis/SemanticAnalyzer.cs:159-169 | with no throw so far, a variable that is not refused finds its key taken exactly when it was taken before the declaration or repeats an earlier variable |
| SemanticWalk.AddedKeeps | src/MiniCSharpCompiler.Core/SemanticAnalysis/SemanticAnalyzer.cs:159-169 | an entry present before the declaration is untouched by its variables |
| SemanticWalk.AddedHas | src/MiniCSharpCompiler.Core/SemanticAnalysis/SemanticAnalyzer.cs:159-169 | every variable that is not refused is stored under its own key |
| SemanticWalk.AddedOnly | src/MiniCSharpCompiler.Core/SemanticAnalysis/SemanticAnalyzer.cs:159-169 | every new key belongs to a variable that is not refused |
| SemanticWalk.FirstNamed | src/MiniCSharpCompiler.Core/SemanticAnalysis/SemanticAnalyzer.cs:159-169 | the first variable with a given name, with no earlier one of that name |
| SemanticWalk.KeyInjective | src/MiniCSharpCompiler.Core/SemanticAnalysis/SemanticAnalyzer.cs:76-166 | two names in the same scope share a key only when they are equal |
| Semantic.AnalyzeTwice | src/MiniCSharpCompiler.Core/SemanticAnalysis/SemanticAnalyzer.cs:16-186 | running `Analyze` twice on a new analyzer throws `DuplicateKey("int")` the second time, and the imports are then exactly `UsingNames` of the usings: the first run imported them whatever its outcome, and the second imported nothing |
| SemanticWalk.NamedPrefix | src/MiniCSharpCompiler.Core/SemanticAnalysis/SemanticAnalyzer.cs:19-23 | the count of usings the loop gets through: every using before it has a name, and the one at it, if any, has none |
| Semantic.AliasUsingThrows | src/MiniCSharpCompiler.Core/SemanticAnalysis/SemanticAnalyzer.cs:16-23 | for `using System; using Num = int; using X;` on a fresh table, only `System` is imported and the analysis throws `NullReference` |
| Semantic.PredefinedFresh | src/MiniCSharpCompiler.Core/SemanticAnalysis/SemanticAnalyzer.cs:173-188 | on an empty table the four predefined types are declared without a throw |

## Left out

- Regular expressions are written out as matcher functions; `\d` is taken as the ASCII digits `0`-`9`, while .NET also matches other Unicode decimal digits.
- The Roslyn surfaces are left out: `SyntaxFactory` node construction, `Token.ToSyntaxToken`, trivia lists, and `Location`, which is kept as an opaque position. Syntax nodes are small datatypes holding what the code reads from them.
- `Keywords.KeywordDictionary` is not part of this model; the keyword table is a parameter of the lexer.
- Exceptions are modelled as `Err` values of `Result`, or `Fail` values of `Outcome`, that stop the calling routine as an uncaught exception would. Only their kind is kept, not their message.
- `Console.WriteLine` logging in the semantic analyzer is left out. `SementicAnalyzer.cs` declares the same class without the logging; it is modelled by the same class.
- `ParserTableGenerator.LoadFromJson` reads a file and parses JSON. The terminal map is given to `LoadTerminalSymbolsMap` instead.
- The generator keeps the terminal map by value. Aliasing between the stored map and the caller's dictionary is not modelled.
- Iteration order of `HashSet` and `Dictionary` is not modelled.
  - FIRST and FOLLOW sets are Dafny sets, and the loops visit their elements in an unspecified order.
  - `TryResolveInNamespace` may return any imported namespace's hit. With two hits its contract does not say which one, as the order of a .NET `HashSet` is unspecified.
  - `IsSymbolDeclaredInScope` visits the stored symbols in any order.
- The two do-while bodies of the table generator, its FOLLOW inner loops and the body of its production loop are separate methods (`FirstPass`, `FollowPass`, `FollowProduction`, `FollowSymbol`, `FollowOccurrence`, `WriteLookaheads`), and its two `foreach` loops over lookaheads are one method (`WriteUnder`). The parser's three `while` loops over a list are also separate methods (`ParseUsingDirectives`, `ParseMemberDeclarations`, `ParseDottedTail`). Each does what the inlined loop does.
- The parser's class body is always empty, and a `<` type-parameter list fails at the `{` match, as in Parser.cs. Parser.cs has no expression or statement parsing.
- The semantic analyzer's syntax tree keeps only the declaration shapes it inspects:
  - a type is predefined, an identifier, or anything else;
  - using directives are the text of their names, or nothing when Roslyn's `Name` is null;
  - statements other than local declarations, and class members other than methods, are opaque.
- `Symbols.Symbol.FullName` has no contract of its own; `Symbols.FullNameIsPath` states what it computes.
- `Symbols.Symbol.Path` is a ghost function used only to state `FullNameIsPath`.
- The `Children` property is the `children` field. The only facts kept about it are the append in the constructor and in `AddChild`. The walkers' contracts do not track the children of every scope they create.
- Semantic.SemanticAnalyzer.AnalyzeNamespace: its "already exists" diagnostic branch is unreachable. A namespace symbol has no parent, so `TryAddSymbol` never returns false for it, and a duplicate throws instead. The model keeps the branch as a proved-dead case.
- The semantic analyzer's loops over members, parameters and variables are separate methods (`AnalyzeMembers`, `AnalyzeParameters`, `AnalyzeVariable` for one turn of the variable loop), as are the `using` loop (`AddUsings`) and the class-member loop (`AnalyzeClassMembers`). Each does what the inlined loop does.
- `Lexer.MakeToken`, `Lexer.LexFrom` and `Lexer.Lex` carry no contracts of their own. What they compute is stated by `MakeTokenValue`, `Scan`, `LexBounded` and `LexWellFormed`.
- The main parsing chain (`MemberAt`, `MembersAt`, `CompilationUnitAt` and the methods that agree with them) models `Parser.cs` as written, so every class declaration it returns has no modifiers. The corrected chain (`ParseModifiersKept`, `MemberAtKept`, `ParseMemberDeclarationKept`) stands beside it; see the finding below.

## Findings

| source | as written | input that shows it | evidently intended | confidence | as-written member | corrected member |
|---|---|---|---|---|---|---|
| src/MiniCSharpCompiler.Core/Parser/Parser.cs:103-114 | `ParseModifiers` calls `modifiers.Add(...)` on an immutable `SyntaxTokenList` and discards the result, so it always returns an empty list while still consuming the modifier tokens | `public class C { } ;` parses into a class declaration with no modifiers | the declaration carries the `public`, `private` and `static` tokens that precede `class` | not executed | Parser.Parser.ParseModifiers, Parser.MemberAt, ParserProperties.ModifiersDropped | Parser.Parser.ParseModifiersKept, Parser.Parser.ParseMemberDeclarationKept, Parser.MemberAtKept, ParserProperties.ModifiersKept |
