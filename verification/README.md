# LogoVM front end: symbol table, loader, lexer and tree-building actions

This project models three parts of a small Logo-to-stack-VM toolchain in Dafny and proves
properties of them:

- **The symbol table** (`logoasm/symtable.py`), in module `SymTable`. It is a map from
  translated names to attribute dictionaries. It supports add, set, get, filter-by-class,
  remove and increment-usage.
  - The process-wide dictionary is an explicit `Table` value.
  - The case-insensitivity flag is the parameter `ci`.
  - Every raise is an `Err` from module `Errors`.
  - Attribute values are strings, integers or lists of instruction strings. An attribute
    that must be an integer but is not gives `TypeMismatch`, where Python raises
    `TypeError`.
- **The loader** (`logovm/loader.py`), in module `Loader`. It is one pass over the FUNC
  entries. For each `LABEL <name>` instruction it stores the instruction's index as the
  `pc` of `<name>`, through `set_symbol`.
  - The pass is a recursive function (`Load`) and also the nested loop of the source
    (`Loader`); the two are proved equal.
  - It also has a declarative reading: the writes, applied in order, with the last write
    winning.
  - Python's dictionary iteration order is the parameter `funcs`.
- **The lexer** (`compiler/compiler.py`), in module `Lexer`. It is a total function from
  text to tokens. Each token carries its type, value, line and offset.
- **The semantic actions** (`compiler/compiler.py`), in module `Syntax`. These are the
  values the parse actions build. They are Python values: `None`, ints, strings, tuples,
  lists, and the `new_node` / `new_leaf` dictionaries.
  - A typed syntax tree is encoded with those actions and decoded back.
  - Decoding undoes encoding.
  - Every decodable value is the encoding of its tree.

Modules `Wrappers` (`Option`, `Result`) and `Text` (ASCII case mapping, prefixes, searching
for a character) are shared helpers.

Facts about the code that the model keeps as they are:

- `p_declare_func` (compiler/compiler.py:91-93) only builds a `Declare function` leaf. It
  never calls `add_symbol`, so declaring a procedure does not touch the symbol table.
- `set_symbol` (logoasm/symtable.py:64-78) rejects only a write of `name` and a write of
  `lineno` over a real line. It lets `type` change.
- In the merge branch of `add_symbol` (logoasm/symtable.py:57), `obj.update(kwargs)` may
  overwrite `name` and `type` with whatever the caller passes.
- `t_ID` (compiler/compiler.py:45) looks up `value.upper()` among lowercase keys, so it
  never matches a reserved word (second finding below).
- `increment_symbol_usage` (logoasm/symtable.py:100-106) adds any `amount`, negative ones
  included. Usage only grows when `amount` is non-negative.

## Model

| member | source | states |
|---|---|---|
| SymTable.Key | logoasm/symtable.py:44-45 | the key has the name's length; it is the name itself in case-sensitive mode; in case-insensitive mode it has no lowercase letter |
| SymTable.KeyFoldsLikeName | logoasm/symtable.py:44-45 | in case-insensitive mode the key folds to the same lowercase text as the name |
| SymTable.KeyIdentifiesSpellings | logoasm/symtable.py:44-45 | two spellings share an entry exactly when they are equal up to letter case (case-insensitive mode) or exactly equal (otherwise); translating twice changes nothing |
| SymTable.IntAttr | logoasm/symtable.py:74 | `get(attr, default)` read as an integer: the default when absent, the stored integer when it is one, no value for a string or list |
| SymTable.NewEntry | logoasm/symtable.py:59-61 | a new entry holds the given attributes plus `name` (the key) and `type`; every other given attribute is kept |
| SymTable.AddSymbol | logoasm/symtable.py:48-61 | succeeds exactly when the key is absent or holds a forward reference; a real stored line is a redefinition naming that line; an absent key gets the new entry and a forward reference has the attributes merged in; no other entry changes; the keys grow by the added key only; entries that carried `name` and `type` still carry them |
| SymTable.AddSymbolAsWritten | logoasm/symtable.py:52-54 | as written, fails exactly when the key is already declared, always with an attribute-misuse error; otherwise agrees with the intended `AddSymbol` |
| SymTable.SetSymbol | logoasm/symtable.py:64-78 | succeeds exactly when the symbol is known, `name` is not written, and `lineno` is written only over a forward reference; each failure gives its own error; on success only that entry changes, it gains exactly the written attributes with their values and keeps the others, and it keeps its `name` and any real line |
| SymTable.GetSymbol | logoasm/symtable.py:81-83 | never fails; finds an entry exactly when the translated key is present, and then returns that entry |
| SymTable.SymbolsByClass | logoasm/symtable.py:86-88 | holds exactly the keys whose entry has the given `type`, each with its entry unchanged |
| SymTable.RemoveSymbol | logoasm/symtable.py:91-97 | succeeds exactly when the translated key is present; deletes that key and nothing else; an absent key is an unknown-symbol error |
| SymTable.IncrementUsage | logoasm/symtable.py:100-106 | an unknown symbol fails with the line of the use; otherwise `usage` (absent reads as 0) becomes old plus `amount` and nothing else in the table changes; usage does not decrease when `amount` is non-negative |
| SymTable.AddThenGet | logoasm/symtable.py:48-61 | after an add, lookup finds exactly the names whose key is the added key or was already present |
| SymTable.CaseModeDecidesLookup | logoasm/symtable.py:44-45 | after adding `Foo`, looking up `FOO` finds the entry exactly in case-insensitive mode |
| SymTable.AddRemoveRoundTrip | logoasm/symtable.py:91-97 | adding a new name and removing it gives back the original table |
| SymTable.ForwardReferenceUpgrade | logoasm/symtable.py:52-57 | a name added with line -1, then at a real line n, stores n; a third add is a redefinition citing n |
| SymTable.AsWrittenForwardUpgradeFails | logoasm/symtable.py:53-54 | as written, the second step of that upgrade fails although the intended check accepts it |
| SymTable.IncrementsCompose | logoasm/symtable.py:100-106 | two increments by a and b equal one increment by a + b |
| SymTable.SetsKeepIdentity | logoasm/symtable.py:70-77 | across any run of successful `set_symbol` calls, no entry disappears, no `name` changes and a real `lineno` keeps its line |
| SymTable.AddJoinsItsClass | logoasm/symtable.py:86-88 | a new symbol of class c joins the class-c view with its entry and leaves every other class view unchanged |
| Loader.Classify | logovm/loader.py:35-36 | an instruction is ignored exactly when it does not start with `LABEL`; a `LABEL` instruction without a space cannot be split; otherwise the label name is the text after the first space |
| Loader.ClassifyLabelRoundTrip | logovm/loader.py:35-36 | `LABEL ` followed by any name is read back as a label for exactly that name |
| Loader.Commands | logovm/loader.py:34 | a list of instructions is visited as itself and a string one character at a time (no character string starts with `LABEL`); an integer is not iterable |
| Loader.CodeOf | logovm/loader.py:30-33 | a function without `code` is an undefined reference to that function |
| Loader.Loader | logovm/loader.py:26-37 | the nested loops compute exactly the recursive pass `Load`, on success and on every error |
| Loader.LoadSucceedsExactly | logovm/loader.py:29-37 | the pass succeeds exactly when every FUNC symbol has iterable code and every `LABEL` in it is well formed and names an existing symbol; the resulting table is the original with every label write applied in scan order |
| Loader.ApplyPcsByLastPc | logovm/loader.py:34-37 | applying the writes in order keeps the key set and gives each entry the `pc` of the last write to its key, leaving unwritten entries as they were |
| Loader.LastPcIsLastWrite | logovm/loader.py:34-37 | the address kept for a key is that of the latest write to it |
| Loader.LastPcUnwritten | logovm/loader.py:34-37 | a key that no write targets keeps no address |
| Loader.LoadResolvesLabels | logovm/loader.py:34-37 | after a successful pass every written key exists; a label's `pc` is the index of its last `LABEL` instruction in scan order; every entry no label names is unchanged |
| Loader.LoadOnlyWritesPc | logovm/loader.py:29-37 | whether the pass succeeds or fails, it adds and removes no key and changes no attribute other than `pc` |
| Loader.RunCode | logovm/loader.py:34-37 | scanning one function's code keeps the key set of the table |
| Loader.ScanCode | logovm/loader.py:34-37 | the inner loop over one function's code computes exactly `RunCode` |
| Loader.RunCodeStep | logovm/loader.py:34-37 | one instruction: a non-`LABEL` one is skipped; a `LABEL` without a space stops with a malformed-label error; a label writes `pc` through `set_symbol` and goes on, or stops with that call's error |
| Loader.RunFuncs | logovm/loader.py:29-37 | the pass over the remaining FUNC symbols keeps the key set and raises only the loader's own errors |
| Loader.Load | logovm/loader.py:26-37 | `loader()` keeps the key set and raises only an undefined reference, a non-iterable code, a malformed label or an unknown symbol |
| Loader.LoadableCons | logovm/loader.py:29-37 | a list of functions loads exactly when the first has code whose labels all resolve and the rest load |
| Loader.RunCodeErrors | logovm/loader.py:35-37 | scanning code fails only on a `LABEL` without a space or on a label that names no symbol |
| Loader.LoadStopsAtUndefined | logovm/loader.py:30-33 | an undefined-reference error names the first listed FUNC without `code`; every earlier function was loadable and its writes stay in the table |
| Loader.LoadIdempotent | logovm/loader.py:26-37 | loading a table that has already loaded succeeds again and gives the same table |
| Loader.LabelExample | logovm/loader.py:26-37 | code `LABEL L1`, `PUSH 1`, `LABEL L2` gives L1 the pc 0 and L2 the pc 2 and changes nothing else |
| Loader.UndefinedExample | logovm/loader.py:30-33 | the same function without code fails as an undefined reference and leaves the table unchanged |
| Lexer.PunctKind | compiler/compiler.py:15-21 | exactly the seven characters `: + - * / ( )` are punctuators, and none gets a reserved-word, `ID` or `NUMBER` type |
| Lexer.ReservedKeysAreLowercase | compiler/compiler.py:24-35 | the keys of `reserved` are distinct and each starts with a lowercase letter; every value is a reserved-word type |
| Lexer.FoldsToKey | compiler/compiler.py:45 | comparing a word with a key character by character, folding each character, is the same as comparing the folded word with the key |
| Lexer.KindInAbsent | compiler/compiler.py:45 | `get(key, 'ID')` gives `ID` when no entry has the word's key |
| Lexer.KindInPresent | compiler/compiler.py:45 | in a table without repeated keys, `get(key, 'ID')` gives the type of the entry whose key is the word's key |
| Lexer.KindInByKey | compiler/compiler.py:45 | two words with the same key get the same type |
| Lexer.WordKindSpec | compiler/compiler.py:24-46 | a word gets the type of the `reserved` entry whose key equals its folded text; it gets `ID` exactly when no key equals it; the type is always `ID` or a reserved-word type |
| Lexer.KeywordsNeverRecognised | compiler/compiler.py:43-46 | as written, every word gets the type `ID` |
| Lexer.LexYieldsNoKeywords | compiler/compiler.py:24-46 | as written, the lexer emits no reserved-word token for any input |
| Lexer.ReservedWordsLexAsId | compiler/compiler.py:43-46 | as written, `if` and `IF` each lex as one `ID` token |
| Lexer.IntendedKeywordsIgnoreCase | compiler/compiler.py:45 | with the lookup folded to lowercase, words equal up to case get the same type, and a word whose lowercase form is a key gets that key's type |
| Lexer.IntendedIfInAnyCase | compiler/compiler.py:24-45 | with the lookup folded to lowercase, `if`, `If` and `IF` are all typed `IF`, the type of the `if` entry |
| Lexer.IntendedLexesIf | compiler/compiler.py:43-46 | with the lookup folded to lowercase, the text `IF` lexes as one `IF` token |
| Lexer.DecimalRoundTrip | compiler/compiler.py:39 | reading back the decimal text of n gives n |
| Lexer.Lex | compiler/compiler.py:12-59 | the lexer as written: every token is located in the text and the tokens tile it from line 1 on (see `TokensFaithful`); no token has a reserved-word type |
| Lexer.LexIntended | compiler/compiler.py:12-59 | the lexer with the lookup folded to lowercase: every token is located in the text and the tokens tile it from line 1 on |
| Lexer.LexFrom | compiler/compiler.py:12-56 | the rules applied from an offset until the text is used up; it has no contract of its own, and `TokensFaithful` and `TilingIsLexing` characterise what it yields |
| Lexer.LexNext | compiler/compiler.py:12-56 | the rule at an offset followed by the rules after it; no contract of its own (see `LexFrom`) |
| Lexer.Scan | compiler/compiler.py:12-56 | each rule consumes at least one character, emits at most one token, and stamps it with its offset and the current line |
| Lexer.NewlineRunCount | compiler/compiler.py:49-51 | a run of newlines holds as many newlines as its length |
| Lexer.RunEndMaximal | compiler/compiler.py:37-51 | the digit, identifier and newline rules match maximal runs: every character in the run is of the class and the one after it is not |
| Lexer.ScanLocated | compiler/compiler.py:12-56 | what one rule emits is the token the text holds at that offset, stamped with the current line |
| Lexer.ScanCountsLines | compiler/compiler.py:49-51 | the line counter one rule passes on is the old one plus the newlines it consumed |
| Lexer.ScanTokenAt | compiler/compiler.py:12-56 | the token one rule emits is what the text holds at its offset |
| Lexer.ScanTiles | compiler/compiler.py:12-56 | a rule that emits nothing consumes only spaces, tabs, newlines and illegal characters; a rule that emits a token consumes exactly that token |
| Lexer.TokensFaithful | compiler/compiler.py:12-56 | every token is what the text holds at its offset (a `NUMBER` starts a digit run and has the decimal value of the maximal run there; a word is the maximal identifier run, typed by the lookup; a punctuator is that one character); offsets strictly increase; a token's line is 1 plus the newlines before it; and the tokens tile the text: each ends at or before the next begins, and every character outside the tokens is a space, tab, newline or illegal character |
| Lexer.TilingIsLexing | compiler/compiler.py:12-56 | conversely, any tokens located in the text that tile it are exactly what the lexer emits, so no other token stream has both properties |
| Lexer.NoTokenCharsNoTokens | compiler/compiler.py:12-56 | text of only spaces, tabs, newlines and illegal characters gives no token |
| Lexer.ScanNumber | compiler/compiler.py:37-40 | the digits of n followed by a non-digit are read as one `NUMBER` with value n |
| Lexer.ScanWord | compiler/compiler.py:43-46 | an identifier followed by a non-identifier character is read as one token holding exactly that text |
| Lexer.RelexRoundTrip | compiler/compiler.py:12-56 | printing the tokens of any text, separated by spaces, and lexing the result gives the same types and values |
| Lexer.TokenAtPrintable | compiler/compiler.py:12-56 | every token a rule emits is a `NUMBER`, a word typed by the lookup, or a single punctuator, so it can be printed and read back |
| Lexer.LexPrinted | compiler/compiler.py:12-56 | the text of such a token followed by a space is lexed as that token, and lexing goes on behind the space |
| Lexer.RelexPrinted | compiler/compiler.py:12-56 | lexing printed tokens that some rule can emit gives back their types and values in order |
| Syntax.ConsList | compiler/compiler.py:65-74 | the list rules build a non-empty list whose head is the new item and whose tail is the earlier list; `None` stands for no items |
| Syntax.BuildList | compiler/compiler.py:65-74 | reducing a list rule (`statements`, and `func_params` at lines 103-112) over items gives `None` for no items and otherwise the list of the items in source order, never an empty list |
| Syntax.ProgramNode | compiler/compiler.py:61-63 | the `Program` node reads back as a program exactly when its list reads back as statements, and then as those statements |
| Syntax.StatementLeaf | compiler/compiler.py:76-84 | the `Statement` leaf reads back as whatever statement its body reads back as, and fails when the body does |
| Syntax.CallLeaf | compiler/compiler.py:86-88 | the `Call function` leaf reads back exactly when its parameters do, as a call of that name with those parameters |
| Syntax.DeclareLeaf | compiler/compiler.py:91-93 | the `Declare function` leaf reads back exactly when its parameters and body do, as a declaration with that keyword, name, parameters and body |
| Syntax.NumberTuple | compiler/compiler.py:95-97 | a `number` tuple inside the `Parameter` tuple of `p_func_param` reads back as that literal when it is not negative, and not at all otherwise |
| Syntax.IdentTuple | compiler/compiler.py:99-101 | an `Identifier` tuple inside the `Parameter` tuple of `p_func_param` reads back as that named parameter |
| Syntax.ParameterTuple | compiler/compiler.py:113-120 | a `Parameter` tuple reads back only when its content is the identifier or number tuple of the parameter it reads as |
| Syntax.IfLeaf | compiler/compiler.py:133-135 | the `IF` leaf reads back exactly when its body does, as that conditional |
| Syntax.IfElseLeaf | compiler/compiler.py:137-139 | the `IF ELSE` leaf reads back exactly when both bodies do, as that two-way conditional |
| Syntax.WhileLeaf | compiler/compiler.py:142-144 | the `WHILE` leaf reads back exactly when its body does, as that loop |
| Syntax.UnaryLeaf | compiler/compiler.py:146-151 | a two-element `MATH EXPRESSION` leaf reads back exactly when its operand does, as that unary expression |
| Syntax.GroupLeaf | compiler/compiler.py:153-157 | a one-element `MATH EXPRESSION` leaf reads back exactly when its inner expression does, as that group |
| Syntax.BinaryLeaf | compiler/compiler.py:159-164 | a three-element `MATH EXPRESSION` leaf, as `p_expression` and `p_term` (lines 172-177) build it, reads back exactly when both operands do, as that binary expression |
| Syntax.PassThrough | compiler/compiler.py:166-170 | a lone operand passed through by `p_expression_term` (and `p_term_factor`, lines 179-183) reads back as the expression it already was |
| Syntax.NumberLeaf | compiler/compiler.py:185-189 | the `Number` leaf reads back as that number when it is not negative, and not at all otherwise |
| Syntax.ParamsRoundTrip | compiler/compiler.py:95-120 | the `Parameter` tuples of `:name` and number parameters read back as those parameters, in order |
| Syntax.ParamsCanonical | compiler/compiler.py:95-120 | a parameter-list value that reads back is exactly the value the actions build for what it reads as |
| Syntax.ExprRoundTrip | compiler/compiler.py:146-189 | the `MATH EXPRESSION` and `Number` leaves (operator first, lone operands passed through) read back as the expression they were built from |
| Syntax.ExprCanonical | compiler/compiler.py:146-189 | an expression value that reads back is exactly the value built for what it reads as |
| Syntax.StmtRoundTrip | compiler/compiler.py:76-144 | the `Statement` leaf around each statement kind reads back as that statement |
| Syntax.StmtsRoundTrip | compiler/compiler.py:65-74 | a statement list reads back as its statements, in order |
| Syntax.StmtCanonical | compiler/compiler.py:76-144 | a statement value that reads back is exactly the value built for what it reads as |
| Syntax.ProgramRoundTrip | compiler/compiler.py:61-63 | the `Program` node reads back as its statements |
| Syntax.ProgramCanonical | compiler/compiler.py:61-63 | a value that reads back as a program is exactly the value built for that program, so no two programs share a tree |

## Left out

- PLY's LALR machinery is not modelled: table generation, conflict resolution and the parse
  driver. It lives in a library that is not part of this model. The actions are modelled
  on the values of their right-hand sides.
- `p_error` and the message of `t_error` are left out, because both only print. The
  skipping done by `t_error` is modelled.
- The module-level demo parse and its YAML dump are left out, because they are I/O.
- `logging` and the contents of `logovm.errors` are foreign code. `UndefinedReference` is
  an error variant.
- Exception classes and messages are reduced to error variants. Both exception
  constructors call `super.__init__`, which raises `TypeError` itself. That failure is not
  distinguished from the error meant.
- The process-wide table and the case flag are parameters, not globals.
- Python's dictionary iteration order is the parameter `funcs`. `FuncOrder` requires it
  to list every FUNC key exactly once.
- Attribute values that are `None` are not modelled, so `data.get("code")` returning a
  stored `None` is the same as an absent `code`.
- Case mapping and digits are ASCII only. Python's `upper()`, `\d` and `int()` also accept
  non-ASCII letters and digits.
- SymTable.SymbolsByClass: requires every entry to carry `type`, because the source indexes
  it unguarded. `Valid` asks every entry to carry both `name` and `type`, and every table
  built by the operations keeps that.
- The model reads each function's code from the table the pass started on, while the
  source reads it from the live table. The pass writes only `pc` (`LoadOnlyWritesPc`), so
  the code read is the same.
- Lexer.LexIntended: does not model PLY's rejection of a token type missing from the
  `tokens` tuple. It assumes the correction adds `NOT`, `AND`, `OR` and `SET` there too.
- The typed tree does not carry the grammar's precedence levels or its operator sets. For
  example, a binary node may sit under a factor, and any string may be an operator. The
  actions do not depend on either, so the round trips hold for every tree.

## Findings

| source | as written | input that shows it | evidently intended | confidence | as-written member | corrected member |
|---|---|---|---|---|---|---|
| logoasm/symtable.py:54 | the redefinition check calls `.get("lineno")` on the key string, not on the stored entry, so a second `add_symbol` of any declared name raises | `add_symbol("p", "FUNC", lineno=-1)` then `add_symbol("p", "FUNC", lineno=5)` | read `lineno` from the stored entry (`obj`), with an absent `lineno` read as -1 as `set_symbol` reads it (logoasm/symtable.py:74): merge into a forward reference, reject a real line as a redefinition | high (not executed) | SymTable.AsWrittenForwardUpgradeFails | SymTable.ForwardReferenceUpgrade |
| compiler/compiler.py:45 | the reserved-word lookup uses `value.upper()` against lowercase keys, so no word is ever reserved | the text `if` (or `IF`, `to`) lexes as `ID` | fold case so that the lowercase keys match: `IF`, `If` and `if` all lex as `IF`. The fix also needs `NOT`, `AND`, `OR` and `SET` added to the `tokens` tuple (compiler/compiler.py:6-9): PLY rejects a token whose type is not in it, so without them `not`, `and`, `or` and `set` would stop the corrected lexer with an error | high (not executed) | Lexer.LexYieldsNoKeywords | Lexer.IntendedKeywordsIgnoreCase |
