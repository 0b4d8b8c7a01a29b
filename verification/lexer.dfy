/** The lexer of the Logo compiler, as a total function from source text to tokens.

    The source builds it with PLY from these rules: space and tab are skipped; a run of
    newlines is dropped and advances the line counter by its length; a run of digits is a
    `NUMBER` whose value is its decimal integer; an identifier run gets its type from the
    reserved-word table; seven one-character punctuators; any other character is reported
    and skipped. The rules start on disjoint characters, so the order PLY tries them in does
    not matter. Line numbers start at 1, as PLY's `lexer.lineno` does. */
module Lexer {
  import opened Wrappers
  import opened Text

  /** Token types: the `tokens` tuple plus the four reserved-word types outside it (`NOT`,
      `AND`, `OR`, `SET`), which only the lookup folded to lowercase can produce. */
  datatype TokenKind =
    | To | Id | Number | End | Colon | If | Then | Else | While
    | Plus | Minus | Times | Divide | LParen | RParen
    | Not | And | Or | Set

  /** A token's value: the integer of a `NUMBER`, otherwise the matched source text. */
  datatype TokenValue = Num(n: nat) | Lexeme(text: string)

  /** A token with its line number and its offset in the source (PLY's `lexpos`). */
  datatype Token = Token(kind: TokenKind, value: TokenValue, line: int, pos: nat)

  /** The `reserved` table, entry by entry in the order the source lists it: lowercase
      keys. */
  const Reserved: seq<(string, TokenKind)> :=
    [("if", If), ("then", Then), ("else", Else), ("end", End), ("while", While),
     ("not", Not), ("to", To), ("and", And), ("or", Or), ("set", Set)]

  /** A table read as a dictionary literal: no key appears twice. */
  predicate DistinctKeys(table: seq<(string, TokenKind)>) {
    forall i, j :: 0 <= i < j < |table| ==> table[i].0 != table[j].0
  }

  /** The kinds only a reserved word can have. */
  predicate IsReservedKind(k: TokenKind) {
    k in {To, End, If, Then, Else, While, Not, And, Or, Set}
  }

  /** How `t_ID` looks a word up: `AsWritten` uses `text.upper()` as the code does;
      `Intended` folds case the other way, so that the lowercase keys can match. */
  datatype KeywordLookup = AsWritten | Intended

  /** The key the policy looks a word up by: `text.upper()` as written, `text.lower()` as
      intended. */
  function Key(lookup: KeywordLookup, text: string): string {
    if lookup == AsWritten then Upper(text) else Lower(text)
  }

  /** One character of the key. */
  function FoldChar(lookup: KeywordLookup, c: char): char {
    if lookup == AsWritten then UpperChar(c) else LowerChar(c)
  }

  /** `key == Key(lookup, text)`, compared character by character (see `FoldsToKey`). */
  predicate FoldsTo(lookup: KeywordLookup, text: string, key: string) {
    && |text| == |key|
    && (|text| == 0 || (FoldChar(lookup, text[0]) == key[0] && FoldsTo(lookup, text[1..], key[1..])))
  }

  /** `table.get(key, 'ID')`: the type of the first entry whose key is the word's key, and
      `ID` when there is none. */
  function KindIn(table: seq<(string, TokenKind)>, lookup: KeywordLookup, text: string): TokenKind {
    if |table| == 0 then Id
    else if FoldsTo(lookup, text, table[0].0) then table[0].1
    else KindIn(table[1..], lookup, text)
  }

  /** The type `t_ID` gives a word: `reserved.get(key, 'ID')`. */
  function WordKind(lookup: KeywordLookup, text: string): TokenKind {
    KindIn(Reserved, lookup, text)
  }

  predicate IsIdentStart(c: char) { IsLowerAscii(c) || IsUpperAscii(c) || c == '_' }

  predicate IsIdentChar(c: char) { IsIdentStart(c) || IsDigit(c) }

  /** `t_ignore`. */
  predicate IsIgnored(c: char) { c == ' ' || c == '\t' }

  /** The one-character punctuators `t_COLON` ... `t_RPAREN`. */
  function PunctKind(c: char): (r: Option<TokenKind>)
    ensures r.Some? ==> !IsReservedKind(r.value) && r.value != Id && r.value != Number
    ensures r.Some? <==> c in ":+-*/()"
  {
    match c
    case ':' => Some(Colon)
    case '+' => Some(Plus)
    case '-' => Some(Minus)
    case '*' => Some(Times)
    case '/' => Some(Divide)
    case '(' => Some(LParen)
    case ')' => Some(RParen)
    case _ => None
  }

  /** The character classes the run rules repeat. */
  datatype CharClass = Digits | IdentChars | Newlines

  predicate InClass(c: char, cls: CharClass) {
    match cls
    case Digits => IsDigit(c)
    case IdentChars => IsIdentChar(c)
    case Newlines => c == '\n'
  }

  /** The end of the maximal run of `cls` characters starting at `i`. */
  function RunEnd(src: string, i: nat, cls: CharClass): (j: nat)
    requires i <= |src|
    ensures i <= j <= |src|
    decreases |src| - i
  {
    if i < |src| && InClass(src[i], cls) then RunEnd(src, i + 1, cls) else i
  }

  /** The run is maximal: every character in it is of the class, and the one after it is
      not. */
  lemma {:induction false} RunEndMaximal(src: string, i: nat, cls: CharClass)
    requires i <= |src|
    ensures forall k :: i <= k < RunEnd(src, i, cls) ==> InClass(src[k], cls)
    ensures RunEnd(src, i, cls) == |src| || !InClass(src[RunEnd(src, i, cls)], cls)
    decreases |src| - i
  {
    if i < |src| && InClass(src[i], cls) {
      RunEndMaximal(src, i + 1, cls);
    }
  }

  predicate AllDigits(s: string) { forall k :: 0 <= k < |s| ==> IsDigit(s[k]) }

  /** `int(s)` for a string of ASCII digits. */
  function DecimalValue(s: string): nat
    requires AllDigits(s)
    decreases |s|
  {
    if |s| == 0 then 0
    else DecimalValue(s[..|s| - 1]) * 10 + (s[|s| - 1] as int - '0' as int)
  }

  /** `str(n)`: the decimal digits of `n`, without leading zeros. */
  function DecimalString(n: nat): (s: string)
    ensures |s| > 0 && AllDigits(s)
    decreases n
  {
    var d := ['0' + (n % 10) as char];
    if n < 10 then d else DecimalString(n / 10) + d
  }

  /** Reading back the decimal text of `n` gives `n`. */
  lemma {:induction false} DecimalRoundTrip(n: nat)
    ensures DecimalValue(DecimalString(n)) == n
    decreases n
  {
    var s := DecimalString(n);
    assert s[..|s| - 1] == (if n < 10 then [] else DecimalString(n / 10));
    if n >= 10 {
      DecimalRoundTrip(n / 10);
    }
  }

  /** What one rule does at offset `i`: the tokens it emits (none or one), where the next
      rule starts, and the line counter after it. */
  datatype Step = Step(emitted: seq<Token>, next: nat, nextLine: int)

  /** The rule that matches at offset `i`, applied once. */
  function Scan(src: string, i: nat, line: int, lookup: KeywordLookup): (r: Step)
    requires i < |src|
    ensures i < r.next <= |src|
    ensures |r.emitted| <= 1
    ensures forall k :: 0 <= k < |r.emitted| ==> r.emitted[k].pos == i && r.emitted[k].line == line
  {
    var c := src[i];
    if IsIgnored(c) then Step([], i + 1, line)
    else if IsDigit(c) then
      var j := RunEnd(src, i, Digits);
      RunEndMaximal(src, i, Digits);
      Step([Token(Number, Num(DecimalValue(src[i..j])), line, i)], j, line)
    else if IsIdentStart(c) then
      var j := RunEnd(src, i + 1, IdentChars);
      Step([Token(WordKind(lookup, src[i..j]), Lexeme(src[i..j]), line, i)], j, line)
    else if c == '\n' then
      var j := RunEnd(src, i, Newlines);
      Step([], j, line + (j - i))
    else if PunctKind(c).Some? then
      Step([Token(PunctKind(c).value, Lexeme([c]), line, i)], i + 1, line)
    else
      Step([], i + 1, line)
  }

  /** Tokens from offset `i` on, with the line counter at `line`: the rules applied until
      the input is used up. */
  function LexFrom(src: string, i: nat, line: int, lookup: KeywordLookup): seq<Token>
    requires i <= |src|
    decreases |src| - i, 1
  {
    if i == |src| then [] else LexNext(src, i, line, lookup)
  }

  /** The rule at offset `i`, then the rules after it. */
  function LexNext(src: string, i: nat, line: int, lookup: KeywordLookup): seq<Token>
    requires i < |src|
    decreases |src| - i, 0
  {
    var step := Scan(src, i, line, lookup);
    step.emitted + LexFrom(src, step.next, step.nextLine, lookup)
  }

  /** The lexer as written: its tokens are located in and tile the text from line 1 on, and
      none of them is a reserved word. */
  function Lex(src: string): (ts: seq<Token>)
    ensures Located(src, 0, 1, AsWritten, ts) && Tiles(src, 0, ts)
    ensures forall k :: 0 <= k < |ts| ==> !IsReservedKind(ts[k].kind)
  {
    TokensFaithful(src, 0, 1, AsWritten);
    LexYieldsNoKeywords(src, 0, 1);
    LexFrom(src, 0, 1, AsWritten)
  }

  /** The lexer with the reserved-word lookup folded to lowercase: its tokens are located in
      and tile the text from line 1 on. It assumes `NOT`, `AND`, `OR` and `SET` are added to
      the `tokens` tuple as well; as the tuple stands, PLY rejects a token whose type is not
      in it, so `not`, `and`, `or` and `set` would stop this lexer with an error. */
  function LexIntended(src: string): (ts: seq<Token>)
    ensures Located(src, 0, 1, Intended, ts) && Tiles(src, 0, ts)
  {
    TokensFaithful(src, 0, 1, Intended);
    LexFrom(src, 0, 1, Intended)
  }

  // ---------------------------------------------------------------------------
  // The reserved-word lookup

  /** The key of a word is its first character folded, then the key of the rest. */
  lemma KeyCons(lookup: KeywordLookup, text: string)
    requires |text| > 0
    ensures Key(lookup, text) == [FoldChar(lookup, text[0])] + Key(lookup, text[1..])
  {
  }

  /** The character-by-character comparison is comparison with the folded word. */
  lemma {:induction false} FoldsToKey(lookup: KeywordLookup, text: string, key: string)
    ensures FoldsTo(lookup, text, key) <==> Key(lookup, text) == key
  {
    var k := Key(lookup, text);
    if |text| == |key| && |text| > 0 {
      FoldsToKey(lookup, text[1..], key[1..]);
      KeyCons(lookup, text);
      if k == key {
        assert k[0] == FoldChar(lookup, text[0]) && k[1..] == Key(lookup, text[1..]);
      }
    }
  }

  /** A word whose key is no key of the table gets `ID`. */
  lemma {:induction false} KindInAbsent(table: seq<(string, TokenKind)>, lookup: KeywordLookup, text: string)
    requires forall e :: e in table ==> e.0 != Key(lookup, text)
    ensures KindIn(table, lookup, text) == Id
  {
    if |table| > 0 {
      FoldsToKey(lookup, text, table[0].0);
      assert table[0] in table;
      assert forall e :: e in table[1..] ==> e in table;
      KindInAbsent(table[1..], lookup, text);
    }
  }

  /** In a table without repeated keys, a word whose key is a key of the table gets that
      entry's type. */
  lemma {:induction false} KindInPresent(table: seq<(string, TokenKind)>, lookup: KeywordLookup, text: string,
                                         v: TokenKind)
    requires DistinctKeys(table)
    requires (Key(lookup, text), v) in table
    ensures KindIn(table, lookup, text) == v
  {
    FoldsToKey(lookup, text, table[0].0);
    if table[0] != (Key(lookup, text), v) {
      var j :| 0 <= j < |table| && table[j] == (Key(lookup, text), v);
      assert j > 0 && table[1..][j - 1] == table[j];
      KindInPresent(table[1..], lookup, text, v);
    }
  }

  /** The type of a word depends only on its key. */
  lemma {:induction false} KindInByKey(table: seq<(string, TokenKind)>, lookup: KeywordLookup, a: string, b: string)
    requires Key(lookup, a) == Key(lookup, b)
    ensures KindIn(table, lookup, a) == KindIn(table, lookup, b)
  {
    if |table| > 0 {
      FoldsToKey(lookup, a, table[0].0);
      FoldsToKey(lookup, b, table[0].0);
      KindInByKey(table[1..], lookup, a, b);
    }
  }

  /** The keys of `reserved` are distinct, every one starts with a lowercase letter, and
      every value is a reserved-word type. */
  lemma ReservedKeysAreLowercase()
    ensures DistinctKeys(Reserved)
    ensures forall e :: e in Reserved ==> |e.0| > 0 && IsLowerAscii(e.0[0])
    ensures forall e :: e in Reserved ==> IsReservedKind(e.1)
  {
  }

  /** `reserved.get(key, 'ID')`: a word whose key is a key of the table gets that entry's
      type, and any other word gets `ID`, which no entry has. */
  lemma WordKindSpec(lookup: KeywordLookup, text: string)
    ensures forall e :: e in Reserved && e.0 == Key(lookup, text) ==> WordKind(lookup, text) == e.1
    ensures WordKind(lookup, text) == Id <==> forall e :: e in Reserved ==> e.0 != Key(lookup, text)
    ensures WordKind(lookup, text) == Id || IsReservedKind(WordKind(lookup, text))
  {
    ReservedKeysAreLowercase();
    if forall e :: e in Reserved ==> e.0 != Key(lookup, text) {
      KindInAbsent(Reserved, lookup, text);
    } else {
      var e :| e in Reserved && e.0 == Key(lookup, text);
      assert e == (Key(lookup, text), e.1);
      KindInPresent(Reserved, lookup, text, e.1);
    }
  }

  /** As written, no word is ever reserved: an upper-cased key has no lowercase first letter,
      and every key of the table has one. */
  lemma KeywordsNeverRecognised(text: string)
    ensures WordKind(AsWritten, text) == Id
  {
    ReservedKeysAreLowercase();
    forall e | e in Reserved ensures e.0 != Key(AsWritten, text) {
      if |text| > 0 { assert Key(AsWritten, text)[0] == UpperChar(text[0]); }
    }
    KindInAbsent(Reserved, AsWritten, text);
  }

  /** As written, the lexer emits no reserved-word token at all: `if`, `IF` and `to` are
      all `ID`. */
  lemma {:induction false} LexYieldsNoKeywords(src: string, i: nat, line: int)
    requires i <= |src|
    ensures forall k :: 0 <= k < |LexFrom(src, i, line, AsWritten)| ==>
      !IsReservedKind(LexFrom(src, i, line, AsWritten)[k].kind)
    decreases |src| - i
  {
    if i < |src| {
      var step := Scan(src, i, line, AsWritten);
      if IsIdentStart(src[i]) {
        KeywordsNeverRecognised(src[i..RunEnd(src, i + 1, IdentChars)]);
      }
      LexYieldsNoKeywords(src, step.next, step.nextLine);
      var rest := LexFrom(src, step.next, step.nextLine, AsWritten);
      assert LexFrom(src, i, line, AsWritten) == step.emitted + rest;
    }
  }

  /** `if` and `IF` each lex as a single `ID` token. */
  lemma ReservedWordsLexAsId()
    ensures LexFrom("if", 0, 1, AsWritten) == [Token(Id, Lexeme("if"), 1, 0)]
    ensures LexFrom("IF", 0, 1, AsWritten) == [Token(Id, Lexeme("IF"), 1, 0)]
  {
    WordLexesAlone("if", AsWritten);
    WordLexesAlone("IF", AsWritten);
    KeywordsNeverRecognised("if");
    KeywordsNeverRecognised("IF");
  }

  /** A two-letter word alone lexes as one token of its type. */
  lemma WordLexesAlone(w: string, lookup: KeywordLookup)
    requires |w| == 2 && IsIdentStart(w[0]) && IsIdentStart(w[1])
    ensures LexFrom(w, 0, 1, lookup) == [Token(WordKind(lookup, w), Lexeme(w), 1, 0)]
  {
    assert RunEnd(w, 1, IdentChars) == 2;
    assert w[0..2] == w;
    LexFromUnfold(w, 0, 1, lookup);
  }

  /** With the lookup folded to lowercase, words equal up to case get the same type, and the
      reserved words in any case get their reserved type. */
  lemma IntendedKeywordsIgnoreCase(a: string, b: string)
    ensures Upper(a) == Upper(b) ==> WordKind(Intended, a) == WordKind(Intended, b)
    ensures forall e :: e in Reserved && Lower(a) == e.0 ==> WordKind(Intended, a) == e.1
  {
    CaseFoldsAgree(a, b);
    if Upper(a) == Upper(b) {
      KindInByKey(Reserved, Intended, a, b);
    }
    ReservedKeysAreLowercase();
    forall e | e in Reserved && Lower(a) == e.0
      ensures WordKind(Intended, a) == e.1
    {
      assert e == (Key(Intended, a), e.1);
      KindInPresent(Reserved, Intended, a, e.1);
    }
  }

  /** With the lookup folded to lowercase, `if`, `If` and `IF` are all `IF`. */
  lemma IntendedIfInAnyCase()
    ensures WordKind(Intended, "if") == If && WordKind(Intended, "If") == If && WordKind(Intended, "IF") == If
  {
    ReservedKeysAreLowercase();
    assert Reserved[0] == ("if", If);
    assert Key(Intended, "if") == "if" && Key(Intended, "If") == "if" && Key(Intended, "IF") == "if";
    KindInPresent(Reserved, Intended, "if", If);
    KindInPresent(Reserved, Intended, "If", If);
    KindInPresent(Reserved, Intended, "IF", If);
  }

  /** With the lookup folded to lowercase, `IF` alone lexes as one `IF` token. */
  lemma IntendedLexesIf()
    ensures LexFrom("IF", 0, 1, Intended) == [Token(If, Lexeme("IF"), 1, 0)]
  {
    IntendedIfInAnyCase();
    WordLexesAlone("IF", Intended);
  }

  // ---------------------------------------------------------------------------
  // What each token says about the source

  /** The number of newlines in `s`. */
  function NewlineCount(s: string): nat {
    multiset(s)['\n']
  }

  lemma {:induction false} NewlineRunCount(s: string)
    requires forall k :: 0 <= k < |s| ==> s[k] == '\n'
    ensures NewlineCount(s) == |s|
    decreases |s|
  {
    if |s| > 0 {
      assert s == s[..|s| - 1] + [s[|s| - 1]];
      NewlineRunCount(s[..|s| - 1]);
    }
  }

  lemma NewlinesSplit(src: string, i: nat, j: nat, k: nat)
    requires i <= j <= k <= |src|
    ensures NewlineCount(src[i..k]) == NewlineCount(src[i..j]) + NewlineCount(src[j..k])
  {
    assert src[i..k] == src[i..j] + src[j..k];
  }

  /** A token is what the rule matching at its offset produces: a `NUMBER` is the value of
      the maximal digit run there; a word is the maximal identifier run there, typed by the
      lookup; a punctuator is that one character. */
  ghost predicate TokenAt(src: string, lookup: KeywordLookup, t: Token) {
    && t.pos < |src|
    && match t.value
       case Num(n) =>
         && t.kind == Number && IsDigit(src[t.pos])
         && (RunEndMaximal(src, t.pos, Digits);
             n == DecimalValue(src[t.pos..RunEnd(src, t.pos, Digits)]))
       case Lexeme(x) =>
         && t.pos + |x| <= |src| && src[t.pos..t.pos + |x|] == x
         && ( (IsIdentStart(src[t.pos]) && t.pos + |x| == RunEnd(src, t.pos + 1, IdentChars)
               && t.kind == WordKind(lookup, x))
           || (|x| == 1 && PunctKind(x[0]) == Some(t.kind)))
  }

  /** Tokens `ts` lexed from offset `i` with the counter at `line` are located: each is what
      the source holds at its offset, at or after `i`; the offsets strictly increase; and
      each line is `line` plus the newlines between `i` and the token. */
  ghost predicate Located(src: string, i: nat, line: int, lookup: KeywordLookup, ts: seq<Token>) {
    && (forall k :: 0 <= k < |ts| ==>
          && i <= ts[k].pos < |src|
          && TokenAt(src, lookup, ts[k])
          && ts[k].line == line + NewlineCount(src[i..ts[k].pos]))
    && (forall a, b :: 0 <= a < b < |ts| ==> ts[a].pos < ts[b].pos)
  }

  /** Where token `t` ends: behind the digit run of a `NUMBER`, behind the matched text of
      any other token. */
  function TokenEnd(src: string, t: Token): (e: nat)
    requires t.pos <= |src|
    ensures t.pos <= e
  {
    match t.value
    case Num(_) => RunEnd(src, t.pos, Digits)
    case Lexeme(x) => t.pos + |x|
  }

  /** No rule emits a token on `c`: a space, a tab, a newline or an illegal character. */
  predicate IsGapChar(c: char) { !IsDigit(c) && !IsIdentStart(c) && PunctKind(c).None? }

  /** Offsets `a` to `b` hold only characters no token is made of. */
  ghost predicate Gap(src: string, a: nat, b: nat) {
    a <= b <= |src| && forall k :: a <= k < b ==> IsGapChar(src[k])
  }

  /** The tokens `ts` tile the text from `i` on: each token ends at or before the next one
      starts, and before the first, between two, and after the last there are only
      characters no token is made of. */
  ghost predicate Tiles(src: string, i: nat, ts: seq<Token>) {
    && (forall k :: 0 <= k < |ts| ==> ts[k].pos < |src|)
    && if |ts| == 0 then Gap(src, i, |src|)
       else
         && Gap(src, i, ts[0].pos)
         && (forall k :: 0 <= k < |ts| - 1 ==> Gap(src, TokenEnd(src, ts[k]), ts[k + 1].pos))
         && Gap(src, TokenEnd(src, ts[|ts| - 1]), |src|)
  }

  lemma GapJoin(src: string, a: nat, b: nat, c: nat)
    requires Gap(src, a, b) && Gap(src, b, c)
    ensures Gap(src, a, c)
  {
  }

  lemma NoNewlines(src: string, i: nat, j: nat)
    requires i <= j <= |src|
    requires forall k :: i <= k < j ==> src[k] != '\n'
    ensures NewlineCount(src[i..j]) == 0
  {
    assert '\n' !in src[i..j];
  }

  /** One rule application: what it emits is located. */
  lemma ScanLocated(src: string, i: nat, line: int, lookup: KeywordLookup)
    requires i < |src|
    ensures Located(src, i, line, lookup, Scan(src, i, line, lookup).emitted)
  {
    var step := Scan(src, i, line, lookup);
    if |step.emitted| == 1 {
      ScanTokenAt(src, i, line, lookup);
      SingleLocated(src, i, line, lookup, step.emitted[0]);
    }
  }

  /** The token one rule application emits is what the source holds at its offset. */
  lemma ScanTokenAt(src: string, i: nat, line: int, lookup: KeywordLookup)
    requires i < |src|
    ensures var step := Scan(src, i, line, lookup);
      |step.emitted| == 1 ==> TokenAt(src, lookup, step.emitted[0])
  {
    var c := src[i];
    if !IsIgnored(c) && !IsDigit(c) && !IsIdentStart(c) && c != '\n' && PunctKind(c).Some? {
      assert src[i..i + 1] == [c];
    }
  }

  /** A token that the source holds at offset `i`, on line `line`, is located from `i`. */
  lemma SingleLocated(src: string, i: nat, line: int, lookup: KeywordLookup, t: Token)
    requires i < |src| && t.pos == i && t.line == line && TokenAt(src, lookup, t)
    ensures Located(src, i, line, lookup, [t])
  {
    assert NewlineCount(src[i..i]) == 0;
  }

  /** One rule application: the line counter it passes on counts the newlines it consumed. */
  lemma ScanCountsLines(src: string, i: nat, line: int, lookup: KeywordLookup)
    requires i < |src|
    ensures Scan(src, i, line, lookup).nextLine
         == line + NewlineCount(src[i..Scan(src, i, line, lookup).next])
  {
    var c := src[i];
    var step := Scan(src, i, line, lookup);
    if IsIgnored(c) {
      NoNewlines(src, i, i + 1);
    } else if IsDigit(c) {
      RunEndMaximal(src, i, Digits);
      NoNewlines(src, i, step.next);
    } else if IsIdentStart(c) {
      RunEndMaximal(src, i + 1, IdentChars);
      NoNewlines(src, i, step.next);
    } else if c == '\n' {
      RunEndMaximal(src, i, Newlines);
      NewlineRunCount(src[i..step.next]);
    } else {
      NoNewlines(src, i, i + 1);
    }
  }

  /** One rule application: a rule that emits nothing consumes only characters no token is
      made of, and a rule that emits a token ends where that token ends. */
  lemma ScanTiles(src: string, i: nat, line: int, lookup: KeywordLookup)
    requires i < |src|
    ensures var step := Scan(src, i, line, lookup);
      && (|step.emitted| == 0 ==> Gap(src, i, step.next))
      && (|step.emitted| == 1 ==> TokenEnd(src, step.emitted[0]) == step.next)
  {
    ScanSkipsGap(src, i, line, lookup);
    ScanEndsToken(src, i, line, lookup);
  }

  /** A rule that emits nothing consumes only characters no token is made of. */
  lemma ScanSkipsGap(src: string, i: nat, line: int, lookup: KeywordLookup)
    requires i < |src|
    ensures var step := Scan(src, i, line, lookup);
      |step.emitted| == 0 ==> Gap(src, i, step.next)
  {
    if src[i] == '\n' {
      RunEndMaximal(src, i, Newlines);
    }
  }

  /** A rule that emits a token consumes exactly that token. */
  lemma ScanEndsToken(src: string, i: nat, line: int, lookup: KeywordLookup)
    requires i < |src|
    ensures var step := Scan(src, i, line, lookup);
      |step.emitted| == 1 ==> TokenEnd(src, step.emitted[0]) == step.next
  {
  }

  /** Tokens tiling the text from the next rule's start, behind what one rule emitted, tile
      the text from the rule's own start. */
  lemma TilesStep(src: string, i: nat, j: nat, e: seq<Token>, rest: seq<Token>)
    requires i < j <= |src| && |e| <= 1
    requires forall k :: 0 <= k < |e| ==> e[k].pos == i
    requires |e| == 0 ==> Gap(src, i, j)
    requires |e| == 1 ==> TokenEnd(src, e[0]) == j
    requires Tiles(src, j, rest)
    ensures Tiles(src, i, e + rest)
  {
    var ts := e + rest;
    if |e| == 0 {
      assert ts == rest;
      if |rest| == 0 { GapJoin(src, i, j, |src|); } else { GapJoin(src, i, j, rest[0].pos); }
    } else {
      assert ts[0] == e[0];
      forall k | 0 <= k < |ts| ensures ts[k].pos < |src| {
        if k > 0 { assert ts[k] == rest[k - 1]; }
      }
      forall k | 0 <= k < |ts| - 1 ensures Gap(src, TokenEnd(src, ts[k]), ts[k + 1].pos) {
        assert ts[k + 1] == rest[k];
        if k > 0 { assert ts[k] == rest[k - 1]; }
      }
      if |rest| > 0 { assert ts[|ts| - 1] == rest[|rest| - 1]; }
    }
  }

  /** Located tokens from the next rule's start, behind located tokens of one rule, are
      located from the rule's own start. */
  lemma LocatedStep(src: string, i: nat, j: nat, line: int, line': int, lookup: KeywordLookup,
                    e: seq<Token>, rest: seq<Token>)
    requires i < j <= |src|
    requires line' == line + NewlineCount(src[i..j])
    requires forall k :: 0 <= k < |e| ==> e[k].pos == i
    requires |e| <= 1
    requires Located(src, i, line, lookup, e)
    requires Located(src, j, line', lookup, rest)
    ensures Located(src, i, line, lookup, e + rest)
  {
    var ts := e + rest;
    forall k | 0 <= k < |rest|
      ensures i <= rest[k].pos && rest[k].line == line + NewlineCount(src[i..rest[k].pos])
    {
      NewlinesSplit(src, i, j, rest[k].pos);
    }
    forall k | 0 <= k < |ts|
      ensures && i <= ts[k].pos < |src| && TokenAt(src, lookup, ts[k])
              && ts[k].line == line + NewlineCount(src[i..ts[k].pos])
    {
      if k >= |e| { assert ts[k] == rest[k - |e|]; }
    }
    forall a, b | 0 <= a < b < |ts| ensures ts[a].pos < ts[b].pos {
      assert ts[b] == rest[b - |e|];
      if a >= |e| { assert ts[a] == rest[a - |e|]; }
    }
  }

  /** Every token the lexer emits is located, and together they tile the text. */
  lemma {:induction false} TokensFaithful(src: string, i: nat, line: int, lookup: KeywordLookup)
    requires i <= |src|
    ensures Located(src, i, line, lookup, LexFrom(src, i, line, lookup))
    ensures Tiles(src, i, LexFrom(src, i, line, lookup))
    decreases |src| - i
  {
    if i < |src| {
      var step := Scan(src, i, line, lookup);
      var rest := LexFrom(src, step.next, step.nextLine, lookup);
      ScanLocated(src, i, line, lookup);
      ScanCountsLines(src, i, line, lookup);
      ScanTiles(src, i, line, lookup);
      TokensFaithful(src, step.next, step.nextLine, lookup);
      LocatedStep(src, i, step.next, line, step.nextLine, lookup, step.emitted, rest);
      TilesStep(src, i, step.next, step.emitted, rest);
    }
  }

  /** Space, tab, newline and illegal characters alone produce no token. */
  lemma {:induction false} NoTokenCharsNoTokens(src: string, i: nat, line: int, lookup: KeywordLookup)
    requires i <= |src|
    requires forall k :: i <= k < |src| ==> IsGapChar(src[k])
    ensures LexFrom(src, i, line, lookup) == []
    decreases |src| - i
  {
    if i < |src| {
      var step := Scan(src, i, line, lookup);
      NoTokenCharsNoTokens(src, step.next, step.nextLine, lookup);
    }
  }

  // ---------------------------------------------------------------------------
  // Printing the tokens back and lexing them again

  /** A token's value as source text: `str(n)` for a number, the matched text otherwise. */
  function Show(t: Token): string {
    match t.value
    case Num(n) => DecimalString(n)
    case Lexeme(x) => x
  }

  /** The tokens printed one after another, each followed by a space. */
  function Unlex(ts: seq<Token>): string {
    if |ts| == 0 then [] else Show(ts[0]) + " " + Unlex(ts[1..])
  }

  /** The tokens without their positions: type and value only. */
  function Shape(ts: seq<Token>): seq<(TokenKind, TokenValue)> {
    if |ts| == 0 then [] else [(ts[0].kind, ts[0].value)] + Shape(ts[1..])
  }

  /** A token some rule can emit on its own text: a `NUMBER`, a word typed by the lookup, or
      a punctuator. */
  ghost predicate Printable(t: Token, lookup: KeywordLookup) {
    match t.value
    case Num(_) => t.kind == Number
    case Lexeme(x) =>
      && |x| > 0
      && ( (&& IsIdentStart(x[0])
            && RunEnd(x, 1, IdentChars) == |x|
            && t.kind == WordKind(lookup, x))
        || (|x| == 1 && PunctKind(x[0]) == Some(t.kind)))
  }

  /** A run of class characters from `a` to a non-class character at `b` ends at `b`. */
  lemma {:induction false} RunEndAt(src: string, a: nat, b: nat, cls: CharClass)
    requires a <= b <= |src|
    requires forall k :: a <= k < b ==> InClass(src[k], cls)
    requires b == |src| || !InClass(src[b], cls)
    ensures RunEnd(src, a, cls) == b
    decreases b - a
  {
    if a < b {
      RunEndAt(src, a + 1, b, cls);
    }
  }

  /** The digits of `n` followed by a non-digit are scanned as the `NUMBER` `n`. */
  lemma ScanNumber(src: string, i: nat, line: int, lookup: KeywordLookup, n: nat)
    requires i + |DecimalString(n)| < |src|
    requires src[i..i + |DecimalString(n)|] == DecimalString(n)
    requires !IsDigit(src[i + |DecimalString(n)|])
    ensures Scan(src, i, line, lookup)
         == Step([Token(Number, Num(n), line, i)], i + |DecimalString(n)|, line)
  {
    var x := DecimalString(n);
    var j := i + |x|;
    forall k | i <= k < j ensures InClass(src[k], Digits) {
      assert src[k] == src[i..j][k - i];
    }
    RunEndAt(src, i, j, Digits);
    DecimalRoundTrip(n);
  }

  /** An identifier-shaped word followed by a non-identifier character is scanned as that
      word, typed by the lookup. */
  lemma ScanWord(src: string, i: nat, line: int, lookup: KeywordLookup, x: string)
    requires |x| > 0 && IsIdentStart(x[0]) && forall k :: 1 <= k < |x| ==> IsIdentChar(x[k])
    requires i + |x| < |src| && src[i..i + |x|] == x && !IsIdentChar(src[i + |x|])
    ensures Scan(src, i, line, lookup)
         == Step([Token(WordKind(lookup, x), Lexeme(x), line, i)], i + |x|, line)
  {
    var j := i + |x|;
    assert src[i] == x[0];
    forall k | i + 1 <= k < j ensures InClass(src[k], IdentChars) {
      assert src[k] == src[i..j][k - i];
    }
    RunEndAt(src, i + 1, j, IdentChars);
  }

  /** A punctuator is scanned as its one-character token. */
  lemma ScanPunct(src: string, i: nat, line: int, lookup: KeywordLookup)
    requires i < |src| && PunctKind(src[i]).Some?
    ensures Scan(src, i, line, lookup)
         == Step([Token(PunctKind(src[i]).value, Lexeme([src[i]]), line, i)], i + 1, line)
  {
  }

  /** A printable token's text, followed by a space, is scanned back into that token. */
  lemma ScanPrinted(src: string, i: nat, line: int, lookup: KeywordLookup, t: Token)
    requires Printable(t, lookup)
    requires i + |Show(t)| < |src|
    requires src[i..i + |Show(t)|] == Show(t) && src[i + |Show(t)|] == ' '
    ensures Scan(src, i, line, lookup) == Step([Token(t.kind, t.value, line, i)], i + |Show(t)|, line)
  {
    match t.value
    case Num(n) =>
      ScanNumber(src, i, line, lookup, n);
    case Lexeme(x) =>
      if IsIdentStart(x[0]) && RunEnd(x, 1, IdentChars) == |x| && t.kind == WordKind(lookup, x) {
        RunEndMaximal(x, 1, IdentChars);
        ScanWord(src, i, line, lookup, x);
      } else {
        assert x == [x[0]] && src[i] == src[i..i + 1][0];
        ScanPunct(src, i, line, lookup);
      }
  }

  /** `ts` printed from offset `i` to the end of `src`: each token's text, then a space. */
  ghost predicate PrintedAt(src: string, i: nat, ts: seq<Token>)
    decreases |ts|
  {
    if |ts| == 0 then i == |src|
    else
      var x := Show(ts[0]);
      && i + |x| < |src| && src[i..i + |x|] == x && src[i + |x|] == ' '
      && PrintedAt(src, i + |x| + 1, ts[1..])
  }

  /** The printed text of `ts`, behind any prefix, is `ts` printed from the prefix's end. */
  lemma {:induction false} UnlexPrinted(p: string, ts: seq<Token>)
    ensures PrintedAt(p + Unlex(ts), |p|, ts)
    decreases |ts|
  {
    if |ts| > 0 {
      var x := Show(ts[0]);
      var q := p + x + " ";
      assert p + Unlex(ts) == q + Unlex(ts[1..]);
      UnlexPrinted(q, ts[1..]);
      assert (q + Unlex(ts[1..]))[|p|..|p| + |x|] == x;
    }
  }

  /** One rule application followed by the rest of the input. */
  lemma LexFromUnfold(src: string, i: nat, line: int, lookup: KeywordLookup)
    requires i < |src|
    ensures LexFrom(src, i, line, lookup)
         == Scan(src, i, line, lookup).emitted
            + LexFrom(src, Scan(src, i, line, lookup).next, Scan(src, i, line, lookup).nextLine, lookup)
  {
  }

  /** Lexing from `i` emits `tok` and then goes on from `k` with the same line counter. */
  ghost predicate LexesThrough(src: string, i: nat, k: nat, line: int, lookup: KeywordLookup, tok: Token) {
    && i <= |src| && k <= |src|
    && LexFrom(src, i, line, lookup) == [tok] + LexFrom(src, k, line, lookup)
  }

  /** Two token sequences agree in types and values. */
  ghost predicate SameShape(a: seq<Token>, b: seq<Token>) {
    Shape(a) == Shape(b)
  }

  /** Lexing from `i` gives tokens with the types and values of `ts`. */
  ghost predicate RelexesTo(src: string, i: nat, line: int, lookup: KeywordLookup, ts: seq<Token>) {
    i <= |src| && SameShape(LexFrom(src, i, line, lookup), ts)
  }

  /** `src` holds the printable tokens `ts` printed from offset `i` on. */
  ghost predicate Reprintable(src: string, i: nat, lookup: KeywordLookup, ts: seq<Token>) {
    i <= |src| && PrintedAt(src, i, ts) && AllPrintable(ts, lookup)
  }

  /** A rule that emits one token and stops at a space: the lexer continues behind the
      space. */
  lemma LexPrintedStep(src: string, i: nat, j: nat, line: int, lookup: KeywordLookup, tok: Token)
    requires i < j < |src| && src[j] == ' '
    requires Scan(src, i, line, lookup) == Step([tok], j, line)
    ensures LexesThrough(src, i, j + 1, line, lookup, tok)
  {
    assert Scan(src, j, line, lookup) == Step([], j + 1, line);
    LexFromUnfold(src, j, line, lookup);
    assert LexFrom(src, j, line, lookup) == [] + LexFrom(src, j + 1, line, lookup);
    LexFromUnfold(src, i, line, lookup);
  }

  /** Every token of `ts` is printable. */
  ghost predicate AllPrintable(ts: seq<Token>, lookup: KeywordLookup)
    decreases |ts|
  {
    |ts| > 0 ==> Printable(ts[0], lookup) && AllPrintable(ts[1..], lookup)
  }

  lemma {:induction false} AllPrintableEach(ts: seq<Token>, lookup: KeywordLookup)
    requires forall k :: 0 <= k < |ts| ==> Printable(ts[k], lookup)
    ensures AllPrintable(ts, lookup)
    decreases |ts|
  {
    if |ts| > 0 {
      assert forall k :: 0 <= k < |ts[1..]| ==> ts[1..][k] == ts[k + 1];
      AllPrintableEach(ts[1..], lookup);
    }
  }

  /** A printable token's text followed by a space is lexed as that token, and lexing goes
      on behind the space. */
  lemma LexPrinted(src: string, i: nat, line: int, lookup: KeywordLookup, t: Token)
    requires Printable(t, lookup)
    requires i + |Show(t)| < |src|
    requires src[i..i + |Show(t)|] == Show(t) && src[i + |Show(t)|] == ' '
    ensures LexesThrough(src, i, i + |Show(t)| + 1, line, lookup, Token(t.kind, t.value, line, i))
  {
    ScanPrinted(src, i, line, lookup, t);
    LexPrintedStep(src, i, i + |Show(t)|, line, lookup, Token(t.kind, t.value, line, i));
  }

  /** The text behind the first printed token and its space still holds the rest printed. */
  lemma RelexHead(src: string, i: nat, ts: seq<Token>, lookup: KeywordLookup)
    requires |ts| > 0 && Reprintable(src, i, lookup, ts)
    ensures i + |Show(ts[0])| < |src| && Reprintable(src, i + |Show(ts[0])| + 1, lookup, ts[1..])
  {
  }

  /** Lexing printed tokens gives back their types and values. */
  lemma {:induction false} RelexPrinted(src: string, i: nat, line: int, lookup: KeywordLookup, ts: seq<Token>)
    requires Reprintable(src, i, lookup, ts)
    ensures RelexesTo(src, i, line, lookup, ts)
    decreases |ts|
  {
    if |ts| > 0 {
      RelexHead(src, i, ts, lookup);
      RelexPrinted(src, i + |Show(ts[0])| + 1, line, lookup, ts[1..]);
      RelexCons(src, i, line, lookup, ts);
    }
  }

  /** The first printed token relexes, and the rest relex behind its space: all of them
      relex. */
  lemma RelexCons(src: string, i: nat, line: int, lookup: KeywordLookup, ts: seq<Token>)
    requires |ts| > 0 && Reprintable(src, i, lookup, ts)
    requires i + |Show(ts[0])| < |src|
    requires RelexesTo(src, i + |Show(ts[0])| + 1, line, lookup, ts[1..])
    ensures RelexesTo(src, i, line, lookup, ts)
  {
    var k := i + |Show(ts[0])| + 1;
    LexPrinted(src, i, line, lookup, ts[0]);
    ShapeCons(Token(ts[0].kind, ts[0].value, line, i), LexFrom(src, k, line, lookup), ts);
  }

  lemma ShapeCons(t: Token, rest: seq<Token>, ts: seq<Token>)
    requires |ts| > 0 && ts[0].kind == t.kind && ts[0].value == t.value
    requires SameShape(rest, ts[1..])
    ensures SameShape([t] + rest, ts)
  {
    assert ([t] + rest)[1..] == rest;
  }

  /** Every token a rule emits is printable. */
  lemma TokenAtPrintable(src: string, lookup: KeywordLookup, t: Token)
    requires TokenAt(src, lookup, t)
    ensures Printable(t, lookup)
  {
    match t.value
    case Num(_) =>
    case Lexeme(x) =>
      var p := t.pos;
      if IsIdentStart(src[p]) && p + |x| == RunEnd(src, p + 1, IdentChars) {
        RunEndMaximal(src, p + 1, IdentChars);
        forall k | 1 <= k < |x| ensures InClass(x[k], IdentChars) {
          assert x[k] == src[p..p + |x|][k];
        }
        RunEndAt(x, 1, |x|, IdentChars);
        assert x[0] == src[p..p + |x|][0];
      }
  }

    /** A rule at the offset of a located token emits exactly that token and resumes where
      the token ends. */
  lemma ScanAtToken(src: string, i: nat, line: int, lookup: KeywordLookup, t: Token)
    requires i < |src| && t.pos == i && t.line == line && TokenAt(src, lookup, t)
    ensures var step := Scan(src, i, line, lookup);
      && step.emitted == [t] && step.next == TokenEnd(src, t) && step.nextLine == line
  {
    if t.value.Num? {
      ScanAtNumber(src, i, line, lookup, t);
    } else if IsIdentStart(src[i]) {
      ScanAtWord(src, i, line, lookup, t);
    } else {
      ScanAtPunct(src, i, line, lookup, t);
    }
  }

  lemma ScanAtNumber(src: string, i: nat, line: int, lookup: KeywordLookup, t: Token)
    requires i < |src| && t.pos == i && t.line == line && TokenAt(src, lookup, t) && t.value.Num?
    ensures var step := Scan(src, i, line, lookup);
      && step.emitted == [t] && step.next == TokenEnd(src, t) && step.nextLine == line
  {
    assert IsDigit(src[i]) && !IsIgnored(src[i]);
  }

  lemma ScanAtWord(src: string, i: nat, line: int, lookup: KeywordLookup, t: Token)
    requires i < |src| && t.pos == i && t.line == line && TokenAt(src, lookup, t)
    requires t.value.Lexeme? && IsIdentStart(src[i])
    ensures var step := Scan(src, i, line, lookup);
      && step.emitted == [t] && step.next == TokenEnd(src, t) && step.nextLine == line
  {
    var x := t.value.text;
    assert !IsDigit(src[i]) && !IsIgnored(src[i]);
    assert PunctKind(src[i]).None?;
    var j := RunEnd(src, i + 1, IdentChars);
    assert j == i + |x| && src[i..j] == x;
  }

  lemma ScanAtPunct(src: string, i: nat, line: int, lookup: KeywordLookup, t: Token)
    requires i < |src| && t.pos == i && t.line == line && TokenAt(src, lookup, t)
    requires t.value.Lexeme? && !IsIdentStart(src[i])
    ensures var step := Scan(src, i, line, lookup);
      && step.emitted == [t] && step.next == TokenEnd(src, t) && step.nextLine == line
  {
    var x := t.value.text;
    assert x == src[i..i + 1] == [src[i]];
    assert PunctKind(src[i]) == Some(t.kind);
  }

  /** A rule at a character no token is made of emits nothing, and resumes no later than
      the first character after it that is not a newline. */
  lemma ScanAtGap(src: string, i: nat, line: int, lookup: KeywordLookup, b: nat)
    requires i < b <= |src| && IsGapChar(src[i])
    requires b < |src| ==> src[b] != '\n'
    ensures Scan(src, i, line, lookup).emitted == []
    ensures Scan(src, i, line, lookup).next <= b
  {
    if !IsIgnored(src[i]) && src[i] == '\n' {
      RunEndMaximal(src, i, Newlines);
    }
  }

  /** Located tokens stay located from any later offset that is not past the first of
      them, with the counter moved on by the newlines skipped. */
  lemma LocatedFrom(src: string, i: nat, j: nat, line: int, line': int, lookup: KeywordLookup,
                    ts: seq<Token>)
    requires i <= j <= |src| && line' == line + NewlineCount(src[i..j])
    requires Located(src, i, line, lookup, ts)
    requires |ts| > 0 ==> j <= ts[0].pos
    ensures Located(src, j, line', lookup, ts)
  {
    forall k | 0 <= k < |ts|
      ensures j <= ts[k].pos && ts[k].line == line' + NewlineCount(src[j..ts[k].pos])
    {
      if k > 0 { assert ts[0].pos < ts[k].pos; }
      NewlinesSplit(src, i, j, ts[k].pos);
    }
  }

  /** Dropping the first token of a tiling leaves a tiling from where that token ends. */
  lemma TilesTail(src: string, i: nat, ts: seq<Token>)
    requires |ts| > 0 && Tiles(src, i, ts)
    ensures Tiles(src, TokenEnd(src, ts[0]), ts[1..])
  {
    var rest := ts[1..];
    if |rest| > 0 {
      assert Gap(src, TokenEnd(src, ts[0]), ts[1].pos);
      forall k | 0 <= k < |rest| - 1
        ensures Gap(src, TokenEnd(src, rest[k]), rest[k + 1].pos)
      {
        assert rest[k] == ts[k + 1] && rest[k + 1] == ts[k + 2];
      }
    }
  }

  /** A rule before the first token of a located tiling emits nothing and leaves a located
      tiling of the same tokens from where the next rule starts. */
  lemma SkipGap(src: string, i: nat, line: int, lookup: KeywordLookup, ts: seq<Token>)
    returns (j: nat, line': int)
    requires i < |src| && Located(src, i, line, lookup, ts) && Tiles(src, i, ts)
    requires |ts| == 0 || i < ts[0].pos
    ensures i < j <= |src|
    ensures LexFrom(src, i, line, lookup) == LexFrom(src, j, line', lookup)
    ensures Located(src, j, line', lookup, ts) && Tiles(src, j, ts)
  {
    var step := Scan(src, i, line, lookup);
    ScanCountsLines(src, i, line, lookup);
    var b := if |ts| == 0 then |src| else ts[0].pos;
    ScanAtGap(src, i, line, lookup, b);
    LocatedFrom(src, i, step.next, line, step.nextLine, lookup, ts);
    LexFromUnfold(src, i, line, lookup);
    j, line' := step.next, step.nextLine;
  }

  /** The rule at the first token of a located tiling emits that token and leaves a located
      tiling of the rest from where the next rule starts. */
  lemma TakeToken(src: string, i: nat, line: int, lookup: KeywordLookup, ts: seq<Token>)
    returns (j: nat, line': int)
    requires i < |src| && Located(src, i, line, lookup, ts) && Tiles(src, i, ts)
    requires |ts| > 0 && ts[0].pos == i
    ensures i < j <= |src|
    ensures LexFrom(src, i, line, lookup) == [ts[0]] + LexFrom(src, j, line', lookup)
    ensures Located(src, j, line', lookup, ts[1..]) && Tiles(src, j, ts[1..])
  {
    var step := Scan(src, i, line, lookup);
    ScanCountsLines(src, i, line, lookup);
    assert NewlineCount(src[i..i]) == 0;
    ScanAtToken(src, i, line, lookup, ts[0]);
    var rest := ts[1..];
    TilesTail(src, i, ts);
    assert Located(src, i, line, lookup, rest) by {
      forall a, b | 0 <= a < b < |rest| ensures rest[a].pos < rest[b].pos {
        assert rest[a] == ts[a + 1] && rest[b] == ts[b + 1];
      }
    }
    LocatedFrom(src, i, step.next, line, line, lookup, rest);
    LexFromUnfold(src, i, line, lookup);
    j, line' := step.next, step.nextLine;
  }

  /** Conversely, tokens that are located and tile the text are exactly what the lexer
      emits: together the two predicates pin the token stream down. */
  lemma {:induction false} TilingIsLexing(src: string, i: nat, line: int, lookup: KeywordLookup,
                                          ts: seq<Token>)
    requires i <= |src|
    requires Located(src, i, line, lookup, ts) && Tiles(src, i, ts)
    ensures ts == LexFrom(src, i, line, lookup)
    decreases |src| - i
  {
    if i == |src| {
      assert |ts| == 0;
    } else if |ts| == 0 || i < ts[0].pos {
      var j, line' := SkipGap(src, i, line, lookup, ts);
      TilingIsLexing(src, j, line', lookup, ts);
    } else {
      var j, line' := TakeToken(src, i, line, lookup, ts);
      TilingIsLexing(src, j, line', lookup, ts[1..]);
      assert ts == [ts[0]] + ts[1..];
    }
  }

  /** Printing the lexed tokens and lexing the text again gives the same types and values:
      the lexer reads back what it wrote. */
  lemma RelexRoundTrip(src: string, lookup: KeywordLookup)
    ensures Shape(LexFrom(Unlex(LexFrom(src, 0, 1, lookup)), 0, 1, lookup))
         == Shape(LexFrom(src, 0, 1, lookup))
  {
    var ts := LexFrom(src, 0, 1, lookup);
    TokensFaithful(src, 0, 1, lookup);
    forall k | 0 <= k < |ts| ensures Printable(ts[k], lookup) {
      TokenAtPrintable(src, lookup, ts[k]);
    }
    AllPrintableEach(ts, lookup);
    UnlexPrinted([], ts);
    assert [] + Unlex(ts) == Unlex(ts);
    RelexPrinted(Unlex(ts), 0, 1, lookup, ts);
  }
}
