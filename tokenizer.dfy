/** The shell's lexer (system_hw3/tokenizer.c): it pulls bytes from a Reader,
    accumulates each lexeme in a Dynamic line buffer and returns one token per
    call, keeping at most one pending delimiter in `last`.

    The pure part states what one call to tokenizer_next does to a sequence of
    bytes: NextToken(last, buffer, bytes) is the token, the number of bytes it
    consumes, and the new `last` and buffer. Tokenizer.Next is the imperative
    version over the Reader and Dynamic classes, proved against NextToken. */
module Tokenizer {
  import opened Wrappers
  import Reader
  import Dynamic

  /** enum token_type. */
  datatype TokenType = KEYWORD | STRING | WORD | PIPE | IN | OUT | ENDL

  /** enum keyword. */
  datatype Keyword = LS | PWD | CD | HELP | CAT | WC | EXIT

  /** The `data` union of a token: nothing (the zero-initialised union, read as
      a NULL string), the C string a STRING or WORD token points at, or a
      keyword code. */
  datatype TokenData = NoData | Text(text: seq<char>) | KeywordCode(code: Keyword)

  /** struct token. */
  datatype Token = Token(kind: TokenType, data: TokenData)

  // ---------------------------------------------------------------------------
  // Names

  /** How the lexer spells a keyword; LS, CAT and WC have no spelling. */
  function Spelling(k: Keyword): Option<seq<char>> {
    match k
    case PWD => Some("pwd")
    case CD => Some("cd")
    case HELP => Some("help")
    case EXIT => Some("exit")
    case _ => None
  }

  function UpperChar(c: char): char {
    if 'a' <= c <= 'z' then (c as int - 32) as char else c
  }

  function Upper(s: seq<char>): (r: seq<char>)
    ensures |r| == |s| && forall i :: 0 <= i < |s| ==> r[i] == UpperChar(s[i])
  {
    if s == [] then [] else [UpperChar(s[0])] + Upper(s[1..])
  }

  /** strKeyword: a name for the keywords the lexer can produce, NULL (None) for the others. */
  function StrKeyword(k: Keyword): Option<seq<char>> {
    if k == PWD then Some("PWD")
    else if k == CD then Some("CD")
    else if k == HELP then Some("HELP")
    else if k == EXIT then Some("EXIT")
    else None
  }

  /** strKeyword names exactly the keywords that have a spelling, in upper case. */
  lemma {:induction false} StrKeywordNamesSpelledKeywords(k: Keyword)
    ensures StrKeyword(k).None? <==> k in {LS, CAT, WC}
    ensures StrKeyword(k).None? <==> Spelling(k).None?
    ensures Spelling(k).Some? ==> StrKeyword(k) == Some(Upper(Spelling(k).value))
  {
    match k
    case PWD => assert Upper("pwd") == "PWD";
    case CD => assert Upper("cd") == "CD";
    case HELP => assert Upper("help") == "HELP";
    case EXIT => assert Upper("exit") == "EXIT";
    case _ =>
  }

  /** strTokenType. */
  function StrTokenType(t: TokenType): seq<char> {
    match t
    case KEYWORD => "KEYWORD"
    case STRING => "STRING"
    case WORD => "WORD"
    case PIPE => "PIPE"
    case IN => "IN"
    case OUT => "OUT"
    case ENDL => "ENDL"
  }

  /** Every token type has its own non-empty name. */
  lemma {:induction false} StrTokenTypeInjective(a: TokenType, b: TokenType)
    ensures StrTokenType(a) != []
    ensures StrTokenType(a) == StrTokenType(b) ==> a == b
  {
    if StrTokenType(a) == StrTokenType(b) {
      assert StrTokenType(a)[0] == StrTokenType(b)[0];
      assert |StrTokenType(a)| == |StrTokenType(b)|;
    }
  }

  // ---------------------------------------------------------------------------
  // The lexer, on bytes

  /** The bytes that end a word and are then returned as a token of their own. */
  predicate IsDelimiter(c: char) {
    c == '\n' || c == '|' || c == '<' || c == '>'
  }

  function DelimiterType(c: char): (t: TokenType)
    requires IsDelimiter(c)
    ensures t in {PIPE, IN, OUT, ENDL}
  {
    if c == '\n' then ENDL else if c == '|' then PIPE else if c == '<' then IN else OUT
  }

  /** The C string a `char *` into `s` denotes: the bytes before the first NUL. */
  function CString(s: seq<char>): seq<char> {
    if s == [] || s[0] == '\0' then [] else [s[0]] + CString(s[1..])
  }

  /** The C string is a prefix without NUL, ended by the first NUL or by the end. */
  lemma {:induction false} CStringPrefix(s: seq<char>)
    ensures var r := CString(s); r <= s && '\0' !in r && (|r| < |s| ==> s[|r|] == '\0')
  {
    if s != [] && s[0] != '\0' {
      CStringPrefix(s[1..]);
    }
  }

  /** The `do c = getc(); while (c == ' ')` loop: the index of the first byte
      at or after i that is not a space (only ' ' is skipped). */
  function FirstNonSpace(cs: seq<char>, i: nat): (n: nat)
    requires i <= |cs|
    ensures i <= n <= |cs|
    ensures n < |cs| ==> cs[n] != ' '
    decreases |cs| - i
  {
    if i == |cs| || cs[i] != ' ' then i else FirstNonSpace(cs, i + 1)
  }

  /** Only spaces are skipped, and the first non-space byte is where the skip
      ends. */
  lemma {:induction false} FirstNonSpaceSkips(cs: seq<char>, i: nat, n: nat)
    requires i <= n < |cs|
    ensures FirstNonSpace(cs, i) == n <==> (forall k :: i <= k < n ==> cs[k] == ' ') && cs[n] != ' '
    decreases n - i
  {
    if i < n && cs[i] == ' ' {
      FirstNonSpaceSkips(cs, i + 1, n);
    }
  }

  /** Where a scan loop stopped (`next` is the index after the byte that
      stopped it) and the bytes it appended to the line buffer, or, when the
      bytes ran out first, the bytes appended so far. */
  datatype Scan = Done(next: nat, kept: seq<char>) | Pending(kept: seq<char>)

  /** A scan result with `k` appended in front of it. */
  function Grow(k: seq<char>, r: Scan): (g: Scan)
    ensures g.Done? == r.Done? && g.kept == k + r.kept && (g.Done? ==> g.next == r.next)
  {
    match r
    case Done(n, kept) => Done(n, k + kept)
    case Pending(kept) => Pending(k + kept)
  }

  /** The STRING loop from position i; `prev` is the byte in front of cs[i] in
      the line buffer. A NUL stops it and is not appended; a '"' whose
      predecessor is not a backslash stops it and is appended; every other byte
      is appended. */
  function ScanString(prev: char, cs: seq<char>, i: nat): (r: Scan)
    ensures r.Done? ==> i < r.next <= |cs|
    decreases |cs| - i
  {
    if i >= |cs| then Pending([])
    else if cs[i] == '\0' then Done(i + 1, [])
    else if cs[i] == '"' && prev != '\\' then Done(i + 1, [cs[i]])
    else Grow([cs[i]], ScanString(cs[i], cs, i + 1))
  }

  /** The WORD loop from position i; `prev` is the last byte in the line buffer.
      A NUL stops it and nothing is appended; a space whose predecessor is not a
      backslash, or a delimiter, stops it and a NUL is appended; every other
      byte, an escaped space included, is appended. */
  function ScanWord(prev: char, cs: seq<char>, i: nat): (r: Scan)
    ensures r.Done? ==> i < r.next <= |cs|
    decreases |cs| - i
  {
    if i >= |cs| then Pending([])
    else
      var c := cs[i];
      if c == '\0' then Done(i + 1, [])
      else if c == ' ' && prev != '\\' then Done(i + 1, "\0")
      else if IsDelimiter(c) then Done(i + 1, "\0")
      else Grow([c], ScanWord(c, cs, i + 1))
  }

  /** strncmp(&block[start], kw, |kw|) == 0 for a keyword without NUL bytes:
      the |kw| bytes of the block from `start` on are kw. A NUL in the block
      stops strncmp with a difference, and a keyword running past the end of
      the block does not match. */
  predicate MatchesAt(block: seq<char>, start: nat, kw: seq<char>) {
    start + |kw| <= |block| && block[start..start + |kw|] == kw
  }

  /** The keyword test of tokenizer_next, in its order pwd, cd, help, exit, on
      the whole block the lexeme starts in. */
  function KeywordAt(block: seq<char>, start: nat): Option<Keyword> {
    if MatchesAt(block, start, "pwd") then Some(PWD)
    else if MatchesAt(block, start, "cd") then Some(CD)
    else if MatchesAt(block, start, "help") then Some(HELP)
    else if MatchesAt(block, start, "exit") then Some(EXIT)
    else None
  }

  /** The keyword a word denotes: the first of pwd, cd, help, exit it starts with. */
  function KeywordOf(w: seq<char>): Option<Keyword> {
    if "pwd" <= w then Some(PWD)
    else if "cd" <= w then Some(CD)
    else if "help" <= w then Some(HELP)
    else if "exit" <= w then Some(EXIT)
    else None
  }

  /** The keyword found is one with a spelling, and the word starts with it. */
  lemma {:induction false} KeywordOfSpelled(w: seq<char>)
    ensures var r := KeywordOf(w); r.Some? ==> Spelling(r.value).Some? && Spelling(r.value).value <= w
  {
  }

  /** A KEYWORD token when the keyword test found one, else a WORD with `text`. */
  function WordTokenOf(kw: Option<Keyword>, text: seq<char>): Token {
    match kw
    case Some(k) => Token(KEYWORD, KeywordCode(k))
    case None => Token(WORD, Text(text))
  }

  /** The token a word lexeme becomes. */
  function Classify(w: seq<char>): Token {
    WordTokenOf(KeywordOf(w), w)
  }

  /** What one call of tokenizer_next returns: the token, the number of bytes
      it read, the new pending delimiter and the bytes it appended to the line
      buffer, one dynamic_add each; or NeedMore when `cs` ends first. */
  datatype Lex = Lexed(token: Token, consumed: nat, last: char, appended: seq<char>) | NeedMore

  /** tokenizer_next over the bytes `cs` the reader will return, with `buf`
      the line buffer it starts from. The lexeme's first byte and what its scan
      keeps are appended, and a NUL after them for a STRING or WORD; the text of
      such a token is the C string at the lexeme's start, which is its bytes up
      to the first NUL (LexemeInBuffer). The keyword test reads the block after
      the word's bytes are appended. */
  function NextToken(last: char, buf: Dynamic.Buffer, cs: seq<char>): (r: Lex)
    requires Dynamic.Fits(buf)
    ensures r.Lexed? ==> r.consumed <= |cs|
    ensures r.Lexed? ==> (r.consumed == 0 <==> IsDelimiter(last))
    ensures r.Lexed? && r.consumed == 0 ==> r.last == '\0' && r.appended == []
  {
    if IsDelimiter(last) then Lexed(Token(DelimiterType(last), NoData), 0, '\0', [])
    else
      var n0 := FirstNonSpace(cs, 0);
      if n0 == |cs| then NeedMore
      else if cs[n0] == '"' then StringLex(last, cs, n0)
      else if IsDelimiter(cs[n0]) then Lexed(Token(DelimiterType(cs[n0]), NoData), n0 + 1, last, [cs[n0]])
      else WordLex(last, buf, cs, n0)
  }

  /** The STRING branch of NextToken, for a lexeme whose opening quote is cs[n0]. */
  function StringLex(last: char, cs: seq<char>, n0: nat): (r: Lex)
    requires n0 < |cs|
    ensures r.Lexed? ==> n0 + 1 < r.consumed <= |cs|
  {
    var c := cs[n0];
    match ScanString(c, cs, n0 + 1)
    case Pending(_) => NeedMore
    case Done(n, kept) => Lexed(Token(STRING, Text(CString([c] + kept))), n, last, [c] + kept + ['\0'])
  }

  /** The WORD branch of NextToken, for a lexeme whose first byte is cs[n0]. */
  function WordLex(last: char, buf: Dynamic.Buffer, cs: seq<char>, n0: nat): (r: Lex)
    requires Dynamic.Fits(buf) && n0 < |cs|
    ensures r.Lexed? ==> n0 + 1 < r.consumed <= |cs|
  {
    var c := cs[n0];
    match ScanWord(c, cs, n0 + 1)
    case Pending(_) => NeedMore
    case Done(n, kept) =>
      WordLexed(buf, [c] + kept, n, if IsDelimiter(cs[n - 1]) then cs[n - 1] else last)
  }

  /** The result of the WORD branch once its scan appended `lexeme`: the
      keyword test reads the block after the lexeme is appended, and a WORD
      token gets one more NUL. */
  function WordLexed(buf: Dynamic.Buffer, lexeme: seq<char>, n: nat, l2: char): (r: Lex)
    requires Dynamic.Fits(buf)
    ensures r.Lexed? && r.consumed == n && r.last == l2
  {
    var kw := KeywordAt(Dynamic.AppendEach(buf, lexeme).data, buf.used);
    Lexed(WordTokenOf(kw, CString(lexeme)), n, l2, lexeme + (if kw.Some? then [] else ['\0']))
  }

  // ---------------------------------------------------------------------------
  // What the scans consume and keep

  /** The byte in front of position k of a lexeme whose scan started at i with
      `prev` in front of it. */
  function Before(prev: char, cs: seq<char>, i: nat, k: nat): char
    requires i <= k <= |cs|
  {
    if k == i then prev else cs[k - 1]
  }

  /** Byte k does not end a string whose scan started at i. */
  predicate StringGoesOn(prev: char, cs: seq<char>, i: nat, k: nat)
    requires i <= k < |cs|
  {
    cs[k] != '\0' && (cs[k] == '"' ==> Before(prev, cs, i, k) == '\\')
  }

  /** Byte k does not end a word whose scan started at i. */
  predicate WordGoesOn(prev: char, cs: seq<char>, i: nat, k: nat)
    requires i <= k < |cs|
  {
    cs[k] != '\0' && !IsDelimiter(cs[k]) && (cs[k] == ' ' ==> Before(prev, cs, i, k) == '\\')
  }

  /** The bytes cs[i..n-1] continue a string and cs[n-1] ends it. */
  predicate StringStops(prev: char, cs: seq<char>, i: nat, n: nat)
    requires i < n <= |cs|
  {
    (forall k :: i <= k < n - 1 ==> StringGoesOn(prev, cs, i, k)) && !StringGoesOn(prev, cs, i, n - 1)
  }

  /** The bytes cs[i..n-1] continue a word and cs[n-1] ends it. */
  predicate WordStops(prev: char, cs: seq<char>, i: nat, n: nat)
    requires i < n <= |cs|
  {
    (forall k :: i <= k < n - 1 ==> WordGoesOn(prev, cs, i, k)) && !WordGoesOn(prev, cs, i, n - 1)
  }

  /** What a STRING scan appends for its stop byte. */
  function StringEnd(stop: char): seq<char> {
    if stop == '\0' then [] else [stop]
  }

  /** What a WORD scan appends for its stop byte. */
  function WordEnd(stop: char): seq<char> {
    if stop == '\0' then [] else ['\0']
  }

  /** A finished STRING scan stopped at the first NUL or unescaped quote, and
      kept every byte before it, the closing quote included. */
  lemma {:induction false} ScanStringDone(prev: char, cs: seq<char>, i: nat)
    ensures var r := ScanString(prev, cs, i); r.Done? ==>
      StringStops(prev, cs, i, r.next) && r.kept == cs[i..r.next - 1] + StringEnd(cs[r.next - 1])
  {
    ScanStringStops(prev, cs, i);
    ScanStringKeeps(prev, cs, i);
  }

  lemma {:induction false} ScanStringStops(prev: char, cs: seq<char>, i: nat)
    ensures var r := ScanString(prev, cs, i); r.Done? ==> StringStops(prev, cs, i, r.next)
    decreases |cs| - i
  {
    if i < |cs| {
      var c := cs[i];
      if c != '\0' && !(c == '"' && prev != '\\') {
        ScanStringStops(c, cs, i + 1);
        var r := ScanString(c, cs, i + 1);
        if r.Done? {
          forall k | i + 1 <= k <= r.next - 1 ensures StringGoesOn(c, cs, i + 1, k) == StringGoesOn(prev, cs, i, k) {
          }
        }
      }
    }
  }

  lemma {:induction false} ScanStringKeeps(prev: char, cs: seq<char>, i: nat)
    ensures var r := ScanString(prev, cs, i); r.Done? ==> r.kept == cs[i..r.next - 1] + StringEnd(cs[r.next - 1])
    decreases |cs| - i
  {
    if i < |cs| {
      var c := cs[i];
      if c != '\0' && !(c == '"' && prev != '\\') {
        ScanStringKeeps(c, cs, i + 1);
        var r := ScanString(c, cs, i + 1);
        if r.Done? {
          assert cs[i..r.next - 1] == [c] + cs[i + 1..r.next - 1];
        }
      }
    }
  }

  /** A finished WORD scan stopped at the first byte that ends a word, kept
      every byte before it, and appended one NUL unless a NUL stopped it. */
  lemma {:induction false} ScanWordDone(prev: char, cs: seq<char>, i: nat)
    ensures var r := ScanWord(prev, cs, i); r.Done? ==>
      WordStops(prev, cs, i, r.next) && r.kept == cs[i..r.next - 1] + WordEnd(cs[r.next - 1])
  {
    ScanWordStops(prev, cs, i);
    ScanWordKeeps(prev, cs, i);
  }

  lemma {:induction false} ScanWordStops(prev: char, cs: seq<char>, i: nat)
    ensures var r := ScanWord(prev, cs, i); r.Done? ==> WordStops(prev, cs, i, r.next)
    decreases |cs| - i
  {
    if i < |cs| {
      var c := cs[i];
      if c != '\0' && !(c == ' ' && prev != '\\') && !IsDelimiter(c) {
        ScanWordStops(c, cs, i + 1);
        var r := ScanWord(c, cs, i + 1);
        if r.Done? {
          forall k | i + 1 <= k <= r.next - 1 ensures WordGoesOn(c, cs, i + 1, k) == WordGoesOn(prev, cs, i, k) {
          }
        }
      }
    }
  }

  lemma {:induction false} ScanWordKeeps(prev: char, cs: seq<char>, i: nat)
    ensures var r := ScanWord(prev, cs, i); r.Done? ==> r.kept == cs[i..r.next - 1] + WordEnd(cs[r.next - 1])
    decreases |cs| - i
  {
    if i < |cs| {
      var c := cs[i];
      if c != '\0' && !(c == ' ' && prev != '\\') && !IsDelimiter(c) {
        ScanWordKeeps(c, cs, i + 1);
        var r := ScanWord(c, cs, i + 1);
        if r.Done? {
          assert cs[i..r.next - 1] == [c] + cs[i + 1..r.next - 1];
        }
      }
    }
  }

  /** A STRING scan whose bytes stop at cs[n - 1] finishes there, having kept
      the bytes before it and the stop byte unless it is a NUL. */
  lemma {:induction false} ScanStringAt(prev: char, cs: seq<char>, i: nat, n: nat)
    requires i < n <= |cs| && StringStops(prev, cs, i, n)
    ensures ScanString(prev, cs, i) == Done(n, cs[i..n - 1] + StringEnd(cs[n - 1]))
    decreases n - i
  {
    var c := cs[i];
    if i < n - 1 {
      assert StringGoesOn(prev, cs, i, i);
      var j := i + 1;
      forall k | j <= k < n - 1 ensures StringGoesOn(c, cs, j, k) {
        assert StringGoesOn(prev, cs, i, k);
        assert Before(c, cs, j, k) == Before(prev, cs, i, k);
      }
      assert Before(c, cs, j, n - 1) == Before(prev, cs, i, n - 1);
      ScanStringAt(c, cs, j, n);
      assert cs[i..n - 1] == [c] + cs[j..n - 1];
    }
  }

  /** A WORD scan whose bytes stop at cs[n - 1] finishes there, having kept
      the bytes before it and a NUL unless a NUL stopped it. */
  lemma {:induction false} ScanWordAt(prev: char, cs: seq<char>, i: nat, n: nat)
    requires i < n <= |cs| && WordStops(prev, cs, i, n)
    ensures ScanWord(prev, cs, i) == Done(n, cs[i..n - 1] + WordEnd(cs[n - 1]))
    decreases n - i
  {
    var c := cs[i];
    if i < n - 1 {
      assert WordGoesOn(prev, cs, i, i);
      var j := i + 1;
      forall k | j <= k < n - 1 ensures WordGoesOn(c, cs, j, k) {
        assert WordGoesOn(prev, cs, i, k);
        assert Before(c, cs, j, k) == Before(prev, cs, i, k);
      }
      assert Before(c, cs, j, n - 1) == Before(prev, cs, i, n - 1);
      ScanWordAt(c, cs, j, n);
      assert cs[i..n - 1] == [c] + cs[j..n - 1];
    }
  }

  /** Feeding more bytes to a scan: a finished scan is unchanged, and a pending
      one continues from where its bytes ran out. */
  lemma {:induction false} ScanStringExtend(prev: char, ys: seq<char>, zs: seq<char>, i: nat)
    requires i <= |ys|
    ensures var r := ScanString(prev, ys, i);
      ScanString(prev, ys + zs, i) ==
        (if r.Done? then r else Grow(r.kept, ScanString(Before(prev, ys, i, |ys|), ys + zs, |ys|)))
    decreases |ys| - i
  {
    if i == |ys| {
      var x := ScanString(prev, ys + zs, i);
      assert Grow([], x) == x;
    } else {
      assert (ys + zs)[i] == ys[i];
      if ys[i] != '\0' && !(ys[i] == '"' && prev != '\\') {
        ScanStringExtend(ys[i], ys, zs, i + 1);
        var r' := ScanString(ys[i], ys, i + 1);
        if r'.Pending? {
          var x := ScanString(Before(prev, ys, i, |ys|), ys + zs, |ys|);
          assert Grow([ys[i]], Grow(r'.kept, x)) == Grow([ys[i]] + r'.kept, x);
        }
      }
    }
  }

  lemma {:induction false} ScanWordExtend(prev: char, ys: seq<char>, zs: seq<char>, i: nat)
    requires i <= |ys|
    ensures var r := ScanWord(prev, ys, i);
      ScanWord(prev, ys + zs, i) ==
        (if r.Done? then r else Grow(r.kept, ScanWord(Before(prev, ys, i, |ys|), ys + zs, |ys|)))
    decreases |ys| - i
  {
    if i == |ys| {
      var x := ScanWord(prev, ys + zs, i);
      assert Grow([], x) == x;
    } else {
      assert (ys + zs)[i] == ys[i];
      var c := ys[i];
      if c != '\0' && !(c == ' ' && prev != '\\') && !IsDelimiter(c) {
        ScanWordExtend(c, ys, zs, i + 1);
        var r' := ScanWord(c, ys, i + 1);
        if r'.Pending? {
          var x := ScanWord(Before(prev, ys, i, |ys|), ys + zs, |ys|);
          assert Grow([c], Grow(r'.kept, x)) == Grow([c] + r'.kept, x);
        }
      }
    }
  }

  /** Only a prefix of the input decides where the first non-space byte is. */
  lemma {:induction false} FirstNonSpaceExtend(ys: seq<char>, zs: seq<char>, i: nat)
    requires i <= |ys| && FirstNonSpace(ys, i) < |ys|
    ensures FirstNonSpace(ys + zs, i) == FirstNonSpace(ys, i)
    decreases |ys| - i
  {
    assert (ys + zs)[i] == ys[i];
    if ys[i] == ' ' {
      FirstNonSpaceExtend(ys, zs, i + 1);
    }
  }

  /** A token is decided by the bytes it consumes: more input after them does
      not change it. */
  lemma {:induction false} NextTokenExtend(last: char, buf: Dynamic.Buffer, ys: seq<char>, zs: seq<char>)
    requires Dynamic.Fits(buf) && NextToken(last, buf, ys).Lexed?
    ensures NextToken(last, buf, ys + zs) == NextToken(last, buf, ys)
  {
    if !IsDelimiter(last) {
      var n0 := FirstNonSpace(ys, 0);
      FirstNonSpaceExtend(ys, zs, 0);
      assert (ys + zs)[n0] == ys[n0];
      if ys[n0] == '"' {
        StringLexExtend(last, ys, zs, n0);
      } else if !IsDelimiter(ys[n0]) {
        WordLexExtend(last, buf, ys, zs, n0);
      }
    }
  }

  /** The same for the STRING branch. */
  lemma {:induction false} StringLexExtend(last: char, ys: seq<char>, zs: seq<char>, n0: nat)
    requires n0 < |ys| && StringLex(last, ys, n0).Lexed?
    ensures StringLex(last, ys + zs, n0) == StringLex(last, ys, n0)
  {
    assert (ys + zs)[n0] == ys[n0];
    ScanStringExtend(ys[n0], ys, zs, n0 + 1);
  }

  /** The same for the WORD branch. */
  lemma {:induction false} WordLexExtend(last: char, buf: Dynamic.Buffer, ys: seq<char>, zs: seq<char>, n0: nat)
    requires Dynamic.Fits(buf) && n0 < |ys| && WordLex(last, buf, ys, n0).Lexed?
    ensures WordLex(last, buf, ys + zs, n0) == WordLex(last, buf, ys, n0)
  {
    assert (ys + zs)[n0] == ys[n0];
    ScanWordExtend(ys[n0], ys, zs, n0 + 1);
    var n := ScanWord(ys[n0], ys, n0 + 1).next;
    assert (ys + zs)[n - 1] == ys[n - 1];
  }

  /** CString of a NUL-free text is that text. */
  lemma {:induction false} CStringOfNulFree(w: seq<char>)
    requires '\0' !in w
    ensures CString(w) == w
  {
    if w != [] {
      assert '\0' !in w[1..];
      CStringOfNulFree(w[1..]);
    }
  }

  /** A NUL after the text does not change the C string it denotes. */
  lemma {:induction false} CStringNul(s: seq<char>)
    ensures CString(s + ['\0']) == CString(s)
  {
    if s != [] && s[0] != '\0' {
      assert (s + ['\0'])[1..] == s[1..] + ['\0'];
      CStringNul(s[1..]);
    }
  }

  /** One more byte for a pending STRING scan; `p` is the byte in front of it. */
  lemma {:induction false} StringStep(c0: char, ys0: seq<char>, zs: seq<char>, c: char)
    requires ScanString(c0, ys0 + zs, |ys0|) == Pending(zs)
    ensures var p := if zs == [] then c0 else zs[|zs| - 1]; var n := |ys0 + zs| + 1;
      ScanString(c0, ys0 + (zs + [c]), |ys0|) ==
        (if c == '\0' then Done(n, zs) else if c == '"' && p != '\\' then Done(n, zs + [c]) else Pending(zs + [c]))
  {
    var ys := ys0 + zs;
    ScanStringExtend(c0, ys, [c], |ys0|);
    assert ys0 + (zs + [c]) == ys + [c];
  }

  /** One more byte for a pending WORD scan; `p` is the byte in front of it. */
  lemma {:induction false} WordStep(c0: char, ys0: seq<char>, zs: seq<char>, c: char)
    requires ScanWord(c0, ys0 + zs, |ys0|) == Pending(zs)
    ensures var p := if zs == [] then c0 else zs[|zs| - 1]; var n := |ys0 + zs| + 1;
      ScanWord(c0, ys0 + (zs + [c]), |ys0|) ==
        (if c == '\0' then Done(n, zs)
         else if (c == ' ' && p != '\\') || IsDelimiter(c) then Done(n, zs + ['\0'])
         else Pending(zs + [c]))
  {
    var ys := ys0 + zs;
    ScanWordExtend(c0, ys, [c], |ys0|);
    assert ys0 + (zs + [c]) == ys + [c];
  }

  /** The bytes of a lexeme in the line buffer: after the bytes that were
      there, the lexeme's bytes in order. */
  lemma {:induction false} LexemeInBuffer(buf: Dynamic.Buffer, lex: seq<char>)
    requires Dynamic.Fits(buf)
    ensures var b := Dynamic.AppendEach(buf, lex);
      && Dynamic.Contents(b) == Dynamic.Contents(buf) + lex
      && b.data[buf.used..b.used] == lex
  {
    Dynamic.AppendEachContents(buf, lex);
    var b := Dynamic.AppendEach(buf, lex);
    assert b.data[buf.used..b.used] == Dynamic.Contents(b)[buf.used..];
  }

  // ---------------------------------------------------------------------------
  // Properties of one tokenizer_next call

  /** A pending delimiter is returned as its token without reading any byte,
      and the pending slot is emptied. */
  lemma {:induction false} PendingDelimiterFirst(last: char, buf: Dynamic.Buffer, cs: seq<char>)
    requires Dynamic.Fits(buf) && IsDelimiter(last)
    ensures NextToken(last, buf, cs) == Lexed(Token(DelimiterType(last), NoData), 0, '\0', [])
    ensures last == '\n' ==> NextToken(last, buf, cs).token.kind == ENDL
    ensures last == '|' ==> NextToken(last, buf, cs).token.kind == PIPE
    ensures last == '<' ==> NextToken(last, buf, cs).token.kind == IN
    ensures last == '>' ==> NextToken(last, buf, cs).token.kind == OUT
  {
  }

  /** A first byte '|', '<', '>' or '\n' (after any spaces) is a token of its
      own; it is appended to the line buffer and nothing becomes pending. */
  lemma {:induction false} DelimiterToken(last: char, buf: Dynamic.Buffer, cs: seq<char>)
    requires Dynamic.Fits(buf) && !IsDelimiter(last)
    requires FirstNonSpace(cs, 0) < |cs| && IsDelimiter(cs[FirstNonSpace(cs, 0)])
    ensures var n0 := FirstNonSpace(cs, 0); var r := NextToken(last, buf, cs);
      && r.Lexed? && r.token == Token(DelimiterType(cs[n0]), NoData) && r.consumed == n0 + 1 && r.last == last
      && r.appended == [cs[n0]]
  {
  }

  /** A STRING runs from the opening quote at n0 through the first byte that
      ends it, cs[n - 1]: a quote whose predecessor is not a backslash, or a
      NUL. Both quotes and every backslash stay in its text, no other byte (a
      newline included) ends it, and the text followed by a NUL is what the
      line buffer gains. */
  lemma {:induction false} StringToken(last: char, buf: Dynamic.Buffer, cs: seq<char>, n: nat)
    requires Dynamic.Fits(buf) && !IsDelimiter(last)
    requires FirstNonSpace(cs, 0) < |cs| && cs[FirstNonSpace(cs, 0)] == '"'
    requires var n0 := FirstNonSpace(cs, 0); n0 + 1 < n <= |cs| && StringStops('"', cs, n0 + 1, n)
    ensures var n0 := FirstNonSpace(cs, 0);
      var text := if cs[n - 1] == '\0' then cs[n0..n - 1] else cs[n0..n];
      NextToken(last, buf, cs) == Lexed(Token(STRING, Text(text)), n, last, text + ['\0'])
  {
    var n0 := FirstNonSpace(cs, 0);
    ScanStringAt('"', cs, n0 + 1, n);
    StringText(cs, n0, n);
    assert NextToken(last, buf, cs) == StringLex(last, cs, n0);
  }

  /** A STRING that is lexed stopped at the first byte that ends it. */
  lemma {:induction false} StringLexScan(last: char, buf: Dynamic.Buffer, cs: seq<char>)
    requires Dynamic.Fits(buf) && !IsDelimiter(last)
    requires FirstNonSpace(cs, 0) < |cs| && cs[FirstNonSpace(cs, 0)] == '"'
    ensures var n0 := FirstNonSpace(cs, 0); var r := NextToken(last, buf, cs);
      r.Lexed? ==> n0 + 1 < r.consumed && StringStops('"', cs, n0 + 1, r.consumed)
  {
    var n0 := FirstNonSpace(cs, 0);
    assert NextToken(last, buf, cs) == StringLex(last, cs, n0);
    ScanStringDone('"', cs, n0 + 1);
  }

  /** A STRING with no byte in `cs` that ends it needs more bytes; i is the
      position after its opening quote. */
  lemma {:induction false} StringNeedsMore(last: char, buf: Dynamic.Buffer, cs: seq<char>, i: nat)
    requires Dynamic.Fits(buf) && !IsDelimiter(last)
    requires i == FirstNonSpace(cs, 0) + 1 <= |cs| && cs[i - 1] == '"'
    requires forall k :: i <= k < |cs| ==> StringGoesOn('"', cs, i, k)
    ensures NextToken(last, buf, cs) == NeedMore
  {
    assert NextToken(last, buf, cs) == StringLex(last, cs, i - 1);
    ScanStringDone('"', cs, i);
  }

  /** The text of a finished STRING scan. */
  lemma {:induction false} StringText(cs: seq<char>, n0: nat, n: nat)
    requires n0 + 1 < n <= |cs| && cs[n0] == '"' && StringStops('"', cs, n0 + 1, n)
    ensures var text := if cs[n - 1] == '\0' then cs[n0..n - 1] else cs[n0..n];
      ['"'] + (cs[n0 + 1..n - 1] + StringEnd(cs[n - 1])) == text && CString(text) == text
  {
    var text := if cs[n - 1] == '\0' then cs[n0..n - 1] else cs[n0..n];
    assert text == ['"'] + (cs[n0 + 1..n - 1] + StringEnd(cs[n - 1]));
    StringNulFree(cs, n0, n);
    CStringOfNulFree(text);
  }

  /** No byte of a STRING's text is a NUL. */
  lemma {:induction false} StringNulFree(cs: seq<char>, n0: nat, n: nat)
    requires n0 + 1 < n <= |cs| && cs[n0] == '"' && StringStops('"', cs, n0 + 1, n)
    ensures '\0' !in (if cs[n - 1] == '\0' then cs[n0..n - 1] else cs[n0..n])
  {
    var text := if cs[n - 1] == '\0' then cs[n0..n - 1] else cs[n0..n];
    forall k | 0 <= k < |text| ensures text[k] != '\0' {
      assert text[k] == cs[n0 + k];
      if 0 < k && n0 + k < n - 1 {
        assert StringGoesOn('"', cs, n0 + 1, n0 + k);
      }
    }
  }

  /** A word runs from cs[n0] up to the first byte that ends it, cs[n - 1]: an
      unescaped space (consumed, not kept), a delimiter (which becomes pending)
      or a NUL byte. Only a space is escapable, and an escaped space stays in
      the word with its backslash. A word that starts with pwd, cd, help or
      exit (tried in that order) is that KEYWORD; stopped by a space or a
      delimiter, the token is exactly Classify of the bytes read. The line
      buffer gains the word, a NUL unless a NUL stopped it, and one more NUL
      for a WORD token. */
  lemma {:induction false} WordToken(last: char, buf: Dynamic.Buffer, cs: seq<char>, n: nat)
    requires Dynamic.Fits(buf) && !IsDelimiter(last)
    requires FirstNonSpace(cs, 0) < |cs|
    requires var c := cs[FirstNonSpace(cs, 0)]; c != '"' && c != '\0' && !IsDelimiter(c)
    requires var n0 := FirstNonSpace(cs, 0); n0 + 1 < n <= |cs| && WordStops(cs[n0], cs, n0 + 1, n)
    ensures var n0 := FirstNonSpace(cs, 0); var r := NextToken(last, buf, cs); var w := cs[n0..n - 1];
      && r.Lexed? && r.consumed == n
      && r.last == (if IsDelimiter(cs[n - 1]) then cs[n - 1] else last)
      && (r.token.kind == KEYWORD || r.token == Token(WORD, Text(w)))
      && (KeywordOf(w).Some? ==> r.token == Classify(w))
      && (cs[n - 1] != '\0' ==> r.token == Classify(w))
      && r.appended == w + WordEnd(cs[n - 1]) + (if r.token.kind == WORD then ['\0'] else [])
  {
    var n0 := FirstNonSpace(cs, 0);
    assert NextToken(last, buf, cs) == WordLex(last, buf, cs, n0);
    var w, tail := cs[n0..n - 1], WordEnd(cs[n - 1]);
    WordLexAt(last, buf, cs, n0, n);
    WordLexeme(buf, w + tail, w, tail, n, if IsDelimiter(cs[n - 1]) then cs[n - 1] else last);
  }

  /** A word that is lexed stopped at the first byte that ends it. */
  lemma {:induction false} WordLexScan(last: char, buf: Dynamic.Buffer, cs: seq<char>)
    requires Dynamic.Fits(buf) && !IsDelimiter(last)
    requires FirstNonSpace(cs, 0) < |cs|
    requires var c := cs[FirstNonSpace(cs, 0)]; c != '"' && !IsDelimiter(c)
    ensures var n0 := FirstNonSpace(cs, 0); var r := NextToken(last, buf, cs);
      r.Lexed? ==> n0 + 1 < r.consumed && WordStops(cs[n0], cs, n0 + 1, r.consumed)
  {
    var n0 := FirstNonSpace(cs, 0);
    assert NextToken(last, buf, cs) == WordLex(last, buf, cs, n0);
    if WordLex(last, buf, cs, n0).Lexed? {
      WordLexStops(last, buf, cs, n0);
    }
  }

  /** The same for the WORD branch from cs[n0]. */
  lemma {:induction false} WordLexStops(last: char, buf: Dynamic.Buffer, cs: seq<char>, n0: nat)
    requires Dynamic.Fits(buf) && n0 < |cs| && WordLex(last, buf, cs, n0).Lexed?
    ensures var r := WordLex(last, buf, cs, n0); n0 + 1 < r.consumed && WordStops(cs[n0], cs, n0 + 1, r.consumed)
  {
    ScanWordDone(cs[n0], cs, n0 + 1);
    assert ScanWord(cs[n0], cs, n0 + 1).Done?;
  }

  /** A word with no byte in `cs` that ends it needs more bytes; i is the
      position after its first byte. */
  lemma {:induction false} WordNeedsMore(last: char, buf: Dynamic.Buffer, cs: seq<char>, i: nat, c: char)
    requires Dynamic.Fits(buf) && !IsDelimiter(last)
    requires i == FirstNonSpace(cs, 0) + 1 <= |cs| && c == cs[i - 1] && c != '"' && !IsDelimiter(c)
    requires forall k :: i <= k < |cs| ==> WordGoesOn(c, cs, i, k)
    ensures NextToken(last, buf, cs) == NeedMore
  {
    assert NextToken(last, buf, cs) == WordLex(last, buf, cs, i - 1);
    ScanWordDone(c, cs, i);
  }

  /** The WORD branch on a word that stops at cs[n - 1] is WordLexed of the
      word's bytes and the NUL its stop byte leaves, and the C string at the
      lexeme's start is the word. */
  lemma {:induction false} WordLexAt(last: char, buf: Dynamic.Buffer, cs: seq<char>, n0: nat, n: nat)
    requires Dynamic.Fits(buf) && n0 < |cs| && cs[n0] != '\0'
    requires n0 + 1 < n <= |cs| && WordStops(cs[n0], cs, n0 + 1, n)
    ensures WordLex(last, buf, cs, n0)
      == WordLexed(buf, cs[n0..n - 1] + WordEnd(cs[n - 1]), n, if IsDelimiter(cs[n - 1]) then cs[n - 1] else last)
    ensures CString(cs[n0..n - 1] + WordEnd(cs[n - 1])) == cs[n0..n - 1]
  {
    ScanWordAt(cs[n0], cs, n0 + 1, n);
    WordText(cs, n0, n);
  }

  /** The token of a word lexeme `w + tail` appended to the line buffer. */
  lemma {:induction false} WordLexeme(buf: Dynamic.Buffer, lexeme: seq<char>, w: seq<char>, tail: seq<char>, n: nat, l2: char)
    requires Dynamic.Fits(buf) && (tail == [] || tail == ['\0'])
    requires lexeme == w + tail && CString(lexeme) == w
    ensures var r := WordLexed(buf, lexeme, n, l2); var t := r.token;
      && (t.kind == KEYWORD || t == Token(WORD, Text(w)))
      && (KeywordOf(w).Some? ==> t == Classify(w))
      && (tail != [] ==> t == Classify(w))
      && r.appended == w + tail + (if t.kind == WORD then ['\0'] else [])
  {
    KeywordInBuffer(buf, w, tail);
  }

  /** The keyword test on the line buffer after a word w and its `tail` (a
      NUL or nothing) were appended. */
  lemma {:induction false} KeywordInBuffer(buf: Dynamic.Buffer, w: seq<char>, tail: seq<char>)
    requires Dynamic.Fits(buf) && (tail == [] || tail == ['\0'])
    ensures var k := KeywordAt(Dynamic.AppendEach(buf, w + tail).data, buf.used);
      && (KeywordOf(w).Some? ==> k == KeywordOf(w))
      && (tail != [] ==> k == KeywordOf(w))
  {
    var b2 := Dynamic.AppendEach(buf, w + tail);
    WordInBuffer(buf, w, tail);
    KeywordAtOfPrefix(b2.data, buf.used, w);
    if tail != [] {
      KeywordAtOfTerminated(b2.data, buf.used, w);
    }
  }

  /** The text of a finished WORD scan. */
  lemma {:induction false} WordText(cs: seq<char>, n0: nat, n: nat)
    requires n0 + 1 < n <= |cs| && cs[n0] != '\0' && WordStops(cs[n0], cs, n0 + 1, n)
    ensures [cs[n0]] + (cs[n0 + 1..n - 1] + WordEnd(cs[n - 1])) == cs[n0..n - 1] + WordEnd(cs[n - 1])
    ensures CString(cs[n0..n - 1] + WordEnd(cs[n - 1])) == cs[n0..n - 1]
  {
    var w := cs[n0..n - 1];
    assert [cs[n0]] + (cs[n0 + 1..n - 1] + WordEnd(cs[n - 1])) == w + WordEnd(cs[n - 1]);
    WordNulFree(cs, n0, n);
    CStringOfNulFree(w);
    if cs[n - 1] != '\0' {
      CStringNul(w);
    } else {
      assert w + WordEnd(cs[n - 1]) == w;
    }
  }

  /** No byte of a word is a NUL. */
  lemma {:induction false} WordNulFree(cs: seq<char>, n0: nat, n: nat)
    requires n0 + 1 < n <= |cs| && cs[n0] != '\0' && WordStops(cs[n0], cs, n0 + 1, n)
    ensures '\0' !in cs[n0..n - 1]
  {
    var w := cs[n0..n - 1];
    forall k | 0 <= k < |w| ensures w[k] != '\0' {
      assert w[k] == cs[n0 + k];
      if k > 0 {
        assert WordGoesOn(cs[n0], cs, n0 + 1, n0 + k);
      }
    }
  }

  /** Where a word sits in the line buffer before its terminating NUL. */
  lemma {:induction false} WordInBuffer(buf: Dynamic.Buffer, w: seq<char>, tail: seq<char>)
    requires Dynamic.Fits(buf) && (tail == [] || tail == ['\0'])
    ensures var b2 := Dynamic.AppendEach(buf, w + tail);
      && Dynamic.Contents(b2) == Dynamic.Contents(buf) + (w + tail)
      && buf.used + |w| <= |b2.data| && b2.data[buf.used..buf.used + |w|] == w
      && (tail != [] ==> buf.used + |w| < |b2.data| && b2.data[buf.used + |w|] == '\0')
  {
    var b2 := Dynamic.AppendEach(buf, w + tail);
    LexemeInBuffer(buf, w + tail);
    var lexeme := b2.data[buf.used..b2.used];
    assert b2.data[buf.used..buf.used + |w|] == lexeme[..|w|];
    assert lexeme[..|w|] == w;
    if tail != [] {
      assert b2.data[buf.used + |w|] == lexeme[|w|] == '\0';
    }
  }

  /** The keyword test on a block holding the word w at `start`: when w starts
      with a keyword the test finds that keyword (the four spellings start with
      different letters). */
  lemma {:induction false} KeywordAtOfPrefix(data: seq<char>, start: nat, w: seq<char>)
    requires start + |w| <= |data| && data[start..start + |w|] == w
    ensures KeywordOf(w).Some? ==> KeywordAt(data, start) == KeywordOf(w)
  {
    if KeywordOf(w).Some? {
      KeywordOfSpelled(w);
      var kw := Spelling(KeywordOf(w).value).value;
      assert data[start..start + |kw|] == kw;
      assert data[start] == w[0] == kw[0];
    }
  }

  /** With a NUL right after w, the block matches a keyword exactly when w
      starts with it. */
  lemma {:induction false} MatchesAtTerminated(data: seq<char>, start: nat, w: seq<char>, kw: seq<char>)
    requires start + |w| < |data| && data[start..start + |w|] == w && data[start + |w|] == '\0'
    requires '\0' !in kw
    ensures MatchesAt(data, start, kw) <==> kw <= w
    decreases |kw|
  {
    if kw <= w {
      assert data[start..start + |kw|] == w[..|kw|];
    }
    if kw != [] && MatchesAt(data, start, kw) {
      assert data[start] == kw[0] != '\0';
      assert w != [];
      assert data[start + 1..start + 1 + |w[1..]|] == w[1..];
      assert data[start + 1..start + 1 + |kw[1..]|] == kw[1..];
      assert '\0' !in kw[1..];
      MatchesAtTerminated(data, start + 1, w[1..], kw[1..]);
      assert kw == [w[0]] + kw[1..] && w == [w[0]] + w[1..];
    }
  }

  /** With a NUL right after w, the keyword test is the prefix test on w. */
  lemma {:induction false} KeywordAtOfTerminated(data: seq<char>, start: nat, w: seq<char>)
    requires start + |w| < |data| && data[start..start + |w|] == w && data[start + |w|] == '\0'
    ensures KeywordAt(data, start) == KeywordOf(w)
  {
    MatchesAtTerminated(data, start, w, "pwd");
    MatchesAtTerminated(data, start, w, "cd");
    MatchesAtTerminated(data, start, w, "help");
    MatchesAtTerminated(data, start, w, "exit");
  }

  // ---------------------------------------------------------------------------
  // Concrete lexemes

  /** `cdrom` is the keyword cd and `pwdx` the keyword pwd, `ls` is a word;
      a tab is not skipped. */
  lemma KeywordIsAPrefixTest()
    ensures Classify("cdrom") == Token(KEYWORD, KeywordCode(CD))
    ensures Classify("pwdx") == Token(KEYWORD, KeywordCode(PWD))
    ensures Classify("ls") == Token(WORD, Text("ls"))
    ensures FirstNonSpace("  \tx", 0) == 2
  {
    assert !("pwd" <= "cdrom") by { assert "pwd"[0] != "cdrom"[0]; }
    assert "cd" <= "cdrom" by { assert "cdrom"[..2] == "cd"; }
    assert "pwd" <= "pwdx" by { assert "pwdx"[..3] == "pwd"; }
    assert !("pwd" <= "ls") by { assert "pwd"[0] != "ls"[0]; }
    assert !("cd" <= "ls") by { assert "cd"[0] != "ls"[0]; }
    assert !("help" <= "ls");
    assert !("exit" <= "ls");
  }

  // ---------------------------------------------------------------------------
  // tokenizer_nextLine's spec

  /** The buffer's last byte is a newline (tokenizer_nextLine's test, negated). */
  predicate EndsLine(b: Dynamic.Buffer)
    requires Dynamic.Fits(b)
  {
    b.used > 0 && b.data[b.used - 1] == '\n'
  }

  /** `ys` is a whole line: it ends with its only newline. */
  predicate ThroughNewline(ys: seq<char>) {
    ys != [] && ys[|ys| - 1] == '\n' && forall k :: 0 <= k < |ys| - 1 ==> ys[k] != '\n'
  }

  /** Regrouping the bytes a reader has yielded. */
  lemma {:induction false} Regroup(a: seq<char>, b: seq<char>, c: seq<char>)
    ensures a + b + c == a + (b + c)
  {
  }

  /** One more dynamic_add of a byte while a lexeme that started with c0 is
      being scanned. */
  lemma {:induction false} Snoc(b0: Dynamic.Buffer, c0: char, zs: seq<char>, x: char)
    requires Dynamic.Fits(b0)
    ensures Dynamic.Appended(Dynamic.AppendEach(b0, [c0] + zs), [x]) == Dynamic.AppendEach(b0, [c0] + (zs + [x]))
  {
    Dynamic.AppendEachSnoc(b0, [c0] + zs, x);
    assert [c0] + zs + [x] == [c0] + (zs + [x]);
  }

  /** The last byte of the line buffer after `c0` and then `zs` were
      appended to it: the one the byte loops read as the previous byte. */
  lemma {:induction false} LastAppended(b0: Dynamic.Buffer, c0: char, zs: seq<char>)
    requires Dynamic.Fits(b0)
    ensures var b := Dynamic.AppendEach(b0, [c0] + zs);
      0 < b.used < |b.data| && b.data[b.used - 1] == (if zs == [] then c0 else zs[|zs| - 1])
  {
    var b := Dynamic.AppendEach(b0, [c0] + zs);
    LexemeInBuffer(b0, [c0] + zs);
    Dynamic.AppendEachAt(b0, [c0] + zs, b.used - 1);
  }

  /** tokenizer_next on a STRING whose opening quote is the last of the
      bytes `ys` of the space loop and whose scan read `zs`. */
  lemma {:induction false} NextString(last: char, b0: Dynamic.Buffer, ys: seq<char>, zs: seq<char>, kept: seq<char>)
    requires Dynamic.Fits(b0) && !IsDelimiter(last) && ys != [] && ys[|ys| - 1] == '"'
    requires FirstNonSpace(ys, 0) == |ys| - 1
    requires ScanString('"', ys + zs, |ys|) == Done(|ys + zs|, kept)
    ensures NextToken(last, b0, ys + zs)
      == Lexed(Token(STRING, Text(CString(['"'] + kept))), |ys + zs|, last, ['"'] + kept + ['\0'])
  {
    FirstNonSpaceExtend(ys, zs, 0);
    assert (ys + zs)[|ys| - 1] == '"';
    assert NextToken(last, b0, ys + zs) == StringLex(last, ys + zs, |ys| - 1);
  }

  /** tokenizer_next on a word whose first byte c is the last of the bytes
      `ys` of the space loop and whose scan read `zs`. */
  lemma {:induction false} NextWord(last: char, b0: Dynamic.Buffer, ys: seq<char>, zs: seq<char>, kept: seq<char>)
    requires Dynamic.Fits(b0) && !IsDelimiter(last) && ys != [] && zs != []
    requires var c := ys[|ys| - 1]; c != '"' && !IsDelimiter(c)
    requires FirstNonSpace(ys, 0) == |ys| - 1
    requires ScanWord(ys[|ys| - 1], ys + zs, |ys|) == Done(|ys + zs|, kept)
    ensures var c := ys[|ys| - 1];
      var kw := KeywordAt(Dynamic.AppendEach(b0, [c] + kept).data, b0.used);
      var l2 := if IsDelimiter(zs[|zs| - 1]) then zs[|zs| - 1] else last;
      NextToken(last, b0, ys + zs)
        == Lexed(WordTokenOf(kw, CString([c] + kept)), |ys + zs|, l2, [c] + kept + (if kw.Some? then [] else ['\0']))
  {
    FirstNonSpaceExtend(ys, zs, 0);
    assert (ys + zs)[|ys| - 1] == ys[|ys| - 1];
    assert (ys + zs)[|ys + zs| - 1] == zs[|zs| - 1];
    assert NextToken(last, b0, ys + zs) == WordLex(last, b0, ys + zs, |ys| - 1);
  }

  // ---------------------------------------------------------------------------
  // The tokenizer object

  /** struct tokenizer. */
  class Tokenizer {
    var lineBuffer: Dynamic.Dynamic
    var reader: Reader.Reader
    var last: char

    ghost predicate Valid()
      reads this, lineBuffer, reader
    {
      lineBuffer.Valid() && reader.Valid() && lineBuffer.data != reader.buff
    }

    /** tokenizer_create; `last` starts as false, the NUL byte. */
    constructor Create(reader: Reader.Reader)
      requires reader.Valid()
      ensures Valid() && this.reader == reader && last == '\0'
      ensures fresh(lineBuffer) && fresh(lineBuffer.data) && lineBuffer.Value() == Dynamic.Created()
    {
      this.reader := reader;
      lineBuffer := new Dynamic.Dynamic.Create();
      last := '\0';
    }

    /** A copy of the struct made by passing it by value: its own `last` and
        counts, the caller's block and reader. */
    constructor CopyOf(other: Tokenizer)
      requires other.Valid()
      ensures Valid() && reader == other.reader && last == other.last && fresh(lineBuffer)
      ensures lineBuffer.data == other.lineBuffer.data && lineBuffer.Value() == other.lineBuffer.Value()
    {
      reader := other.reader;
      last := other.last;
      lineBuffer := new Dynamic.Dynamic.CopyOf(other.lineBuffer);
    }

    /** tokenizer_next. The model stops where the reader has run off its buffer
        (undefined behaviour in C); every statement about the token is made for
        a reader that has not. */
    method Next() returns (t: Token, ghost ys: seq<char>, ghost lex: seq<char>)
      requires Valid() && !reader.overran
      modifies this, lineBuffer, lineBuffer.data, reader, reader.buff
      ensures Valid() && lineBuffer == old(lineBuffer) && reader == old(reader) && reader.fd == old(reader.fd)
      ensures lineBuffer.data == old(lineBuffer.data) || fresh(lineBuffer.data)
      ensures reader.Yielded == old(reader.Yielded) + ys
      ensures lineBuffer.Value() == Dynamic.AppendEach(old(lineBuffer.Value()), lex)
      ensures !reader.overran ==> NextToken(old(last), old(lineBuffer.Value()), ys) == Lexed(t, |ys|, last, lex)
      ensures IsDelimiter(old(last)) ==> ys == [] && !reader.overran && reader.Value() == old(reader.Value()) && last == '\0'
      ensures !IsDelimiter(old(last)) ==> reader.overran || Reader.Decreased(old(reader.Value()), reader.Value())
    {
      if IsDelimiter(last) {
        t := Token(DelimiterType(last), NoData);
        ys, lex := [], [];
        last := '\0';
      } else {
        t, ys, lex := NextLexeme();
      }
    }

    /** tokenizer_next with no delimiter pending: the space loop, the
        lexeme's first byte, and the branch that byte selects. */
    method NextLexeme() returns (t: Token, ghost ys: seq<char>, ghost lex: seq<char>)
      requires Valid() && !reader.overran && !IsDelimiter(last)
      modifies this, lineBuffer, lineBuffer.data, reader, reader.buff
      ensures Valid() && lineBuffer == old(lineBuffer) && reader == old(reader) && reader.fd == old(reader.fd)
      ensures lineBuffer.data == old(lineBuffer.data) || fresh(lineBuffer.data)
      ensures reader.Yielded == old(reader.Yielded) + ys
      ensures lineBuffer.Value() == Dynamic.AppendEach(old(lineBuffer.Value()), lex)
      ensures !reader.overran ==> NextToken(old(last), old(lineBuffer.Value()), ys) == Lexed(t, |ys|, last, lex)
      ensures reader.overran || Reader.Decreased(old(reader.Value()), reader.Value())
    {
      lex := [];
      ghost var b0 := lineBuffer.Value();
      var c;
      c, ys := SkipSpaces();
      if reader.overran {
        // From here on the C program reads outside the reader's buffer.
        t := Token(WORD, Text([]));
        return;
      }
      FirstNonSpaceSkips(ys, 0, |ys| - 1);
      lineBuffer.Append([c]);
      Dynamic.AppendEachSnoc(b0, [], c);
      ghost var zs;
      t, zs, lex := Lexeme(b0, ys, c);
      Regroup(old(reader.Yielded), ys, zs);
      ys := ys + zs;
    }

    /** The three branches of tokenizer_next on the first byte c of a lexeme,
        which the space loop read as the last of `ys0` and which has been
        appended to the line buffer `b0`. */
    method Lexeme(ghost b0: Dynamic.Buffer, ghost ys0: seq<char>, c: char)
      returns (t: Token, ghost zs: seq<char>, ghost lex: seq<char>)
      requires Valid() && !reader.overran && Dynamic.Fits(b0) && !IsDelimiter(last)
      requires ys0 != [] && ys0[|ys0| - 1] == c && FirstNonSpace(ys0, 0) == |ys0| - 1
      requires lineBuffer.Value() == Dynamic.AppendEach(b0, [c])
      modifies this, lineBuffer, lineBuffer.data, reader, reader.buff
      ensures Valid() && lineBuffer == old(lineBuffer) && reader == old(reader) && reader.fd == old(reader.fd)
      ensures lineBuffer.data == old(lineBuffer.data) || fresh(lineBuffer.data)
      ensures reader.Yielded == old(reader.Yielded) + zs
      ensures lineBuffer.Value() == Dynamic.AppendEach(b0, lex)
      ensures !reader.overran ==> NextToken(old(last), b0, ys0 + zs) == Lexed(t, |ys0 + zs|, last, lex)
      ensures zs == [] ==> reader.Value() == old(reader.Value())
      ensures zs != [] ==> reader.overran || Reader.Decreased(old(reader.Value()), reader.Value())
    {
      if c == '"' {
        ghost var kept;
        t, zs, kept := LexString(b0, ys0, c);
        NextString(last, b0, ys0, zs, kept);
        lex := [c] + kept + ['\0'];
      } else if IsDelimiter(c) {
        t := Token(DelimiterType(c), NoData);
        zs, lex := [], [c];
        assert ys0 + zs == ys0;
      } else {
        ghost var kept;
        t, zs, kept, lex := LexWord(b0, ys0, c);
        NextWord(old(last), b0, ys0, zs, kept);
      }
    }

    /** The STRING branch of tokenizer_next, after the opening quote c was
        appended to the line buffer `b0`: the scan loop, the NUL after the
        lexeme, and the token pointing at the lexeme's start. */
    method LexString(ghost b0: Dynamic.Buffer, ghost ys0: seq<char>, c: char)
      returns (t: Token, ghost zs: seq<char>, ghost kept: seq<char>)
      requires Valid() && !reader.overran && Dynamic.Fits(b0)
      requires lineBuffer.Value() == Dynamic.AppendEach(b0, [c])
      modifies lineBuffer, lineBuffer.data, reader, reader.buff
      ensures Valid() && reader.fd == old(reader.fd)
      ensures lineBuffer.data == old(lineBuffer.data) || fresh(lineBuffer.data)
      ensures reader.Yielded == old(reader.Yielded) + zs
      ensures reader.overran || Reader.Decreased(old(reader.Value()), reader.Value())
      ensures ScanString(c, ys0 + zs, |ys0|) == Done(|ys0 + zs|, kept)
      ensures lineBuffer.Value() == Dynamic.AppendEach(b0, [c] + kept + ['\0'])
      ensures t == Token(STRING, Text(CString([c] + kept)))
    {
      var data, size := lineBuffer.Get();
      var start := size - 1;
      Dynamic.AppendEachContents(b0, [c]);
      zs, kept := ScanStringLoop(b0, ys0, c);
      t := StringEnded(b0, [c] + kept, start);
    }

    /** The end of the STRING branch, once the lexeme's bytes were appended to
        the line buffer `b0` from `start` on: a NUL, and the text at the
        lexeme's start. */
    method StringEnded(ghost b0: Dynamic.Buffer, ghost lexeme: seq<char>, start: nat) returns (t: Token)
      requires Valid() && Dynamic.Fits(b0) && start == b0.used
      requires lineBuffer.Value() == Dynamic.AppendEach(b0, lexeme)
      modifies lineBuffer, lineBuffer.data
      ensures Valid() && (lineBuffer.data == old(lineBuffer.data) || fresh(lineBuffer.data))
      ensures lineBuffer.Value() == Dynamic.AppendEach(b0, lexeme + ['\0'])
      ensures t == Token(STRING, Text(CString(lexeme)))
    {
      lineBuffer.Append("\0");
      Dynamic.AppendEachSnoc(b0, lexeme, '\0');
      var data, size := lineBuffer.Get();
      LexemeInBuffer(b0, lexeme + ['\0']);
      CStringNul(lexeme);
      t := Token(STRING, Text(CString(data[start..size])));
    }

    /** The WORD branch of tokenizer_next, after the first byte c was
        appended to the line buffer `b0`: the scan loop, the keyword test on
        the block, and for a WORD the NUL after it. */
    method LexWord(ghost b0: Dynamic.Buffer, ghost ys0: seq<char>, c: char)
      returns (t: Token, ghost zs: seq<char>, ghost kept: seq<char>, ghost lex: seq<char>)
      requires Valid() && !reader.overran && Dynamic.Fits(b0)
      requires lineBuffer.Value() == Dynamic.AppendEach(b0, [c])
      modifies this, lineBuffer, lineBuffer.data, reader, reader.buff
      ensures Valid() && lineBuffer == old(lineBuffer) && reader == old(reader) && reader.fd == old(reader.fd)
      ensures lineBuffer.data == old(lineBuffer.data) || fresh(lineBuffer.data)
      ensures reader.Yielded == old(reader.Yielded) + zs
      ensures reader.overran || Reader.Decreased(old(reader.Value()), reader.Value())
      ensures ScanWord(c, ys0 + zs, |ys0|) == Done(|ys0 + zs|, kept)
      ensures zs != [] && last == (if IsDelimiter(zs[|zs| - 1]) then zs[|zs| - 1] else old(last))
      ensures var kw := KeywordAt(Dynamic.AppendEach(b0, [c] + kept).data, b0.used);
        t == WordTokenOf(kw, CString([c] + kept)) && lex == [c] + kept + (if kw.Some? then [] else ['\0'])
      ensures lineBuffer.Value() == Dynamic.AppendEach(b0, lex)
    {
      var data, size := lineBuffer.Get();
      var start := size - 1;
      Dynamic.AppendEachContents(b0, [c]);
      var stop;
      stop, zs, kept := ScanWordLoop(b0, ys0, c);
      RecordDelimiter(stop);
      t, lex := WordEnded(b0, [c] + kept, start);
    }

    /** The WORD loop records the delimiter that stopped it, just before
        leaving, as the pending one. */
    method RecordDelimiter(c: char)
      requires Valid()
      modifies this
      ensures Valid() && lineBuffer == old(lineBuffer) && reader == old(reader)
      ensures last == (if IsDelimiter(c) then c else old(last))
    {
      if IsDelimiter(c) {
        last := c;
      }
    }

    /** The end of the WORD branch, once the word's bytes `lexeme` were
        appended to the line buffer `b0` from `start` on: the keyword test on
        the block, and for a WORD a NUL and the text at the lexeme's start. */
    method WordEnded(ghost b0: Dynamic.Buffer, ghost lexeme: seq<char>, start: nat) returns (t: Token, ghost lex: seq<char>)
      requires Valid() && Dynamic.Fits(b0) && start == b0.used
      requires lineBuffer.Value() == Dynamic.AppendEach(b0, lexeme)
      modifies lineBuffer, lineBuffer.data
      ensures Valid() && (lineBuffer.data == old(lineBuffer.data) || fresh(lineBuffer.data))
      ensures var kw := KeywordAt(Dynamic.AppendEach(b0, lexeme).data, b0.used);
        t == WordTokenOf(kw, CString(lexeme)) && lex == lexeme + (if kw.Some? then [] else ['\0'])
      ensures lineBuffer.Value() == Dynamic.AppendEach(b0, lex)
    {
      lex := lexeme;
      var data, size := lineBuffer.Get();
      var kw := KeywordAt(data[..], start);
      if kw.Some? {
        t := Token(KEYWORD, KeywordCode(kw.value));
      } else {
        lineBuffer.Append("\0");
        Dynamic.AppendEachSnoc(b0, lexeme, '\0');
        lex := lexeme + ['\0'];
        data, size := lineBuffer.Get();
        LexemeInBuffer(b0, lex);
        CStringNul(lexeme);
        t := Token(WORD, Text(CString(data[start..size])));
      }
    }

    /** `do c = reader_getc(reader); while (c == ' ')`. */
    method SkipSpaces() returns (c: char, ghost ys: seq<char>)
      requires Valid() && !reader.overran
      modifies reader, reader.buff
      ensures Valid() && reader.fd == old(reader.fd)
      ensures reader.Yielded == old(reader.Yielded) + ys
      ensures ys != [] && ys[|ys| - 1] == c && c != ' ' && forall k :: 0 <= k < |ys| - 1 ==> ys[k] == ' '
      ensures reader.overran || Reader.Decreased(old(reader.Value()), reader.Value())
    {
      ys := [];
      c := ' ';
      while c == ' '
        invariant Valid() && reader.fd == old(reader.fd)
        invariant reader.Yielded == old(reader.Yielded) + ys
        invariant forall k :: 0 <= k < |ys| - 1 ==> ys[k] == ' '
        invariant ys == [] ==> c == ' ' && reader.Value() == old(reader.Value())
        invariant ys != [] ==> c == ys[|ys| - 1]
        invariant c == ' ' ==> !reader.overran
        invariant ys != [] ==> reader.overran || Reader.Decreased(old(reader.Value()), reader.Value())
        decreases if c == ' ' then 1 else 0, Reader.RefillBudget(reader.Value()), Reader.ByteBudget(reader.Value())
      {
        c := reader.GetcFixed();
        Regroup(old(reader.Yielded), ys, [c]);
        ys := ys + [c];
      }
    }

    /** The STRING loop of tokenizer_next, from the byte after the opening quote
        `c0`; `r` is the scan of the bytes read so far. The reader running off
        its buffer yields a NUL, which ends the loop. */
    method ScanStringLoop(ghost b0: Dynamic.Buffer, ghost ys0: seq<char>, ghost c0: char)
      returns (ghost zs: seq<char>, ghost kept: seq<char>)
      requires Valid() && !reader.overran && Dynamic.Fits(b0)
      requires lineBuffer.Value() == Dynamic.AppendEach(b0, [c0])
      modifies lineBuffer, lineBuffer.data, reader, reader.buff
      ensures Valid() && reader.fd == old(reader.fd)
      ensures lineBuffer.data == old(lineBuffer.data) || fresh(lineBuffer.data)
      ensures reader.Yielded == old(reader.Yielded) + zs
      ensures ScanString(c0, ys0 + zs, |ys0|) == Done(|ys0 + zs|, kept)
      ensures lineBuffer.Value() == Dynamic.AppendEach(b0, [c0] + kept)
      ensures zs != [] && (reader.overran || Reader.Decreased(old(reader.Value()), reader.Value()))
    {
      zs := [];
      ghost var r := Pending([]);
      var stop := false;
      while !stop
        invariant Valid() && reader.fd == old(reader.fd)
        invariant lineBuffer.data == old(lineBuffer.data) || fresh(lineBuffer.data)
        invariant reader.Yielded == old(reader.Yielded) + zs
        invariant stop == r.Done? && ScanString(c0, ys0 + zs, |ys0|) == r
        invariant lineBuffer.Value() == Dynamic.AppendEach(b0, [c0] + r.kept)
        invariant r.Pending? ==> r.kept == zs && !reader.overran
        invariant r.Done? ==> r.next == |ys0 + zs| && zs != []
        invariant zs == [] ==> reader.Value() == old(reader.Value())
        invariant zs != [] ==> reader.overran || Reader.Decreased(old(reader.Value()), reader.Value())
        decreases if stop then 0 else 1, Reader.RefillBudget(reader.Value()), Reader.ByteBudget(reader.Value())
      {
        var c;
        c, stop, r := ReadStringByte(b0, ys0, c0, zs);
        Regroup(old(reader.Yielded), zs, [c]);
        zs := zs + [c];
      }
      kept := r.kept;
    }

    /** One round of the STRING loop: reader_getc and what the byte does. */
    method ReadStringByte(ghost b0: Dynamic.Buffer, ghost ys0: seq<char>, ghost c0: char, ghost zs: seq<char>)
      returns (c: char, stop: bool, ghost r: Scan)
      requires Valid() && !reader.overran && Dynamic.Fits(b0)
      requires ScanString(c0, ys0 + zs, |ys0|) == Pending(zs) && lineBuffer.Value() == Dynamic.AppendEach(b0, [c0] + zs)
      modifies lineBuffer, lineBuffer.data, reader, reader.buff
      ensures Valid() && reader.fd == old(reader.fd)
      ensures lineBuffer.data == old(lineBuffer.data) || fresh(lineBuffer.data)
      ensures reader.Yielded == old(reader.Yielded) + [c]
      ensures ScanString(c0, ys0 + (zs + [c]), |ys0|) == r && stop == r.Done?
      ensures lineBuffer.Value() == Dynamic.AppendEach(b0, [c0] + r.kept)
      ensures r.Done? ==> r.next == |ys0 + zs| + 1
      ensures r.Pending? ==> r.kept == zs + [c] && !reader.overran
      ensures reader.overran || Reader.Decreased(old(reader.Value()), reader.Value())
    {
      c := reader.GetcFixed();
      stop, r := StringByte(b0, ys0, c0, zs, c);
    }

    /** What one byte does in the STRING loop: a NUL stops it; any other byte
        is appended, and a quote the buffer does not show escaped stops it. The
        C code reads the byte in front of the quote after appending it, at
        size - 2; here it is read before, at size - 1, which the append leaves
        as it was. */
    method StringByte(ghost b0: Dynamic.Buffer, ghost ys0: seq<char>, ghost c0: char, ghost zs: seq<char>, c: char)
      returns (stop: bool, ghost r: Scan)
      requires lineBuffer.Valid() && Dynamic.Fits(b0)
      requires ScanString(c0, ys0 + zs, |ys0|) == Pending(zs) && lineBuffer.Value() == Dynamic.AppendEach(b0, [c0] + zs)
      modifies lineBuffer, lineBuffer.data
      ensures lineBuffer.Valid() && (lineBuffer.data == old(lineBuffer.data) || fresh(lineBuffer.data))
      ensures ScanString(c0, ys0 + (zs + [c]), |ys0|) == r && stop == r.Done?
      ensures lineBuffer.Value() == Dynamic.AppendEach(b0, [c0] + r.kept)
      ensures r.Done? ==> r.next == |ys0 + zs| + 1
      ensures r.Pending? ==> r.kept == zs + [c] && c != '\0'
    {
      StringStep(c0, ys0, zs, c);
      var data, size := lineBuffer.Get();
      LastAppended(b0, c0, zs);
      stop := c == '\0' || (c == '"' && data[size - 1] != '\\');
      r := Done(|ys0 + zs| + 1, zs);
      if c != '\0' {
        lineBuffer.Append([c]);
        Snoc(b0, c0, zs, c);
        r := if stop then Done(|ys0 + zs| + 1, zs + [c]) else Pending(zs + [c]);
      }
    }

    /** The WORD loop of tokenizer_next, from the byte after the first one `c0`;
        `r` is the scan of the bytes read so far. The reader running off its
        buffer yields a NUL, which ends the loop. `c` is the byte that stopped it. */
    method ScanWordLoop(ghost b0: Dynamic.Buffer, ghost ys0: seq<char>, ghost c0: char)
      returns (c: char, ghost zs: seq<char>, ghost kept: seq<char>)
      requires Valid() && !reader.overran && Dynamic.Fits(b0)
      requires lineBuffer.Value() == Dynamic.AppendEach(b0, [c0])
      modifies lineBuffer, lineBuffer.data, reader, reader.buff
      ensures Valid() && reader.fd == old(reader.fd)
      ensures lineBuffer.data == old(lineBuffer.data) || fresh(lineBuffer.data)
      ensures reader.Yielded == old(reader.Yielded) + zs
      ensures ScanWord(c0, ys0 + zs, |ys0|) == Done(|ys0 + zs|, kept)
      ensures lineBuffer.Value() == Dynamic.AppendEach(b0, [c0] + kept)
      ensures zs != [] && c == zs[|zs| - 1]
      ensures reader.overran || Reader.Decreased(old(reader.Value()), reader.Value())
    {
      zs := [];
      ghost var r := Pending([]);
      var stop := false;
      c := '\0';
      while !stop
        invariant Valid() && reader.fd == old(reader.fd)
        invariant lineBuffer.data == old(lineBuffer.data) || fresh(lineBuffer.data)
        invariant reader.Yielded == old(reader.Yielded) + zs
        invariant stop == r.Done? && ScanWord(c0, ys0 + zs, |ys0|) == r
        invariant lineBuffer.Value() == Dynamic.AppendEach(b0, [c0] + r.kept)
        invariant r.Pending? ==> r.kept == zs && !reader.overran
        invariant r.Done? ==> r.next == |ys0 + zs| && zs != []
        invariant zs != [] ==> c == zs[|zs| - 1]
        invariant zs == [] ==> reader.Value() == old(reader.Value())
        invariant zs != [] ==> reader.overran || Reader.Decreased(old(reader.Value()), reader.Value())
        decreases if stop then 0 else 1, Reader.RefillBudget(reader.Value()), Reader.ByteBudget(reader.Value())
      {
        c, stop, r := ReadWordByte(b0, ys0, c0, zs);
        Regroup(old(reader.Yielded), zs, [c]);
        zs := zs + [c];
      }
      kept := r.kept;
    }

    /** One round of the WORD loop: reader_getc and what the byte does. */
    method ReadWordByte(ghost b0: Dynamic.Buffer, ghost ys0: seq<char>, ghost c0: char, ghost zs: seq<char>)
      returns (c: char, stop: bool, ghost r: Scan)
      requires Valid() && !reader.overran && Dynamic.Fits(b0)
      requires ScanWord(c0, ys0 + zs, |ys0|) == Pending(zs) && lineBuffer.Value() == Dynamic.AppendEach(b0, [c0] + zs)
      modifies lineBuffer, lineBuffer.data, reader, reader.buff
      ensures Valid() && reader.fd == old(reader.fd)
      ensures lineBuffer.data == old(lineBuffer.data) || fresh(lineBuffer.data)
      ensures reader.Yielded == old(reader.Yielded) + [c]
      ensures ScanWord(c0, ys0 + (zs + [c]), |ys0|) == r && stop == r.Done?
      ensures lineBuffer.Value() == Dynamic.AppendEach(b0, [c0] + r.kept)
      ensures r.Done? ==> r.next == |ys0 + zs| + 1
      ensures r.Pending? ==> r.kept == zs + [c] && !reader.overran
      ensures reader.overran || Reader.Decreased(old(reader.Value()), reader.Value())
    {
      c := reader.GetcFixed();
      stop, r := WordByte(b0, ys0, c0, zs, c);
    }

    /** What one byte does in the WORD loop: a NUL stops the word; an
        unescaped space or a delimiter stops it with a NUL appended; any other
        byte is appended. The C code appends in three branches; here the byte
        to append is chosen first and appended once. */
    method WordByte(ghost b0: Dynamic.Buffer, ghost ys0: seq<char>, ghost c0: char, ghost zs: seq<char>, c: char)
      returns (stop: bool, ghost r: Scan)
      requires lineBuffer.Valid() && Dynamic.Fits(b0)
      requires ScanWord(c0, ys0 + zs, |ys0|) == Pending(zs) && lineBuffer.Value() == Dynamic.AppendEach(b0, [c0] + zs)
      modifies lineBuffer, lineBuffer.data
      ensures lineBuffer.Valid() && (lineBuffer.data == old(lineBuffer.data) || fresh(lineBuffer.data))
      ensures ScanWord(c0, ys0 + (zs + [c]), |ys0|) == r && stop == r.Done?
      ensures lineBuffer.Value() == Dynamic.AppendEach(b0, [c0] + r.kept)
      ensures r.Done? ==> r.next == |ys0 + zs| + 1
      ensures r.Pending? ==> r.kept == zs + [c] && c != '\0'
    {
      WordStep(c0, ys0, zs, c);
      var data, size := lineBuffer.Get();
      LastAppended(b0, c0, zs);
      stop := c == '\0' || (c == ' ' && data[size - 1] != '\\') || IsDelimiter(c);
      r := Done(|ys0 + zs| + 1, zs);
      if c != '\0' {
        var x := if stop then '\0' else c;
        lineBuffer.Append([x]);
        Snoc(b0, c0, zs, x);
        r := if stop then Done(|ys0 + zs| + 1, zs + [x]) else Pending(zs + [x]);
      }
    }

    /** tokenizer_nextLine: unless the buffer ends with a newline, bytes are
        discarded through the next newline; then the buffer is emptied. The
        model also stops where the reader runs off its buffer. */
    method NextLine() returns (ghost ys: seq<char>)
      requires Valid() && !reader.overran
      modifies lineBuffer, reader, reader.buff
      ensures Valid() && reader.fd == old(reader.fd) && last == old(last)
      ensures lineBuffer.used == 0 && lineBuffer.cap == old(lineBuffer.cap) && lineBuffer.data == old(lineBuffer.data)
      ensures reader.Yielded == old(reader.Yielded) + ys
      ensures old(EndsLine(lineBuffer.Value())) ==> ys == []
      ensures !old(EndsLine(lineBuffer.Value())) && !reader.overran ==> ThroughNewline(ys)
    {
      ys := [];
      var data, size := lineBuffer.Get();
      if size == 0 || data[size - 1] != '\n' {
        var c := '\0';
        while c != '\n' && !reader.overran
          invariant Valid() && reader.fd == old(reader.fd)
          invariant unchanged(lineBuffer) && lineBuffer.Value() == old(lineBuffer.Value())
          invariant reader.Yielded == old(reader.Yielded) + ys
          invariant forall k :: 0 <= k < |ys| ==> (ys[k] == '\n' <==> k == |ys| - 1 && c == '\n')
          invariant ys != [] ==> c == ys[|ys| - 1]
          invariant ys == [] ==> c == '\0'
          decreases if reader.overran then 0 else 1, Reader.RefillBudget(reader.Value()), Reader.ByteBudget(reader.Value())
        {
          c := reader.GetcFixed();
          Regroup(old(reader.Yielded), ys, [c]);
          ys := ys + [c];
        }
      }
      lineBuffer.Clear();
    }

    /** tokenizer_destroy. */
    method Destroy()
      requires Valid()
      modifies lineBuffer
      ensures lineBuffer.used == 0 && lineBuffer.cap == 0
    {
      lineBuffer.Destroy();
    }
  }
}
