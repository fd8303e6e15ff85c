/** The shell's command layer (system_hw3/121044046_main.c): parseCommand,
    the four-state machine that turns the tokens of one pipeline stage into a
    `struct command`. The main loop that runs the commands is in launch.dfy. */
module Shell {
  import opened Wrappers
  import opened Tokenizer
  import Dynamic
  import Reader

  // ---------------------------------------------------------------------------
  // The tokens of several tokenizer_next calls

  /** One tokenizer_next call: the pending delimiter and line buffer it
      started from, the bytes it read, the token it returned and the pending
      delimiter and bytes it left. */
  datatype Call = Call(last: char, buf: Dynamic.Buffer, bytes: seq<char>, token: Token, next: char, appended: seq<char>)

  /** The call is what NextToken says for the bytes it read. */
  ghost predicate Lexes(c: Call) {
    Dynamic.Fits(c.buf) && NextToken(c.last, c.buf, c.bytes) == Lexed(c.token, |c.bytes|, c.next, c.appended)
  }

  /** Call `b` starts where call `a` left the pending slot and the line
      buffer. */
  ghost predicate Follows(a: Call, b: Call) {
    Dynamic.Fits(a.buf) && b.last == a.next && b.buf == Dynamic.AppendEach(a.buf, a.appended)
  }

  /** Successive calls on one tokenizer, the first from (last, buf). */
  ghost predicate Chained(last: char, buf: Dynamic.Buffer, calls: seq<Call>)
    decreases |calls|
  {
    if calls == [] then true
    else
      var front, c := calls[..|calls| - 1], calls[|calls| - 1];
      && Chained(last, buf, front)
      && Lexes(c)
      && (if front == [] then c.last == last && c.buf == buf else Follows(front[|front| - 1], c))
  }

  /** The bytes the calls read, in order. */
  function BytesOf(calls: seq<Call>): seq<char>
    decreases |calls|
  {
    if calls == [] then [] else BytesOf(calls[..|calls| - 1]) + calls[|calls| - 1].bytes
  }

  /** The tokens the calls returned, in order. */
  function TokensOf(calls: seq<Call>): (r: seq<Token>)
    ensures |r| == |calls|
  {
    seq(|calls|, k requires 0 <= k < |calls| => calls[k].token)
  }

  /** One more call extends the chain when it starts where the chain ended. */
  lemma {:induction false} ChainedSnoc(last: char, buf: Dynamic.Buffer, calls: seq<Call>, c: Call)
    requires Chained(last, buf, calls) && Lexes(c)
    requires calls == [] ==> c.last == last && c.buf == buf
    requires calls != [] ==> Follows(calls[|calls| - 1], c)
    ensures Chained(last, buf, calls + [c])
  {
    assert (calls + [c])[..|calls|] == calls;
  }

  /** The bytes and the tokens of one more call follow those of the chain. */
  lemma {:induction false} OfSnoc(calls: seq<Call>, c: Call)
    ensures BytesOf(calls + [c]) == BytesOf(calls) + c.bytes
    ensures TokensOf(calls + [c]) == TokensOf(calls) + [c.token]
    ensures TokensOf(calls + [c])[..|calls|] == TokensOf(calls)
    ensures FeedAll(TokensOf(calls + [c])) == Feed(FeedAll(TokensOf(calls)), c.token)
  {
    assert (calls + [c])[..|calls|] == calls;
    assert TokensOf(calls + [c]) == TokensOf(calls) + [c.token];
    assert (TokensOf(calls) + [c.token])[..|calls|] == TokensOf(calls);
  }

  // ---------------------------------------------------------------------------
  // struct command

  /** The argument array's size. */
  const ARGS_SLOTS: nat := 100

  /** enum command_type; NONE is the 0 that memset leaves. */
  datatype CommandType = NONE | EXECUTABLE | BUILTIN

  /** struct command with its union flattened: `head` is the executable's
      path or the builtin's keyword (they share the union's first bytes),
      `args` the argument slots written so far (a NULL slot is NoData),
      `inforward`/`outforward` the redirect targets (NULL is NoData) and
      `pipeOut` pipe[1]. pipe[0] is never written. */
  datatype Command = Command(
    kind: CommandType, head: TokenData, args: seq<TokenData>,
    inforward: TokenData, outforward: TokenData, pipeOut: bool)

  /** The command after memset(&command, 0, sizeof(command)). */
  function Empty(): Command {
    Command(NONE, NoData, [], NoData, NoData, false)
  }

  /** C's `argc < 100`: every written slot, the NULL after the last argument
      included, lies in the array. */
  predicate ArgsFit(c: Command) {
    |c.args| <= ARGS_SLOTS
  }

  // ---------------------------------------------------------------------------
  // parseCommand as a fold over the tokens it reads

  datatype ParseState = INITIAL | ARGS | SIN | SOUT

  /** Where parseCommand is after some tokens: still reading, in a state with
      a partial command, or returned with a status (the token stored in
      `*last` when it is 0). */
  datatype Progress = Going(state: ParseState, cmd: Command) | Stopped(status: int, cmd: Command, last: Option<Token>)

  /** The tokens that end the while loop. */
  predicate Terminates(t: Token) {
    t.kind == ENDL || t.kind == PIPE
  }

  /** The token data a STRING, WORD or KEYWORD token carries, and NULL for the
      others: what tokenizer_next returns. */
  predicate Carries(t: Token) {
    match t.kind
    case STRING => t.data.Text?
    case WORD => t.data.Text?
    case KEYWORD => t.data.KeywordCode?
    case _ => t.data == NoData
  }

  /** The code after the loop: status 2 in SIN, 3 in SOUT; otherwise pipe[1]
      is set for a PIPE and the NULL is stored after the last argument, both
      only once the command has a type. */
  function Finish(state: ParseState, cmd: Command, t: Token): Progress {
    if state == SIN then Stopped(2, cmd, None)
    else if state == SOUT then Stopped(3, cmd, None)
    else
      var c1 := if t.kind == PIPE && cmd.kind != NONE then cmd.(pipeOut := true) else cmd;
      var c2 := if c1.kind != NONE then c1.(args := c1.args + [NoData]) else c1;
      Stopped(0, c2, Some(t))
  }

  /** One token of the while loop of parseCommand. */
  function Feed(p: Progress, t: Token): Progress {
    match p
    case Stopped(_, _, _) => p
    case Going(state, cmd) =>
      if Terminates(t) then Finish(state, cmd, t)
      else match state
        case INITIAL =>
          if t.kind == STRING || t.kind == WORD then
            Going(ARGS, cmd.(kind := EXECUTABLE, head := t.data, args := cmd.args + [t.data]))
          else if t.kind == KEYWORD then
            Going(ARGS, cmd.(kind := BUILTIN, head := t.data, args := cmd.args + [t.data]))
          else Stopped(1, cmd, None)
        case SIN => Going(ARGS, if cmd.kind != NONE then cmd.(inforward := t.data) else cmd)
        case SOUT => Going(ARGS, if cmd.kind != NONE then cmd.(outforward := t.data) else cmd)
        case ARGS =>
          if t.kind == IN then Going(SIN, cmd)
          else if t.kind == OUT then Going(SOUT, cmd)
          else Going(ARGS, if cmd.kind != NONE then cmd.(args := cmd.args + [t.data]) else cmd)
  }

  /** parseCommand after the tokens `toks`, from the zeroed command main
      passes it. */
  function FeedAll(toks: seq<Token>): Progress
    decreases |toks|
  {
    if toks == [] then Going(INITIAL, Empty())
    else Feed(FeedAll(toks[..|toks| - 1]), toks[|toks| - 1])
  }

  // ---------------------------------------------------------------------------
  // Properties of parseCommand

  /** Once parseCommand has returned, later tokens change nothing: it reads
      no token past the one that decided it. */
  lemma {:induction false} StoppedStays(toks: seq<Token>, more: seq<Token>)
    requires FeedAll(toks).Stopped?
    ensures FeedAll(toks + more) == FeedAll(toks)
    decreases |more|
  {
    if more != [] {
      var front := more[..|more| - 1];
      StoppedStays(toks, front);
      assert (toks + more)[..|toks + more| - 1] == toks + front;
      assert (toks + more)[|toks + more| - 1] == more[|more| - 1];
      assert FeedAll(toks + more) == Feed(FeedAll(toks + front), more[|more| - 1]);
    } else {
      assert toks + more == toks;
    }
  }

  /** The first token decides the kind: a STRING or WORD makes an EXECUTABLE
      whose path and args[0] are its text, a KEYWORD a BUILTIN, a redirect is
      status 1, and a terminator returns 0 with the command left untyped. */
  lemma {:induction false} FirstToken(t: Token)
    ensures t.kind == STRING || t.kind == WORD ==>
      FeedAll([t]) == Going(ARGS, Command(EXECUTABLE, t.data, [t.data], NoData, NoData, false))
    ensures t.kind == KEYWORD ==>
      FeedAll([t]) == Going(ARGS, Command(BUILTIN, t.data, [t.data], NoData, NoData, false))
    ensures t.kind == IN || t.kind == OUT ==> FeedAll([t]) == Stopped(1, Empty(), None)
    ensures Terminates(t) ==> FeedAll([t]) == Stopped(0, Empty(), Some(t))
  {
    assert [t][..0] == [];
  }

  /** In ARGS, `<` or `>` and the token after it, whatever its type, set the
      redirect; a later one of the same kind overwrites it. */
  lemma {:induction false} Redirects(cmd: Command, x: Token, y: Token)
    requires cmd.kind != NONE && !Terminates(x) && !Terminates(y)
    ensures Feed(Feed(Going(ARGS, cmd), Token(IN, NoData)), x) == Going(ARGS, cmd.(inforward := x.data))
    ensures Feed(Feed(Going(ARGS, cmd), Token(OUT, NoData)), x) == Going(ARGS, cmd.(outforward := x.data))
    ensures var c1 := cmd.(inforward := x.data);
      Feed(Feed(Going(ARGS, c1), Token(IN, NoData)), y) == Going(ARGS, cmd.(inforward := y.data))
  {
  }

  /** A line that ends right after `<` or `>` is status 2 or 3. */
  lemma {:induction false} DanglingRedirect(cmd: Command, t: Token)
    requires Terminates(t)
    ensures Feed(Feed(Going(ARGS, cmd), Token(IN, NoData)), t) == Stopped(2, cmd, None)
    ensures Feed(Feed(Going(ARGS, cmd), Token(OUT, NoData)), t) == Stopped(3, cmd, None)
  {
  }

  /** `cat <` then a newline is status 2, but `<` then a newline is status 1. */
  lemma RedirectStatuses()
    ensures FeedAll([Token(WORD, Text("cat")), Token(IN, NoData), Token(ENDL, NoData)]).status == 2
    ensures FeedAll([Token(IN, NoData), Token(ENDL, NoData)]).status == 1
  {
    var cat := Token(WORD, Text("cat"));
    var toks := [cat, Token(IN, NoData), Token(ENDL, NoData)];
    assert toks[..2][..1] == [cat];
    assert toks[..2] == [cat, Token(IN, NoData)];
    FirstToken(cat);
    var bad := [Token(IN, NoData), Token(ENDL, NoData)];
    assert bad[..1] == [Token(IN, NoData)];
    FirstToken(Token(IN, NoData));
    StoppedStays(bad[..1], [Token(ENDL, NoData)]);
  }

  /** The data of each token, in order. */
  function Datas(toks: seq<Token>): (r: seq<TokenData>)
    ensures |r| == |toks| && forall k :: 0 <= k < |toks| ==> r[k] == toks[k].data
  {
    seq(|toks|, k requires 0 <= k < |toks| => toks[k].data)
  }

  /** An argument token in ARGS: neither a redirect nor a terminator. */
  predicate Plain(t: Token) {
    t.kind == KEYWORD || t.kind == STRING || t.kind == WORD
  }

  function KindOf(first: Token): CommandType {
    if first.kind == KEYWORD then BUILTIN else EXECUTABLE
  }

  /** Arguments are appended in order after args[0]. */
  lemma {:induction false} ArgumentsInOrder(first: Token, mid: seq<Token>)
    requires Plain(first) && forall k :: 0 <= k < |mid| ==> Plain(mid[k])
    ensures FeedAll([first] + mid) ==
      Going(ARGS, Command(KindOf(first), first.data, [first.data] + Datas(mid), NoData, NoData, false))
    decreases |mid|
  {
    if mid == [] {
      assert [first] + mid == [first];
      FirstToken(first);
    } else {
      var front := mid[..|mid| - 1];
      ArgumentsInOrder(first, front);
      assert ([first] + mid)[..|mid|] == [first] + front;
      assert Datas(front) + [mid[|mid| - 1].data] == Datas(mid);
    }
  }

  /** A command without redirects: args holds the first token's data, then
      every argument in order, then the NULL; pipe[1] is set exactly when
      the line goes on after a `|`. It fits the 100 slots exactly when it has
      at most 98 arguments. */
  lemma {:induction false} SimpleCommand(first: Token, mid: seq<Token>, term: Token)
    requires Plain(first) && forall k :: 0 <= k < |mid| ==> Plain(mid[k])
    requires Terminates(term)
    ensures var c := Command(KindOf(first), first.data, [first.data] + Datas(mid) + [NoData], NoData, NoData, term.kind == PIPE);
      FeedAll([first] + mid + [term]) == Stopped(0, c, Some(term))
    ensures ArgsFit(FeedAll([first] + mid + [term]).cmd) <==> |mid| <= ARGS_SLOTS - 2
  {
    ArgumentsInOrder(first, mid);
    assert ([first] + mid + [term])[..|mid| + 1] == [first] + mid;
  }

  /** The shape of every command parseCommand returns with status 0: an
      ENDL-first or PIPE-first line leaves it zeroed; otherwise args[0] is the
      head, the last slot is the NULL and no earlier slot is, and pipe[1]
      tells whether the terminator was a PIPE. */
  ghost predicate Shaped(p: Progress) {
    match p
    case Going(state, c) =>
      if state == INITIAL then c == Empty()
      else c.kind != NONE && c.args != [] && c.args[0] == c.head && NoData !in c.args && !c.pipeOut
    case Stopped(status, c, last) =>
      if status == 0 then
        last.Some? && Terminates(last.value)
        && (c.kind == NONE ==> c == Empty())
        && (c.kind != NONE ==>
              |c.args| >= 2 && c.args[0] == c.head && c.args[|c.args| - 1] == NoData
              && NoData !in c.args[..|c.args| - 1] && c.pipeOut == (last.value.kind == PIPE))
      else status in {1, 2, 3} && last.None?
  }

  lemma {:induction false} FeedShaped(p: Progress, t: Token)
    requires Shaped(p) && Carries(t)
    ensures Shaped(Feed(p, t))
  {
    if p.Going? {
      if Terminates(t) {
        FinishShaped(p.state, p.cmd, t);
      } else {
        StepShaped(p.state, p.cmd, t);
      }
    }
  }

  /** The code after the loop keeps the shape. */
  lemma {:induction false} FinishShaped(state: ParseState, c: Command, t: Token)
    requires Shaped(Going(state, c)) && Terminates(t)
    ensures Shaped(Finish(state, c, t))
  {
    if state == ARGS {
      var c1 := if t.kind == PIPE then c.(pipeOut := true) else c;
      var a := c.args + [NoData];
      assert a[..|a| - 1] == c.args && a[0] == c.args[0] && a[|a| - 1] == NoData;
      var r := c1.(args := a);
      assert r.kind != NONE && r.head == c.head && r.pipeOut == (t.kind == PIPE);
      assert Finish(state, c, t) == Stopped(0, r, Some(t));
    }
  }

  /** A token that does not end the loop keeps the shape. */
  lemma {:induction false} StepShaped(state: ParseState, c: Command, t: Token)
    requires Shaped(Going(state, c)) && Carries(t) && !Terminates(t)
    ensures Shaped(Feed(Going(state, c), t))
  {
    if state == ARGS && Plain(t) {
      assert t.data != NoData;
      assert (c.args + [t.data])[0] == c.args[0];
    }
  }

  /** When the last token read is the one that decides the parse, status 0
      comes with that token stored in `*last`, and it is a terminator. */
  lemma {:induction false} ReturnsTerminator(toks: seq<Token>)
    requires toks != [] && FeedAll(toks[..|toks| - 1]).Going?
    requires FeedAll(toks).Stopped? && FeedAll(toks).status == 0
    ensures FeedAll(toks).last == Some(toks[|toks| - 1]) && Terminates(toks[|toks| - 1])
  {
  }

  /** Every parse of lexer tokens is Shaped. */
  lemma {:induction false} AllShaped(toks: seq<Token>)
    requires forall k :: 0 <= k < |toks| ==> Carries(toks[k])
    ensures Shaped(FeedAll(toks))
    decreases |toks|
  {
    if toks != [] {
      AllShaped(toks[..|toks| - 1]);
      FeedShaped(FeedAll(toks[..|toks| - 1]), toks[|toks| - 1]);
    }
  }

  // ---------------------------------------------------------------------------
  // parseCommand over the tokenizer

  /** The switch on the state in the while loop of parseCommand, for a
      token that does not end the command; `failed` is the `return 1` for a
      first token that is neither a word nor a keyword. */
  method Advance(state: ParseState, command: Command, token: Token) returns (state': ParseState, command': Command, failed: bool)
    requires !Terminates(token)
    ensures Feed(Going(state, command), token) == if failed then Stopped(1, command', None) else Going(state', command')
  {
    state', command', failed := state, command, false;
    if state == INITIAL {
      if token.kind == STRING || token.kind == WORD {
        command' := command.(kind := EXECUTABLE, head := token.data, args := command.args + [token.data]);
      } else if token.kind == KEYWORD {
        command' := command.(kind := BUILTIN, head := token.data, args := command.args + [token.data]);
      } else {
        failed := true;
        return;
      }
      state' := ARGS;
    } else if state == SIN {
      if command.kind == EXECUTABLE || command.kind == BUILTIN {
        command' := command.(inforward := token.data);
      }
      state' := ARGS;
    } else if state == SOUT {
      if command.kind == EXECUTABLE || command.kind == BUILTIN {
        command' := command.(outforward := token.data);
      }
      state' := ARGS;
    } else if token.kind == IN {
      state' := SIN;
    } else if token.kind == OUT {
      state' := SOUT;
    } else if command.kind == EXECUTABLE || command.kind == BUILTIN {
      command' := command.(args := command.args + [token.data]);
    }
  }

  /** What parseCommand does after its loop has met the end of a line or a
      pipe: a dangling redirect is status 2 or 3; otherwise the pipe flag and
      the NULL that ends the argument array are set and the terminator is
      handed back. */
  method Complete(state: ParseState, command: Command, token: Token) returns (status: int, command': Command, last: Option<Token>)
    requires Terminates(token)
    ensures Feed(Going(state, command), token) == Stopped(status, command', last)
  {
    command', last := command, None;
    if state == SIN {
      return 2, command', last;
    } else if state == SOUT {
      return 3, command', last;
    }
    if token.kind == PIPE && (command.kind == EXECUTABLE || command.kind == BUILTIN) {
      command' := command'.(pipeOut := true);
    }
    if command'.kind == EXECUTABLE || command'.kind == BUILTIN {
      command' := command'.(args := command'.args + [NoData]);
    }
    status, last := 0, Some(token);
  }

  /** What parseCommand's loop knows after the calls `calls`, which started
      from pending slot l0, line buffer b0 and reader state `start` after the
      reader had yielded y0: the calls form a chain, the reader has yielded
      their bytes since, the tokenizer now holds the pending slot and line
      buffer the last call left, and if the first call read anything the
      reader has moved down its termination order. */
  ghost predicate Tracks(last: char, buf: Dynamic.Buffer, v: Reader.State, yielded: seq<char>,
                         l0: char, b0: Dynamic.Buffer, start: Reader.State, y0: seq<char>, calls: seq<Call>)
  {
    && !v.overran
    && yielded == y0 + BytesOf(calls)
    && Chained(l0, b0, calls)
    && (calls == [] ==> last == l0 && buf == b0 && v == start)
    && (calls != [] ==>
          var c := calls[|calls| - 1];
          last == c.next && Dynamic.Fits(c.buf) && buf == Dynamic.AppendEach(c.buf, c.appended))
    && (calls != [] && !IsDelimiter(l0) ==> Reader.Decreased(start, v))
  }

  /** `token = tokenizer_next(&tokenizer)` at the head of parseCommand's
      loop, with the call it makes recorded: the chain grows by that call,
      and the reader either moves down its termination order or (for a
      pending delimiter) stays while the slot is cleared. */
  method Pull(tk: Tokenizer, ghost l0: char, ghost b0: Dynamic.Buffer, ghost start: Reader.State, ghost y0: seq<char>, ghost calls: seq<Call>)
    returns (token: Token, ghost c: Call)
    requires tk.Valid() && Tracks(tk.last, tk.lineBuffer.Value(), tk.reader.Value(), tk.reader.Yielded, l0, b0, start, y0, calls)
    modifies tk, tk.lineBuffer, tk.lineBuffer.data, tk.reader, tk.reader.buff
    ensures tk.Valid() && tk.lineBuffer == old(tk.lineBuffer) && tk.reader == old(tk.reader) && tk.reader.fd == old(tk.reader.fd)
    ensures tk.lineBuffer.data == old(tk.lineBuffer.data) || fresh(tk.lineBuffer.data)
    ensures c.token == token && tk.reader.Yielded == y0 + BytesOf(calls + [c])
    ensures !tk.reader.overran ==> Tracks(tk.last, tk.lineBuffer.Value(), tk.reader.Value(), tk.reader.Yielded, l0, b0, start, y0, calls + [c])
    ensures !tk.reader.overran ==>
      || Reader.Decreased(old(tk.reader.Value()), tk.reader.Value())
      || (tk.reader.Value() == old(tk.reader.Value()) && IsDelimiter(old(tk.last)) && tk.last == '\0')
  {
    ghost var b, l, v0 := tk.lineBuffer.Value(), tk.last, tk.reader.Value();
    ghost var zs, lex;
    token, zs, lex := tk.Next();
    c := Call(l, b, zs, token, tk.last, lex);
    OfSnoc(calls, c);
    Regroup(y0, BytesOf(calls), zs);
    if !tk.reader.overran {
      ghost var v1 := tk.reader.Value();
      assert !IsDelimiter(l0) ==> Reader.Decreased(start, v1) by {
        if !IsDelimiter(l0) && calls != [] {
          assert Reader.Decreased(start, v0);
        }
      }
      ChainedSnoc(l0, b0, calls, c);
    }
  }

  /** parseCommand(tokenizer, &command, &last). The tokenizer arrives by
      value: a copy with the caller's pending slot and `used`, sharing the
      caller's block and reader, so the caller's struct keeps its fields while
      the reader moves on. `command` starts zeroed, as main passes it. Status
      -1 is the model's: the reader ran off its buffer, where the C program
      has undefined behaviour. */
  method ParseCommand(caller: Tokenizer) returns (status: int, command: Command, last: Option<Token>, ghost calls: seq<Call>)
    requires caller.Valid() && !caller.reader.overran
    modifies caller.reader, caller.reader.buff, caller.lineBuffer.data
    ensures caller.Valid() && caller.reader.fd == old(caller.reader.fd)
    ensures caller.reader.Yielded == old(caller.reader.Yielded) + BytesOf(calls)
    ensures status == -1 <==> caller.reader.overran
    ensures !caller.reader.overran ==>
      && calls != [] && Chained(caller.last, old(caller.lineBuffer.Value()), calls)
      && FeedAll(TokensOf(calls)) == Stopped(status, command, last)
      && FeedAll(TokensOf(calls)[..|calls| - 1]).Going?
    ensures !IsDelimiter(caller.last) ==>
      caller.reader.overran || Reader.Decreased(old(caller.reader.Value()), caller.reader.Value())
  {
    var tk := new Tokenizer.CopyOf(caller);
    var token, state, outcome;
    token, state, command, outcome, calls := ParseLoop(tk);
    last := None;
    if outcome == Overran {
      status := -1;
    } else if outcome == Failed {
      status := 1;
    } else {
      status, command, last := Complete(state, command, token);
    }
  }

  /** How one round of parseCommand's loop ends. */
  datatype Outcome = Continue | Overran | Failed | Ended

  /** One round of parseCommand's loop: take a token, stop on the end of
      the line or a pipe, otherwise run the switch on the state. */
  method Round(tk: Tokenizer, ghost l0: char, ghost b0: Dynamic.Buffer, ghost start: Reader.State, ghost y0: seq<char>,
               ghost calls: seq<Call>, state: ParseState, command: Command)
    returns (token: Token, state': ParseState, command': Command, outcome: Outcome, ghost calls': seq<Call>)
    requires tk.Valid() && Tracks(tk.last, tk.lineBuffer.Value(), tk.reader.Value(), tk.reader.Yielded, l0, b0, start, y0, calls)
    requires FeedAll(TokensOf(calls)) == Going(state, command)
    modifies tk, tk.lineBuffer, tk.lineBuffer.data, tk.reader, tk.reader.buff
    ensures tk.Valid() && tk.lineBuffer == old(tk.lineBuffer) && tk.reader == old(tk.reader) && tk.reader.fd == old(tk.reader.fd)
    ensures tk.lineBuffer.data == old(tk.lineBuffer.data) || fresh(tk.lineBuffer.data)
    ensures tk.reader.Yielded == y0 + BytesOf(calls') && |calls'| == |calls| + 1
    ensures FeedAll(TokensOf(calls')[..|calls|]) == Going(state, command)
    ensures outcome == Overran <==> tk.reader.overran
    ensures !tk.reader.overran ==> Tracks(tk.last, tk.lineBuffer.Value(), tk.reader.Value(), tk.reader.Yielded, l0, b0, start, y0, calls')
    ensures outcome == Continue ==> FeedAll(TokensOf(calls')) == Going(state', command')
    ensures outcome == Continue ==>
      || Reader.Decreased(old(tk.reader.Value()), tk.reader.Value())
      || (tk.reader.Value() == old(tk.reader.Value()) && IsDelimiter(old(tk.last)) && !IsDelimiter(tk.last))
    ensures outcome == Failed ==> FeedAll(TokensOf(calls')) == Stopped(1, command', None)
    ensures outcome == Ended ==> state' == state && command' == command
    ensures outcome == Ended ==> FeedAll(TokensOf(calls')) == Feed(Going(state, command), token) && Terminates(token)
  {
    ghost var c;
    token, c := Pull(tk, l0, b0, start, y0, calls);
    OfSnoc(calls, c);
    calls' := calls + [c];
    state', command' := state, command;
    if tk.reader.overran {
      outcome := Overran;
    } else if Terminates(token) {
      outcome := Ended;
    } else {
      var failed;
      state', command', failed := Advance(state, command, token);
      outcome := if failed then Failed else Continue;
    }
  }

  /** The while loop of parseCommand, on the function's own copy of the
      tokenizer, up to the round that does not continue. The C counter argc
      is the length of `command.args`. */
  method ParseLoop(tk: Tokenizer) returns (token: Token, state: ParseState, command: Command, outcome: Outcome, ghost calls: seq<Call>)
    requires tk.Valid() && !tk.reader.overran
    modifies tk, tk.lineBuffer, tk.lineBuffer.data, tk.reader, tk.reader.buff
    ensures tk.Valid() && tk.lineBuffer == old(tk.lineBuffer) && tk.reader == old(tk.reader) && tk.reader.fd == old(tk.reader.fd)
    ensures tk.lineBuffer.data == old(tk.lineBuffer.data) || fresh(tk.lineBuffer.data)
    ensures tk.reader.Yielded == old(tk.reader.Yielded) + BytesOf(calls) && calls != []
    ensures FeedAll(TokensOf(calls)[..|calls| - 1]).Going?
    ensures outcome != Continue && (outcome == Overran <==> tk.reader.overran)
    ensures !tk.reader.overran ==>
      Tracks(tk.last, tk.lineBuffer.Value(), tk.reader.Value(), tk.reader.Yielded,
             old(tk.last), old(tk.lineBuffer.Value()), old(tk.reader.Value()), old(tk.reader.Yielded), calls)
    ensures outcome == Failed ==> FeedAll(TokensOf(calls)) == Stopped(1, command, None)
    ensures outcome == Ended ==> FeedAll(TokensOf(calls)) == Feed(Going(state, command), token) && Terminates(token)
  {
    ghost var l0, b0, start, y0 := tk.last, tk.lineBuffer.Value(), tk.reader.Value(), tk.reader.Yielded;
    state, command := INITIAL, Empty();
    calls := [];
    while true
      invariant tk.Valid() && tk.lineBuffer == old(tk.lineBuffer) && tk.reader == old(tk.reader) && tk.reader.fd == old(tk.reader.fd)
      invariant tk.lineBuffer.data == old(tk.lineBuffer.data) || fresh(tk.lineBuffer.data)
      invariant Tracks(tk.last, tk.lineBuffer.Value(), tk.reader.Value(), tk.reader.Yielded, l0, b0, start, y0, calls)
      invariant FeedAll(TokensOf(calls)) == Going(state, command)
      decreases Reader.RefillBudget(tk.reader.Value()), Reader.ByteBudget(tk.reader.Value()), if IsDelimiter(tk.last) then 1 else 0
    {
      token, state, command, outcome, calls := Round(tk, l0, b0, start, y0, calls, state, command);
      if outcome != Continue {
        return;
      }
    }
  }
}
