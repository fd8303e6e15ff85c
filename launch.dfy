/** The main loop of the shell (system_hw3/121044046_main.c): for every
    command parseCommand returns, the descriptors its process runs with
    (pin, pout, fin, fout), execIt's dup2 sequence in the child, and the
    rotation of the pipe pair between pipeline stages.

    fork, execvp, open and pipe are not run: what they answer for each command
    is a parameter (`Answers`), and the model keeps only descriptor numbers:
    the set the shell holds open and, for every child that is launched, the
    descriptor table execIt leaves it just before execvp. */
module Launch {
  import opened Wrappers
  import opened Tokenizer
  import opened Shell
  import Reader

  // ---------------------------------------------------------------------------
  // Descriptors

  /** int pipeX[2]: the read and the write end; -1 is no descriptor. */
  datatype Pair = Pair(read: int, write: int)

  /** The {-1, -1} main starts both pairs with. */
  const CLOSED: Pair := Pair(-1, -1)

  /** What a descriptor refers to: one of the streams the shell was started
      with, an end of the pipe made for the command with index `stage`, or
      the file opened for that command's redirect. */
  datatype Object = Terminal(fd: int) | PipeEnd(stage: nat, write: bool) | File(stage: nat, write: bool)

  /** A descriptor table: every descriptor a process holds and the object it
      refers to. */
  type Table = map<int, Object>

  /** What the calls that are not run answer while main handles one command: the pair
      pipe() fills in (None when it fails and leaves pipeN as it was), the
      descriptors open() returns for the input and the output redirect (-1
      on failure), and whether fork() succeeds. */
  datatype Answers = Answers(pipe: Option<Pair>, inOpen: int, outOpen: int, forked: bool)

  /** A child at execvp: the path and argument vector, and its table. */
  datatype Child = Child(path: TokenData, args: seq<TokenData>, table: Table)

  /** The four descriptors main hands to execIt, -1 for none. */
  datatype Streams = Streams(pin: int, pout: int, fin: int, fout: int)

  // ---------------------------------------------------------------------------
  // execIt in the child

  /** dup2(from, to): `to` becomes a copy of `from`; with `from` not open the
      call fails and nothing changes. */
  function Dup2(t: Table, from: int, to: int): (r: Table)
    ensures from in t ==> to in r && r[to] == t[from]
    ensures forall d :: d != to ==> (d in r <==> d in t) && (d in r ==> r[d] == t[d])
  {
    if from in t then t[to := t[from]] else t
  }

  /** close(fd); close(-1) fails and changes nothing. */
  function Close(t: Table, fd: int): (r: Table)
    ensures forall d :: d in r <==> d in t && d != fd
    ensures forall d :: d in r ==> r[d] == t[d]
  {
    t - {fd}
  }

  /** `if (fd != -1) { dup2(fd, to); close(fd); }` */
  function Redirect(t: Table, fd: int, to: int): Table {
    if fd != -1 then Close(Dup2(t, fd, to), fd) else t
  }

  /** The child's table at execvp: it starts as a copy of the shell's, then
      pin, pout, fin, fout in that order are each duplicated onto standard
      input or output and closed. */
  function ExecItTable(fds: Table, s: Streams): Table {
    var t1 := Redirect(fds, s.pin, 0);
    var t2 := Redirect(t1, s.pout, 1);
    var t3 := Redirect(t2, s.fin, 0);
    Redirect(t3, s.fout, 1)
  }

  /** fd is one of the four descriptors main passes. */
  predicate Passed(s: Streams, fd: int) {
    fd != -1 && (fd == s.pin || fd == s.pout || fd == s.fin || fd == s.fout)
  }

  /** The descriptors main passes are distinct open descriptors other than
      standard input and output, or -1. */
  ghost predicate Passable(fds: Table, s: Streams) {
    && 0 in fds && 1 in fds
    && (forall fd :: Passed(s, fd) ==> fd in fds && fd > 1)
    && (s.pin != -1 ==> s.pin != s.pout && s.pin != s.fin && s.pin != s.fout)
    && (s.pout != -1 ==> s.pout != s.fin && s.pout != s.fout)
    && (s.fin != -1 ==> s.fin != s.fout)
  }

  /** One redirect of an open descriptor onto another: `to` now refers to
      what `fd` referred to, `fd` is gone, and nothing else changes. */
  lemma {:induction false} RedirectMoves(t: Table, fd: int, to: int)
    requires fd != -1 && fd in t && fd != to
    ensures var r := Redirect(t, fd, to);
      && to in r && r[to] == t[fd] && fd !in r
      && forall d :: d != fd && d != to ==> (d in r <==> d in t) && (d in r ==> r[d] == t[d])
  {
  }

  /** The dup2 order: a file redirect overrides the pipe on the same stream,
      which overrides the shell's own stream; every descriptor passed is
      closed, and every other one the shell had open is inherited as is. */
  lemma {:induction false} ExecItStreams(fds: Table, s: Streams)
    requires Passable(fds, s)
    ensures var t := ExecItTable(fds, s);
      && 0 in t && t[0] == (if s.fin != -1 then fds[s.fin] else if s.pin != -1 then fds[s.pin] else fds[0])
      && 1 in t && t[1] == (if s.fout != -1 then fds[s.fout] else if s.pout != -1 then fds[s.pout] else fds[1])
      && (forall fd :: Passed(s, fd) ==> fd !in t)
      && (forall fd :: fd != 0 && fd != 1 && !Passed(s, fd) ==> (fd in t <==> fd in fds) && (fd in t ==> t[fd] == fds[fd]))
  {
    var t1 := Redirect(fds, s.pin, 0);
    if s.pin != -1 { assert Passed(s, s.pin); RedirectMoves(fds, s.pin, 0); }
    var t2 := Redirect(t1, s.pout, 1);
    if s.pout != -1 { assert Passed(s, s.pout); RedirectMoves(t1, s.pout, 1); }
    var t3 := Redirect(t2, s.fin, 0);
    if s.fin != -1 { assert Passed(s, s.fin); RedirectMoves(t2, s.fin, 0); }
    var t4 := Redirect(t3, s.fout, 1);
    if s.fout != -1 { assert Passed(s, s.fout); RedirectMoves(t3, s.fout, 1); }
  }

  /** No descriptor of the table refers to `o`. */
  ghost predicate Unheld(t: Table, o: Object) {
    forall d :: d in t ==> t[d] != o
  }

  /** The child refers only to objects the shell had open when it forked. */
  lemma {:induction false} ExecItWithin(fds: Table, s: Streams, o: Object)
    requires Unheld(fds, o)
    ensures Unheld(ExecItTable(fds, s), o)
  {
    var t1 := Redirect(fds, s.pin, 0);
    RedirectWithin(fds, s.pin, 0, o);
    var t2 := Redirect(t1, s.pout, 1);
    RedirectWithin(t1, s.pout, 1, o);
    var t3 := Redirect(t2, s.fin, 0);
    RedirectWithin(t2, s.fin, 0, o);
    RedirectWithin(t3, s.fout, 1, o);
  }

  lemma {:induction false} RedirectWithin(t: Table, fd: int, to: int, o: Object)
    requires Unheld(t, o)
    ensures Unheld(Redirect(t, fd, to), o)
  {
    var r := Redirect(t, fd, to);
    forall d | d in r ensures r[d] != o {
      if fd != -1 && fd in t && d == to {
        assert r[d] == t[fd];
      } else {
        assert d in t && r[d] == t[d];
      }
    }
  }

  // ---------------------------------------------------------------------------
  // One iteration of main's loop

  /** main's locals between two commands, with the shell's own descriptor
      table, the children launched so far and the index of the command about
      to be handled. */
  datatype Wiring = Wiring(
    pipeO: Pair, pipeN: Pair, currInPipe: bool, nextInPipe: bool,
    fds: Table, children: seq<Child>, stage: nat)

  /** Before the first command: both pairs {-1, -1}, no pipe, and the shell
      holding its standard input, output and error. */
  function Initial(): Wiring {
    Wiring(CLOSED, CLOSED, false, false, map[0 := Terminal(0), 1 := Terminal(1), 2 := Terminal(2)], [], 0)
  }

  /** Where an iteration leaves main: on to the next one, or exit(1) after a
      redirect that could not be opened. */
  datatype After = Continued(w: Wiring) | Exited(w: Wiring)

  /** `if (fd != -1) close(fd);` in the shell. */
  function CloseFd(fds: Table, fd: int): (r: Table)
    ensures forall d :: d in r ==> d in fds && r[d] == fds[d]
    ensures forall d :: d in fds && d != fd ==> d in r
    ensures fd != -1 ==> fd !in r
  {
    if fd != -1 then Close(fds, fd) else fds
  }

  /** A descriptor open() or pipe() returned, now referring to `o`. */
  function OpenAs(w: Wiring, fd: int, o: Object): (r: Wiring)
    ensures r.children == w.children && r.stage == w.stage && r.pipeO == w.pipeO && r.pipeN == w.pipeN
    ensures r.currInPipe == w.currInPipe && r.nextInPipe == w.nextInPipe
    ensures forall d :: d in r.fds ==> (d in w.fds && r.fds[d] == w.fds[d]) || (d == fd && r.fds[d] == o)
    ensures forall d :: d in w.fds ==> d in r.fds
    ensures fd != -1 ==> fd in r.fds && r.fds[fd] == o
    ensures fd == -1 ==> r == w
  {
    if fd != -1 then w.(fds := w.fds[fd := o]) else w
  }

  /** `if (pipe[1]) { pipe(pipeN); ...; nextInPipe = true; } else nextInPipe = false;` */
  function PipeFor(w: Wiring, cmd: Command, a: Answers): (r: Wiring)
    ensures r.children == w.children && r.stage == w.stage && r.pipeO == w.pipeO && r.currInPipe == w.currInPipe
    ensures r.nextInPipe == cmd.pipeOut
  {
    if !cmd.pipeOut then w.(nextInPipe := false)
    else if a.pipe.None? then w.(nextInPipe := true)
    else
      var p := a.pipe.value;
      w.(fds := w.fds[p.read := PipeEnd(w.stage, false)][p.write := PipeEnd(w.stage, true)], pipeN := p, nextInPipe := true)
  }

  /** The end of every iteration: the previous pipe is closed in the shell if
      either end is set, pipeO takes pipeN's descriptors and currInPipe takes
      nextInPipe. pipeN itself keeps its descriptors. */
  function Rotate(w: Wiring): (r: Wiring)
    ensures r.children == w.children && r.stage == w.stage + 1 && r.pipeN == w.pipeN
    ensures r.pipeO == w.pipeN && r.currInPipe == w.nextInPipe && r.nextInPipe == w.nextInPipe
    ensures forall d :: d in r.fds ==> d in w.fds && r.fds[d] == w.fds[d]
    ensures forall d :: d in w.fds && d != w.pipeO.read && d != w.pipeO.write ==> d in r.fds
    ensures w.pipeO.read != -1 ==> w.pipeO.read !in r.fds
    ensures w.pipeO.write != -1 ==> w.pipeO.write !in r.fds
  {
    var fds := if w.pipeO.read != -1 || w.pipeO.write != -1 then CloseFd(CloseFd(w.fds, w.pipeO.read), w.pipeO.write) else w.fds;
    w.(fds := fds, pipeO := w.pipeN, currInPipe := w.nextInPipe, stage := w.stage + 1)
  }

  /** One iteration of main's loop for a command parseCommand returned with
      status 0. Only an EXECUTABLE is acted on: its pipe is made, pin is the
      previous pipe's read end when the previous command piped into it, pout
      the new pipe's write end, fin and fout its redirect files; the child is
      forked with execIt and the shell closes fin and fout. With
      `closeWriteEnd` the shell also closes pout once the child has it (see
      ReaderHoldsWriteEnd). */
  function Step(w: Wiring, cmd: Command, a: Answers, closeWriteEnd: bool): After {
    if cmd.kind != EXECUTABLE then Continued(Rotate(w))
    else if cmd.inforward != NoData && a.inOpen == -1 then Exited(PipeFor(w, cmd, a))
    else if cmd.outforward != NoData && a.outOpen == -1 then Exited(Prepare(w, cmd, a).w)
    else
      var p := Prepare(w, cmd, a);
      Continued(Rotate(Spawn(p.w, cmd, p.s, a.forked, closeWriteEnd)))
  }

  /** The shell and the four descriptors just before execIt. */
  datatype Poised = Poised(w: Wiring, s: Streams)

  /** An EXECUTABLE's pipe and redirect files, opened in main's order. */
  function Prepare(w: Wiring, cmd: Command, a: Answers): (p: Poised)
    ensures p.w.children == w.children && p.w.stage == w.stage && p.w.pipeO == w.pipeO
    ensures p.w.currInPipe == w.currInPipe && p.w.nextInPipe == cmd.pipeOut
  {
    var w1 := PipeFor(w, cmd, a);
    var pout := if cmd.pipeOut then w1.pipeN.write else -1;
    var pin := if w1.currInPipe then w1.pipeO.read else -1;
    var fin := if cmd.inforward != NoData then a.inOpen else -1;
    var w2 := OpenAs(w1, fin, File(w.stage, false));
    var fout := if cmd.outforward != NoData then a.outOpen else -1;
    var w3 := OpenAs(w2, fout, File(w.stage, true));
    Poised(w3, Streams(pin, pout, fin, fout))
  }

  /** From execIt on: the child is recorded when fork succeeds, the shell
      closes fin and fout, and with `closeWriteEnd` also pout. */
  function Spawn(w: Wiring, cmd: Command, s: Streams, forked: bool, closeWriteEnd: bool): (r: Wiring)
    ensures r.children == w.children + (if forked then [Child(cmd.head, cmd.args, ExecItTable(w.fds, s))] else [])
    ensures r.pipeO == w.pipeO && r.currInPipe == w.currInPipe && r.nextInPipe == w.nextInPipe && r.stage == w.stage
    ensures forall d :: d in r.fds ==> d in w.fds && r.fds[d] == w.fds[d]
    ensures forall d :: d in w.fds && d != s.fin && d != s.fout && !(closeWriteEnd && d == s.pout) ==> d in r.fds
    ensures closeWriteEnd && s.pout != -1 ==> s.pout !in r.fds && r.pipeN == w.pipeN.(write := -1)
    ensures !(closeWriteEnd && s.pout != -1) ==> r.pipeN == w.pipeN
  {
    var w4 := if forked then w.(children := w.children + [Child(cmd.head, cmd.args, ExecItTable(w.fds, s))]) else w;
    var w5 := w4.(fds := CloseFd(CloseFd(w4.fds, s.fin), s.fout));
    if closeWriteEnd && s.pout != -1 then w5.(fds := Close(w5.fds, s.pout), pipeN := w5.pipeN.(write := -1)) else w5
  }

  // ---------------------------------------------------------------------------
  // Properties of one iteration

  /** How the shell stands between two commands when every descriptor it
      names is really open: pipeN and pipeO agree, and so do currInPipe and
      nextInPipe (the rotation copied one into the other), and each end is -1 or an open descriptor other than
      standard input and output. */
  ghost predicate Settled(w: Wiring) {
    && 0 in w.fds && 1 in w.fds
    && w.pipeN == w.pipeO && w.currInPipe == w.nextInPipe
    && (w.pipeO.read != -1 ==> w.pipeO.read > 1 && w.pipeO.read in w.fds)
    && (w.pipeO.write != -1 ==> w.pipeO.write > 1 && w.pipeO.write in w.fds && w.pipeO.write != w.pipeO.read)
  }

  /** The kernel hands out descriptors that are not open: pipe() two
      distinct ones, and each open() one distinct from those and from the
      other. */
  ghost predicate FreshAnswers(fds: Table, a: Answers) {
    && (a.pipe.Some? ==>
          a.pipe.value.read > 1 && a.pipe.value.write > 1 && a.pipe.value.read != a.pipe.value.write
          && a.pipe.value.read !in fds && a.pipe.value.write !in fds)
    && (a.inOpen != -1 ==>
          a.inOpen > 1 && a.inOpen !in fds
          && (a.pipe.Some? ==> a.inOpen != a.pipe.value.read && a.inOpen != a.pipe.value.write))
    && (a.outOpen != -1 ==>
          a.outOpen > 1 && a.outOpen !in fds && a.outOpen != a.inOpen
          && (a.pipe.Some? ==> a.outOpen != a.pipe.value.read && a.outOpen != a.pipe.value.write))
  }

  /** main exits exactly when an EXECUTABLE's redirect cannot be opened. */
  lemma {:induction false} StepExits(w: Wiring, cmd: Command, a: Answers, closeWriteEnd: bool)
    ensures var r := Step(w, cmd, a, closeWriteEnd);
      && (r.Exited? <==>
            cmd.kind == EXECUTABLE
            && ((cmd.inforward != NoData && a.inOpen == -1) || (cmd.outforward != NoData && a.outOpen == -1)))
      && (r.Exited? ==> r.w.children == w.children)
  {
  }

  /** A child is launched for an EXECUTABLE whose fork succeeds and for
      nothing else, and the children launched before are kept. */
  lemma {:induction false} StepForks(w: Wiring, cmd: Command, a: Answers, closeWriteEnd: bool)
    ensures var r := Step(w, cmd, a, closeWriteEnd);
      && |r.w.children| == |w.children| + (if r.Continued? && cmd.kind == EXECUTABLE && a.forked then 1 else 0)
      && r.w.children[..|w.children|] == w.children
  {
  }

  /** The child's standard streams: input from the redirect file, else from
      the previous command's pipe when it piped into this one, else the
      shell's own input; output to the redirect file, else into the new pipe
      for a command ending in `|` (into the previous pipe's write end when
      pipe() fails), else the shell's own output. */
  lemma {:induction false} StepLaunches(w: Wiring, cmd: Command, a: Answers, closeWriteEnd: bool)
    requires Settled(w) && FreshAnswers(w.fds, a)
    requires cmd.kind == EXECUTABLE && a.forked
    requires cmd.inforward != NoData ==> a.inOpen != -1
    requires cmd.outforward != NoData ==> a.outOpen != -1
    ensures var r := Step(w, cmd, a, closeWriteEnd);
      && r.Continued? && |r.w.children| == |w.children| + 1
      && var c := r.w.children[|w.children|];
      && c.path == cmd.head && c.args == cmd.args
      && 0 in c.table
      && c.table[0] == (if cmd.inforward != NoData then File(w.stage, false)
                        else if w.currInPipe && w.pipeO.read != -1 then w.fds[w.pipeO.read]
                        else w.fds[0])
      && 1 in c.table
      && c.table[1] == (if cmd.outforward != NoData then File(w.stage, true)
                        else if cmd.pipeOut && a.pipe.Some? then PipeEnd(w.stage, true)
                        else if cmd.pipeOut && w.pipeO.write != -1 then w.fds[w.pipeO.write]
                        else w.fds[1])
  {
    var p := Prepare(w, cmd, a);
    StepChild(w, cmd, a, closeWriteEnd);
    PrepareStreams(w, cmd, a);
    ExecItStreams(p.w.fds, p.s);
  }

  /** Under fresh answers the four descriptors are fit for execIt, and each
      refers to what main meant it to. */
  lemma {:induction false} PrepareStreams(w: Wiring, cmd: Command, a: Answers)
    requires Settled(w) && FreshAnswers(w.fds, a)
    requires cmd.inforward != NoData ==> a.inOpen != -1
    requires cmd.outforward != NoData ==> a.outOpen != -1
    ensures var p := Prepare(w, cmd, a);
      && Passable(p.w.fds, p.s)
      && p.s.pin == (if w.currInPipe then w.pipeO.read else -1)
      && (p.s.pin != -1 ==> p.w.fds[p.s.pin] == w.fds[w.pipeO.read])
      && (p.s.pout != -1 <==> cmd.pipeOut && (a.pipe.Some? || w.pipeO.write != -1))
      && (p.s.pout != -1 ==> p.w.fds[p.s.pout] == if a.pipe.Some? then PipeEnd(w.stage, true) else w.fds[w.pipeO.write])
      && (p.s.fin != -1 <==> cmd.inforward != NoData)
      && (p.s.fin != -1 ==> p.w.fds[p.s.fin] == File(w.stage, false))
      && (p.s.fout != -1 <==> cmd.outforward != NoData)
      && (p.s.fout != -1 ==> p.w.fds[p.s.fout] == File(w.stage, true))
      && p.w.fds[0] == w.fds[0] && p.w.fds[1] == w.fds[1]
  {
    var w1 := PipeFor(w, cmd, a);
    PipeForOpens(w, cmd, a);
    var pout := if cmd.pipeOut then w1.pipeN.write else -1;
    var pin := if w1.currInPipe then w1.pipeO.read else -1;
    var fin := if cmd.inforward != NoData then a.inOpen else -1;
    var fout := if cmd.outforward != NoData then a.outOpen else -1;
    assert pout != -1 ==> pout in w1.fds && pout > 1 && pout != pin;
    OpenRedirects(w1, pin, pout, fin, fout, w.stage);
  }

  /** Opening the redirect files after the pipe: fresh descriptors keep the
      pipe's descriptors where they were. */
  lemma {:induction false} OpenRedirects(w1: Wiring, pin: int, pout: int, fin: int, fout: int, n: nat)
    requires 0 in w1.fds && 1 in w1.fds
    requires pin != -1 ==> pin in w1.fds && pin > 1
    requires pout != -1 ==> pout in w1.fds && pout > 1 && pout != pin
    requires fin != -1 ==> fin !in w1.fds && fin > 1
    requires fout != -1 ==> fout !in w1.fds && fout > 1 && fout != fin
    ensures var w3 := OpenAs(OpenAs(w1, fin, File(n, false)), fout, File(n, true));
      && Passable(w3.fds, Streams(pin, pout, fin, fout))
      && (pin != -1 ==> w3.fds[pin] == w1.fds[pin])
      && (pout != -1 ==> w3.fds[pout] == w1.fds[pout])
      && (fin != -1 ==> w3.fds[fin] == File(n, false))
      && (fout != -1 ==> w3.fds[fout] == File(n, true))
      && w3.fds[0] == w1.fds[0] && w3.fds[1] == w1.fds[1]
  {
    var w2 := OpenAs(w1, fin, File(n, false));
    var w3 := OpenAs(w2, fout, File(n, true));
    var st := Streams(pin, pout, fin, fout);
    assert forall fd | Passed(st, fd) :: fd in w3.fds && fd > 1;
  }

  /** pipe() adds its two fresh descriptors, and keeps every open one. */
  lemma {:induction false} PipeForOpens(w: Wiring, cmd: Command, a: Answers)
    requires Settled(w) && FreshAnswers(w.fds, a)
    ensures var w1 := PipeFor(w, cmd, a);
      && (forall d :: d in w.fds ==> d in w1.fds && w1.fds[d] == w.fds[d])
      && (forall d :: d in w1.fds ==> d in w.fds || (cmd.pipeOut && a.pipe.Some? && (d == a.pipe.value.read || d == a.pipe.value.write)))
      && w1.pipeN == (if cmd.pipeOut && a.pipe.Some? then a.pipe.value else w.pipeO)
      && (cmd.pipeOut && a.pipe.Some? ==>
            w1.fds[a.pipe.value.read] == PipeEnd(w.stage, false) && w1.fds[a.pipe.value.write] == PipeEnd(w.stage, true))
  {
  }

  /** The shell's table just before execIt: what it held, the new pipe's
      two ends and the redirect files. */
  lemma {:induction false} PrepareShape(w: Wiring, cmd: Command, a: Answers)
    requires Settled(w) && FreshAnswers(w.fds, a)
    requires cmd.inforward != NoData ==> a.inOpen != -1
    requires cmd.outforward != NoData ==> a.outOpen != -1
    ensures var p := Prepare(w, cmd, a);
      && (forall d :: d in w.fds ==> d in p.w.fds && p.w.fds[d] == w.fds[d])
      && (forall d :: d in p.w.fds ==>
            d in w.fds || (d != -1 && (d == p.s.fin || d == p.s.fout))
            || (cmd.pipeOut && a.pipe.Some? && (d == a.pipe.value.read || d == a.pipe.value.write)))
      && (cmd.pipeOut && a.pipe.Some? ==>
            && p.w.pipeN == a.pipe.value
            && p.w.fds[a.pipe.value.read] == PipeEnd(w.stage, false)
            && p.w.fds[a.pipe.value.write] == PipeEnd(w.stage, true))
  {
    PipeForOpens(w, cmd, a);
  }

  /** What the rotation leaves: pipeO and pipeN agree, currInPipe says
      whether the command just handled piped on, and the previous pipe is
      closed in the shell. */
  lemma {:induction false} StepRotates(w: Wiring, cmd: Command, a: Answers, closeWriteEnd: bool)
    ensures var r := Step(w, cmd, a, closeWriteEnd);
      r.Continued? ==>
        && r.w.stage == w.stage + 1 && r.w.pipeO == r.w.pipeN
        && r.w.currInPipe == (if cmd.kind == EXECUTABLE then cmd.pipeOut else w.nextInPipe)
        && r.w.nextInPipe == r.w.currInPipe
        && (!(cmd.kind == EXECUTABLE && cmd.pipeOut) ==> r.w.pipeO == w.pipeN)
        && (w.pipeO.read != -1 ==> w.pipeO.read !in r.w.fds)
        && (w.pipeO.write != -1 ==> w.pipeO.write !in r.w.fds)
  {
    if cmd.kind == EXECUTABLE {
      var r := Step(w, cmd, a, closeWriteEnd);
      if r.Continued? {
        var p := Prepare(w, cmd, a);
        assert r.w == Rotate(Spawn(p.w, cmd, p.s, a.forked, closeWriteEnd));
        if !cmd.pipeOut {
          assert p.w.pipeN == w.pipeN;
        }
      }
    }
  }

  /** A command that does not pipe on leaves pipeO naming the pair the
      rotation has just closed: main never resets pipeN. */
  lemma {:induction false} StalePipe(w: Wiring, cmd: Command, a: Answers, closeWriteEnd: bool)
    requires Settled(w) && w.pipeO.read != -1
    requires !(cmd.kind == EXECUTABLE && cmd.pipeOut)
    ensures var r := Step(w, cmd, a, closeWriteEnd);
      r.Continued? ==> r.w.pipeO.read == w.pipeO.read && r.w.pipeO.read !in r.w.fds
  {
    StepRotates(w, cmd, a, closeWriteEnd);
  }

  /** After a command ending in `|` whose pipe() succeeds, the shell is
      Settled again with the new pipe as pipeO and currInPipe set; it still
      holds the read end, and it holds the write end only without
      `closeWriteEnd`. */
  lemma {:induction false} StepPipes(w: Wiring, cmd: Command, a: Answers, closeWriteEnd: bool)
    requires Settled(w) && FreshAnswers(w.fds, a)
    requires cmd.kind == EXECUTABLE && cmd.pipeOut && a.pipe.Some?
    requires cmd.inforward != NoData ==> a.inOpen != -1
    requires cmd.outforward != NoData ==> a.outOpen != -1
    ensures var r := Step(w, cmd, a, closeWriteEnd);
      r.Continued? && Settled(r.w) && r.w.currInPipe && r.w.stage == w.stage + 1
    ensures var r := Step(w, cmd, a, closeWriteEnd); var q := a.pipe.value;
      r.w.pipeO.read == q.read && q.read in r.w.fds && r.w.fds[q.read] == PipeEnd(w.stage, false)
    ensures var r := Step(w, cmd, a, closeWriteEnd); var q := a.pipe.value;
      closeWriteEnd ==> r.w.pipeO.write == -1 && q.write !in r.w.fds
    ensures var r := Step(w, cmd, a, closeWriteEnd); var q := a.pipe.value;
      !closeWriteEnd ==> r.w.pipeO.write == q.write && q.write in r.w.fds && r.w.fds[q.write] == PipeEnd(w.stage, true)
  {
    var q := a.pipe.value;
    var p := Prepare(w, cmd, a);
    PrepareShape(w, cmd, a);
    PrepareStreams(w, cmd, a);
    StepContinues(w, cmd, a, closeWriteEnd);
    RotateSpawnPipe(p, cmd, a.forked, closeWriteEnd, q, w.stage);
  }

  /** An EXECUTABLE whose redirects open goes through Prepare, Spawn and
      Rotate. */
  lemma {:induction false} StepContinues(w: Wiring, cmd: Command, a: Answers, closeWriteEnd: bool)
    requires cmd.kind == EXECUTABLE
    requires cmd.inforward != NoData ==> a.inOpen != -1
    requires cmd.outforward != NoData ==> a.outOpen != -1
    ensures var p := Prepare(w, cmd, a);
      Step(w, cmd, a, closeWriteEnd) == Continued(Rotate(Spawn(p.w, cmd, p.s, a.forked, closeWriteEnd)))
  {
  }

  /** The end of an iteration that made pipe q, from the state just before
      execIt. */
  lemma {:induction false} RotateSpawnPipe(p: Poised, cmd: Command, forked: bool, closeWriteEnd: bool, q: Pair, n: nat)
    requires 0 in p.w.fds && 1 in p.w.fds && p.w.nextInPipe
    requires p.w.pipeN == q && p.s.pout == q.write && q.read > 1 && q.write > 1 && q.read != q.write
    requires q.read in p.w.fds && p.w.fds[q.read] == PipeEnd(n, false)
    requires q.write in p.w.fds && p.w.fds[q.write] == PipeEnd(n, true)
    requires p.s.fin != -1 ==> p.s.fin > 1 && p.s.fin != q.read && p.s.fin != q.write
    requires p.s.fout != -1 ==> p.s.fout > 1 && p.s.fout != q.read && p.s.fout != q.write
    requires p.w.pipeO.read != -1 ==> p.w.pipeO.read > 1 && p.w.pipeO.read != q.read && p.w.pipeO.read != q.write
    requires p.w.pipeO.write != -1 ==> p.w.pipeO.write > 1 && p.w.pipeO.write != q.read && p.w.pipeO.write != q.write
    ensures var r := Rotate(Spawn(p.w, cmd, p.s, forked, closeWriteEnd));
      && Settled(r) && r.currInPipe
      && r.pipeO.read == q.read && q.read in r.fds && r.fds[q.read] == PipeEnd(n, false)
      && (closeWriteEnd ==> r.pipeO.write == -1 && q.write !in r.fds)
      && (!closeWriteEnd ==> r.pipeO.write == q.write && q.write in r.fds && r.fds[q.write] == PipeEnd(n, true))
  {
    var sp := Spawn(p.w, cmd, p.s, forked, closeWriteEnd);
    assert q.read in sp.fds && 0 in sp.fds && 1 in sp.fds;
    assert !closeWriteEnd ==> q.write in sp.fds;
  }

  // ---------------------------------------------------------------------------
  // Which objects an iteration can make reachable

  /** `o` was made for the command with index n. */
  predicate MadeAt(o: Object, n: nat) {
    !o.Terminal? && o.stage == n
  }

  /** Each descriptor of `t` still refers to what it did in `fds`, or to an
      object made for command n. */
  ghost predicate Derived(fds: Table, t: Table, n: nat) {
    forall d :: d in t ==> (d in fds && t[d] == fds[d]) || MadeAt(t[d], n)
  }

  lemma {:induction false} PrepareDerived(w: Wiring, cmd: Command, a: Answers)
    ensures Derived(w.fds, Prepare(w, cmd, a).w.fds, w.stage)
  {
    var w1 := PipeFor(w, cmd, a);
    assert Derived(w.fds, w1.fds, w.stage);
    var fin := if cmd.inforward != NoData then a.inOpen else -1;
    var w2 := OpenAs(w1, fin, File(w.stage, false));
    assert Derived(w.fds, w2.fds, w.stage);
  }

  /** An iteration only drops references the shell held and adds ones to
      objects it makes for this command; the shell's own descriptors are
      Derived from those it had. */
  lemma {:induction false} StepDerived(w: Wiring, cmd: Command, a: Answers, closeWriteEnd: bool)
    ensures Derived(w.fds, Step(w, cmd, a, closeWriteEnd).w.fds, w.stage)
  {
    if cmd.kind == EXECUTABLE {
      if cmd.inforward != NoData && a.inOpen == -1 {
        PipeForDerived(w, cmd, a);
      } else if cmd.outforward != NoData && a.outOpen == -1 {
        PrepareDerived(w, cmd, a);
      } else {
        LaunchDerived(w, cmd, a, closeWriteEnd);
      }
    }
  }

  lemma {:induction false} PipeForDerived(w: Wiring, cmd: Command, a: Answers)
    ensures Derived(w.fds, PipeFor(w, cmd, a).fds, w.stage)
  {
  }

  lemma {:induction false} LaunchDerived(w: Wiring, cmd: Command, a: Answers, closeWriteEnd: bool)
    ensures var p := Prepare(w, cmd, a);
      Derived(w.fds, Rotate(Spawn(p.w, cmd, p.s, a.forked, closeWriteEnd)).fds, w.stage)
  {
    PrepareDerived(w, cmd, a);
  }

  /** An object the shell does not hold before an iteration, and does not
      make in it, is held neither by the shell nor by the child it launches. */
  lemma {:induction false} StepWithin(w: Wiring, cmd: Command, a: Answers, closeWriteEnd: bool, o: Object)
    requires Unheld(w.fds, o) && !MadeAt(o, w.stage)
    ensures var r := Step(w, cmd, a, closeWriteEnd);
      && Unheld(r.w.fds, o)
      && (|r.w.children| > |w.children| ==> Unheld(r.w.children[|w.children|].table, o))
  {
    var r := Step(w, cmd, a, closeWriteEnd);
    StepDerived(w, cmd, a, closeWriteEnd);
    if cmd.kind == EXECUTABLE && r.Continued? && a.forked {
      var p := Prepare(w, cmd, a);
      PrepareDerived(w, cmd, a);
      ExecItWithin(p.w.fds, p.s, o);
      assert r.w.children == w.children + [Child(cmd.head, cmd.args, ExecItTable(p.w.fds, p.s))];
    }
  }

  /** Every object the shell refers to was made for an earlier command, or
      is one of the streams it started with. */
  ghost predicate Older(w: Wiring) {
    forall d :: d in w.fds ==> w.fds[d].Terminal? || w.fds[d].stage < w.stage
  }

  lemma {:induction false} InitialOlder()
    ensures Older(Initial())
  {
  }

  /** Older is an invariant of main's loop. */
  lemma {:induction false} StepKeepsOlder(w: Wiring, cmd: Command, a: Answers, closeWriteEnd: bool)
    requires Older(w)
    ensures var r := Step(w, cmd, a, closeWriteEnd); r.Continued? ==> Older(r.w)
  {
    var r := Step(w, cmd, a, closeWriteEnd);
    StepDerived(w, cmd, a, closeWriteEnd);
    if r.Continued? {
      assert r.w.stage == w.stage + 1 by {
        if cmd.kind == EXECUTABLE {
          var p := Prepare(w, cmd, a);
          assert r.w == Rotate(Spawn(p.w, cmd, p.s, a.forked, closeWriteEnd));
        }
      }
    }
  }

  // ---------------------------------------------------------------------------
  // Two commands joined by a pipe

  /** `x | y` joins x's standard output to y's standard input through the
      pipe made for x, whichever way the shell treats the write end. */
  lemma {:induction false} PipelineConnects(w: Wiring, x: Command, y: Command, ax: Answers, ay: Answers, closeWriteEnd: bool, w1: Wiring, w2: Wiring)
    requires Settled(w) && FreshAnswers(w.fds, ax)
    requires x.kind == EXECUTABLE && x.pipeOut && x.outforward == NoData && ax.pipe.Some? && ax.forked
    requires x.inforward != NoData ==> ax.inOpen != -1
    requires y.kind == EXECUTABLE && y.inforward == NoData && ay.forked
    requires y.outforward != NoData ==> ay.outOpen != -1
    requires w1 == Step(w, x, ax, closeWriteEnd).w && FreshAnswers(w1.fds, ay)
    requires w2 == Step(w1, y, ay, closeWriteEnd).w
    ensures Step(w, x, ax, closeWriteEnd).Continued? && Step(w1, y, ay, closeWriteEnd).Continued?
    ensures |w2.children| == |w.children| + 2
    ensures var t := w2.children[|w.children|].table; 1 in t && t[1] == PipeEnd(w.stage, true)
    ensures var t := w2.children[|w.children| + 1].table; 0 in t && t[0] == PipeEnd(w.stage, false)
  {
    StepLaunches(w, x, ax, closeWriteEnd);
    StepPipes(w, x, ax, closeWriteEnd);
    StepLaunches(w1, y, ay, closeWriteEnd);
    StepForks(w1, y, ay, closeWriteEnd);
    assert w2.children[|w.children|] == w2.children[..|w1.children|][|w.children|];
  }

  /** The child an EXECUTABLE's iteration launches has execIt's table made
      from the shell's table just before execIt. */
  lemma {:induction false} StepChild(w: Wiring, cmd: Command, a: Answers, closeWriteEnd: bool)
    requires cmd.kind == EXECUTABLE && a.forked
    requires cmd.inforward != NoData ==> a.inOpen != -1
    requires cmd.outforward != NoData ==> a.outOpen != -1
    ensures var r := Step(w, cmd, a, closeWriteEnd); var p := Prepare(w, cmd, a);
      && r == Continued(Rotate(Spawn(p.w, cmd, p.s, true, closeWriteEnd)))
      && r.w.children == w.children + [Child(cmd.head, cmd.args, ExecItTable(p.w.fds, p.s))]
  {
  }

  /** Only descriptor `fd` of the table refers to `o`. */
  ghost predicate OnlyAt(t: Table, o: Object, fd: int) {
    forall d :: d in t && t[d] == o ==> d == fd
  }

  /** What only pout refers to, only the child's standard output refers to
      once execIt has run (when there is no output redirect). */
  lemma {:induction false} ExecItOnlyAt(fds: Table, s: Streams, o: Object)
    requires Passable(fds, s) && s.pout != -1 && s.fout == -1 && OnlyAt(fds, o, s.pout)
    ensures OnlyAt(ExecItTable(fds, s), o, 1)
  {
    ExecItStreams(fds, s);
    assert Passed(s, s.pout);
  }

  /** Just before execIt of a command ending in `|`, the new pipe's write
      end is the only descriptor of the shell on it. */
  lemma {:induction false} PrepareOnlyWriteEnd(w: Wiring, cmd: Command, a: Answers)
    requires Settled(w) && FreshAnswers(w.fds, a) && Older(w)
    requires cmd.pipeOut && a.pipe.Some?
    requires cmd.inforward != NoData ==> a.inOpen != -1
    requires cmd.outforward != NoData ==> a.outOpen != -1
    ensures var p := Prepare(w, cmd, a);
      p.s.pout == a.pipe.value.write && OnlyAt(p.w.fds, PipeEnd(w.stage, true), a.pipe.value.write)
  {
    var p := Prepare(w, cmd, a);
    PrepareShape(w, cmd, a);
    PrepareStreams(w, cmd, a);
  }

  /** With `closeWriteEnd`, once a command ending in `|` is launched the
      shell keeps no descriptor on the new pipe's write end. */
  lemma {:induction false} StepClosesWriteEnd(w: Wiring, cmd: Command, a: Answers)
    requires Settled(w) && FreshAnswers(w.fds, a) && Older(w)
    requires cmd.kind == EXECUTABLE && cmd.pipeOut && a.pipe.Some?
    requires cmd.inforward != NoData ==> a.inOpen != -1
    requires cmd.outforward != NoData ==> a.outOpen != -1
    ensures Unheld(Step(w, cmd, a, true).w.fds, PipeEnd(w.stage, true))
  {
    var p := Prepare(w, cmd, a);
    PrepareOnlyWriteEnd(w, cmd, a);
    var sp := Spawn(p.w, cmd, p.s, a.forked, true);
    assert Step(w, cmd, a, true).w == Rotate(sp);
    assert Unheld(sp.fds, PipeEnd(w.stage, true));
  }

  /** The shell as written keeps the pipe's write end open while it forks
      the next command of `x | y`, so y holds a descriptor on it, under the
      same number, and can never read end of file from the pipe, even after
      x has exited. */
  lemma {:induction false} ReaderHoldsWriteEnd(w: Wiring, x: Command, y: Command, ax: Answers, ay: Answers, w1: Wiring, w2: Wiring)
    requires Settled(w) && FreshAnswers(w.fds, ax)
    requires x.kind == EXECUTABLE && x.pipeOut && x.outforward == NoData && ax.pipe.Some? && ax.forked
    requires x.inforward != NoData ==> ax.inOpen != -1
    requires y.kind == EXECUTABLE && y.inforward == NoData && ay.forked
    requires y.outforward != NoData ==> ay.outOpen != -1
    requires y.pipeOut ==> ay.pipe.Some?
    requires w1 == Step(w, x, ax, false).w && FreshAnswers(w1.fds, ay)
    requires w2 == Step(w1, y, ay, false).w
    ensures |w2.children| == |w.children| + 2
    ensures var t := w2.children[|w.children| + 1].table; var q := ax.pipe.value;
      q.write in t && t[q.write] == PipeEnd(w.stage, true)
  {
    var q := ax.pipe.value;
    PipelineConnects(w, x, y, ax, ay, false, w1, w2);
    StepPipes(w, x, ax, false);
    ReaderInherits(w1, y, ay, q.write, PipeEnd(w.stage, true));
  }

  /** A command forked while the shell still holds the previous pipe's write
      end at `fd` inherits it under the same number, unless it is the
      command's own standard output. */
  lemma {:induction false} ReaderInherits(v: Wiring, y: Command, ay: Answers, fd: int, o: Object)
    requires Settled(v) && FreshAnswers(v.fds, ay) && v.currInPipe
    requires y.kind == EXECUTABLE && y.inforward == NoData && ay.forked
    requires y.outforward != NoData ==> ay.outOpen != -1
    requires y.pipeOut ==> ay.pipe.Some?
    requires fd != -1 && fd == v.pipeO.write && v.fds[fd] == o
    ensures var r := Step(v, y, ay, false).w;
      && |r.children| == |v.children| + 1
      && fd in r.children[|v.children|].table && r.children[|v.children|].table[fd] == o
  {
    var p := Prepare(v, y, ay);
    PrepareShape(v, y, ay);
    PrepareStreams(v, y, ay);
    StepChild(v, y, ay, false);
    assert !Passed(p.s, fd);
    ExecItStreams(p.w.fds, p.s);
  }

  /** With the write end closed in the shell after execIt, the pipe of
      `x | y` has exactly one descriptor on its write end left anywhere:
      x's standard output. Neither y nor the shell holds one, so y reads end
      of file once x exits. */
  lemma {:induction false} ReaderSeesEnd(w: Wiring, x: Command, y: Command, ax: Answers, ay: Answers, w1: Wiring, w2: Wiring)
    requires Settled(w) && FreshAnswers(w.fds, ax) && Older(w)
    requires x.kind == EXECUTABLE && x.pipeOut && x.outforward == NoData && ax.pipe.Some? && ax.forked
    requires x.inforward != NoData ==> ax.inOpen != -1
    requires y.kind == EXECUTABLE && y.inforward == NoData && ay.forked
    requires y.outforward != NoData ==> ay.outOpen != -1
    requires w1 == Step(w, x, ax, true).w && FreshAnswers(w1.fds, ay)
    requires w2 == Step(w1, y, ay, true).w
    ensures |w2.children| == |w.children| + 2
    ensures var n := |w.children|; var end := PipeEnd(w.stage, true);
      && OnlyAt(w2.children[n].table, end, 1)
      && Unheld(w2.children[n + 1].table, end)
      && Unheld(w2.fds, end)
  {
    PipelineConnects(w, x, y, ax, ay, true, w1, w2);
    WriterHoldsOutput(w, x, ax);
    StepWithin(w1, y, ay, true, PipeEnd(w.stage, true));
    StepForks(w1, y, ay, true);
    assert w2.children[|w.children|] == w2.children[..|w1.children|][|w.children|];
  }

  /** After x's step, with the write end closed in the shell, x's child holds
      the write end of its new pipe at its standard output only, and the
      shell holds it nowhere. */
  lemma {:induction false} WriterHoldsOutput(w: Wiring, x: Command, ax: Answers)
    requires Settled(w) && FreshAnswers(w.fds, ax) && Older(w)
    requires x.kind == EXECUTABLE && x.pipeOut && x.outforward == NoData && ax.pipe.Some? && ax.forked
    requires x.inforward != NoData ==> ax.inOpen != -1
    ensures var w1 := Step(w, x, ax, true).w; var end := PipeEnd(w.stage, true);
      && |w1.children| == |w.children| + 1
      && OnlyAt(w1.children[|w.children|].table, end, 1)
      && Unheld(w1.fds, end)
      && w1.stage == w.stage + 1
  {
    var p := Prepare(w, x, ax);
    PrepareOnlyWriteEnd(w, x, ax);
    PrepareStreams(w, x, ax);
    StepChild(w, x, ax, true);
    ExecItOnlyAt(p.w.fds, p.s, PipeEnd(w.stage, true));
    StepClosesWriteEnd(w, x, ax);
    StepPipes(w, x, ax, true);
  }

  // ---------------------------------------------------------------------------
  // main's loop

  /** One iteration of main's loop on its locals: as main runs it when
      `closeWriteEnd` is false, and with the write end of a new pipe closed
      in the shell once the child has it when it is true. */
  method Dispatch(w: Wiring, cmd: Command, a: Answers, closeWriteEnd: bool) returns (r: After)
    ensures r == Step(w, cmd, a, closeWriteEnd)
  {
    var v := w;
    if cmd.kind == EXECUTABLE {
      var p, exited := OpenStreams(w, cmd, a);
      if exited {
        return Exited(p.w);
      }
      v := ForkChild(p, cmd, a.forked, closeWriteEnd);
    }
    var pipeO, fds := v.pipeO, v.fds;
    if pipeO.read != -1 || pipeO.write != -1 {
      fds := CloseFd(CloseFd(fds, pipeO.read), pipeO.write);
    }
    pipeO := v.pipeN;
    r := Continued(v.(fds := fds, pipeO := pipeO, currInPipe := v.nextInPipe, stage := v.stage + 1));
  }

  /** An EXECUTABLE's pipe and redirect files, up to execIt; `exited` when
      main calls exit(1) on a redirect that cannot be opened. */
  method OpenStreams(w: Wiring, cmd: Command, a: Answers) returns (p: Poised, exited: bool)
    requires cmd.kind == EXECUTABLE
    ensures exited <==> (cmd.inforward != NoData && a.inOpen == -1) || (cmd.outforward != NoData && a.outOpen == -1)
    ensures exited ==> Step(w, cmd, a, false) == Exited(p.w) && Step(w, cmd, a, true) == Exited(p.w)
    ensures !exited ==> p == Prepare(w, cmd, a)
  {
    var pipeN, nextInPipe, fds := w.pipeN, w.nextInPipe, w.fds;
    var pin, pout, fin, fout := -1, -1, -1, -1;
    if cmd.pipeOut {
      if a.pipe.Some? {
        pipeN := a.pipe.value;
        fds := fds[pipeN.read := PipeEnd(w.stage, false)][pipeN.write := PipeEnd(w.stage, true)];
      }
      pout := pipeN.write;
      nextInPipe := true;
    } else {
      nextInPipe := false;
    }
    assert w.(pipeN := pipeN, nextInPipe := nextInPipe, fds := fds) == PipeFor(w, cmd, a);
    if w.currInPipe {
      pin := w.pipeO.read;
    }
    exited := false;
    if cmd.inforward != NoData {
      fin := a.inOpen;
      if fin == -1 {
        exited := true;
        return Poised(w.(pipeN := pipeN, nextInPipe := nextInPipe, fds := fds), Streams(pin, pout, fin, fout)), exited;
      }
      fds := fds[fin := File(w.stage, false)];
    }
    if cmd.outforward != NoData {
      fout := a.outOpen;
      if fout == -1 {
        exited := true;
        return Poised(w.(pipeN := pipeN, nextInPipe := nextInPipe, fds := fds), Streams(pin, pout, fin, fout)), exited;
      }
      fds := fds[fout := File(w.stage, true)];
    }
    p := Poised(w.(pipeN := pipeN, nextInPipe := nextInPipe, fds := fds), Streams(pin, pout, fin, fout));
  }

  /** execIt and what the shell does after it: the child is recorded when
      fork succeeds, and the shell closes fin and fout, and the new pipe's
      write end too when `closeWriteEnd` (main.c does not). */
  method ForkChild(p: Poised, cmd: Command, forked: bool, closeWriteEnd: bool) returns (v: Wiring)
    ensures v == Spawn(p.w, cmd, p.s, forked, closeWriteEnd)
  {
    var fds, children, pipeN := p.w.fds, p.w.children, p.w.pipeN;
    if forked {
      children := children + [Child(cmd.head, cmd.args, ExecItTable(fds, p.s))];
    }
    if p.s.fin != -1 {
      fds := Close(fds, p.s.fin);
    }
    if p.s.fout != -1 {
      fds := Close(fds, p.s.fout);
    }
    if closeWriteEnd && p.s.pout != -1 {
      fds := Close(fds, p.s.pout);
      pipeN := pipeN.(write := -1);
    }
    v := p.w.(fds := fds, children := children, pipeN := pipeN);
  }

  /** main's loop over the commands parseCommand returned with status 0, the
      one with index k handled with the answers env(k); it stops at the
      first exit(1). */
  function Replay(cmds: seq<Command>, env: nat -> Answers, closeWriteEnd: bool): After
    decreases |cmds|
  {
    if cmds == [] then Continued(Initial())
    else match Replay(cmds[..|cmds| - 1], env, closeWriteEnd)
      case Exited(w) => Exited(w)
      case Continued(w) => Step(w, cmds[|cmds| - 1], env(|cmds| - 1), closeWriteEnd)
  }

  /** The objects the shell refers to always come from earlier commands, and
      the wiring's index counts the commands handled. */
  lemma {:induction false} ReplayOlder(cmds: seq<Command>, env: nat -> Answers, closeWriteEnd: bool)
    ensures var r := Replay(cmds, env, closeWriteEnd); r.Continued? ==> Older(r.w) && r.w.stage == |cmds|
    decreases |cmds|
  {
    if cmds != [] {
      var front := cmds[..|cmds| - 1];
      ReplayOlder(front, env, closeWriteEnd);
      var r0 := Replay(front, env, closeWriteEnd);
      if r0.Continued? {
        StepKeepsOlder(r0.w, cmds[|cmds| - 1], env(|cmds| - 1), closeWriteEnd);
        StepRotates(r0.w, cmds[|cmds| - 1], env(|cmds| - 1), closeWriteEnd);
      }
    }
  }

  /** The bytes a sequence of parseCommand calls read, in order. */
  ghost function Consumed(parses: seq<seq<Call>>): seq<char>
    decreases |parses|
  {
    if parses == [] then [] else Consumed(parses[..|parses| - 1]) + BytesOf(parses[|parses| - 1])
  }

  /** parseCommand returned `cmd` with status 0 after reading `calls`. */
  ghost predicate Returned(calls: seq<Call>, cmd: Command) {
    var p := FeedAll(TokensOf(calls));
    p.Stopped? && p.status == 0 && p.cmd == cmd && p.last.Some?
  }

  /** ... and the token that ended it was a PIPE. */
  ghost predicate PipedOn(calls: seq<Call>) {
    var p := FeedAll(TokensOf(calls));
    p.Stopped? && p.last.Some? && p.last.value.kind == PIPE
  }

  lemma {:induction false} ReplaySnoc(cmds: seq<Command>, c: Command, env: nat -> Answers, closeWriteEnd: bool)
    requires Replay(cmds, env, closeWriteEnd).Continued?
    ensures Replay(cmds + [c], env, closeWriteEnd) == Step(Replay(cmds, env, closeWriteEnd).w, c, env(|cmds|), closeWriteEnd)
  {
    assert (cmds + [c])[..|cmds|] == cmds;
  }

  lemma {:induction false} ConsumedSnoc(parses: seq<seq<Call>>, calls: seq<Call>)
    ensures Consumed(parses + [calls]) == Consumed(parses) + BytesOf(calls)
  {
    assert (parses + [calls])[..|parses|] == parses;
  }

  /** Parse k started from bufs[k], whose `used` is u, and those before n
      lexed the bytes they read. */
  ghost predicate ParsedFrom(parses: seq<seq<Call>>, bufs: seq<Dynamic.Buffer>, u: nat, n: nat) {
    && |bufs| == |parses|
    && (forall k :: 0 <= k < |parses| ==> bufs[k].used == u)
    && (forall k :: 0 <= k < |parses| && k < n ==> Chained('\0', bufs[k], parses[k]))
  }

  /** parseCommand returned commands[k] from parses[k], and the first n of
      them ended with a PIPE. */
  ghost predicate Accepted(parses: seq<seq<Call>>, commands: seq<Command>, n: int) {
    && |commands| <= |parses|
    && (forall k :: 0 <= k < |commands| ==> Returned(parses[k], commands[k]))
    && (forall k :: 0 <= k < |commands| && k < n ==> PipedOn(parses[k]))
  }

  /** One more parse, and the command it returned. */
  lemma AcceptedSnoc(parses: seq<seq<Call>>, commands: seq<Command>, calls: seq<Call>, cmd: Command, piped: bool)
    requires Accepted(parses, commands, |commands|) && |parses| == |commands| && Returned(calls, cmd)
    requires piped ==> PipedOn(calls)
    ensures Accepted(parses + [calls], commands + [cmd], if piped then |commands| + 1 else |commands|)
  {
  }

  /** How main's loop leaves: after a parse that returned non-zero (or ran
      past the input), or after a command that ended without a pipe or
      exited. */
  ghost predicate Ended(r: After, commands: seq<Command>, parses: seq<seq<Call>>, overran: bool) {
    && (|parses| == |commands| || (|parses| == |commands| + 1 && r.Continued?))
    && Accepted(parses, commands, |commands| - 1)
    && (|parses| == |commands| + 1 ==>
          overran || (FeedAll(TokensOf(parses[|commands|])).Stopped? && FeedAll(TokensOf(parses[|commands|])).status != 0))
    && (|parses| == |commands| && r.Continued? ==> commands != [] && !PipedOn(parses[|commands| - 1]))
  }

  /** Leaving at a parse that returned non-zero. */
  lemma EndedAtFailure(r: After, commands: seq<Command>, parses: seq<seq<Call>>, calls: seq<Call>, overran: bool)
    requires r.Continued? && |parses| == |commands| && Accepted(parses, commands, |commands|)
    requires overran || (FeedAll(TokensOf(calls)).Stopped? && FeedAll(TokensOf(calls)).status != 0)
    ensures Ended(r, commands, parses + [calls], overran)
  {
    assert (parses + [calls])[|commands|] == calls;
  }

  /** Leaving after a command: it exited, or it did not end with a pipe. */
  lemma EndedAfterCommand(r: After, commands: seq<Command>, parses: seq<seq<Call>>, calls: seq<Call>, cmd: Command, overran: bool)
    requires |parses| == |commands| && Accepted(parses, commands, |commands|) && Returned(calls, cmd)
    requires r.Continued? ==> !PipedOn(calls)
    ensures Ended(r, commands + [cmd], parses + [calls], overran)
  {
    AcceptedSnoc(parses, commands, calls, cmd, false);
    assert (parses + [calls])[|commands|] == calls;
  }

  /** One more parse, chained when `lexed`. */
  lemma ParsedFromSnoc(parses: seq<seq<Call>>, bufs: seq<Dynamic.Buffer>, u: nat, calls: seq<Call>, buf: Dynamic.Buffer, lexed: bool)
    requires ParsedFrom(parses, bufs, u, |parses|) && buf.used == u
    requires lexed ==> Chained('\0', buf, calls)
    ensures ParsedFrom(parses + [calls], bufs + [buf], u, if lexed then |parses| + 1 else |parses|)
  {
  }

  /** parseCommand as main calls it: on main's tokenizer, whose `last` stays
      the NUL byte since parseCommand receives a copy. */
  method NextCommand(tk: Tokenizer) returns (status: int, command: Command, last: Option<Token>, ghost calls: seq<Call>)
    requires tk.Valid() && !tk.reader.overran && tk.last == '\0'
    modifies tk.reader, tk.reader.buff, tk.lineBuffer.data
    ensures tk.Valid() && tk.last == '\0'
    ensures tk.reader.Yielded == old(tk.reader.Yielded) + BytesOf(calls)
    ensures status == -1 <==> tk.reader.overran
    ensures tk.lineBuffer.used == old(tk.lineBuffer.used)
    ensures !tk.reader.overran ==> calls != [] && Chained('\0', old(tk.lineBuffer.Value()), calls)
    ensures status == 0 ==> Returned(calls, command) && last.Some? && Terminates(last.value) && (last.value.kind == PIPE <==> PipedOn(calls))
    ensures status != 0 && !tk.reader.overran ==> FeedAll(TokensOf(calls)).Stopped? && FeedAll(TokensOf(calls)).status != 0
    ensures !tk.reader.overran ==> Reader.Decreased(old(tk.reader.Value()), tk.reader.Value())
  {
    status, command, last, calls := ParseCommand(tk);
    if status == 0 {
      ghost var toks := TokensOf(calls);
      assert toks[..|toks| - 1] == TokensOf(calls)[..|calls| - 1];
      ReturnsTerminator(toks);
    }
  }

  /** One pass of main's loop body: parseCommand, then the command it
      returned run against the answers for it, with `done` set where main
      leaves the loop. */
  method Iteration(tk: Tokenizer, env: nat -> Answers, closeWriteEnd: bool, r0: After, commands0: seq<Command>,
               ghost parses0: seq<seq<Call>>, ghost bufs0: seq<Dynamic.Buffer>, ghost u: nat, ghost y0: seq<char>)
    returns (r: After, commands: seq<Command>, ghost parses: seq<seq<Call>>, ghost bufs: seq<Dynamic.Buffer>, done: bool)
    requires tk.Valid() && tk.last == '\0' && !tk.reader.overran && tk.lineBuffer.used == u
    requires r0 == Replay(commands0, env, closeWriteEnd) && r0.Continued?
    requires tk.reader.Yielded == y0 + Consumed(parses0)
    requires |parses0| == |commands0| && ParsedFrom(parses0, bufs0, u, |parses0|) && Accepted(parses0, commands0, |commands0|)
    modifies tk.reader, tk.reader.buff, tk.lineBuffer.data
    ensures tk.Valid() && tk.last == '\0' && tk.lineBuffer.used == u
    ensures r == Replay(commands, env, closeWriteEnd)
    ensures tk.reader.Yielded == y0 + Consumed(parses)
    ensures ParsedFrom(parses, bufs, u, if tk.reader.overran then |commands| else |parses|)
    ensures done ==> Ended(r, commands, parses, tk.reader.overran)
    ensures !done ==> !tk.reader.overran && r.Continued? && |parses| == |commands| && Accepted(parses, commands, |commands|)
    ensures !done ==> Reader.Decreased(old(tk.reader.Value()), tk.reader.Value())
  {
    ghost var buf := tk.lineBuffer.Value();
    var status, command, last, calls := NextCommand(tk);
    ConsumedSnoc(parses0, calls);
    Regroup(y0, Consumed(parses0), BytesOf(calls));
    ParsedFromSnoc(parses0, bufs0, u, calls, buf, !tk.reader.overran);
    parses, bufs := parses0 + [calls], bufs0 + [buf];
    if status != 0 {
      EndedAtFailure(r0, commands0, parses0, calls, tk.reader.overran);
      r, commands, done := r0, commands0, true;
    } else {
      r := Dispatch(r0.w, command, env(|commands0|), closeWriteEnd);
      ReplaySnoc(commands0, command, env, closeWriteEnd);
      done := r.Exited? || last.value.kind == ENDL;
      AcceptedSnoc(parses0, commands0, calls, command, !done);
      if done {
        EndedAfterCommand(r, commands0, parses0, calls, command, tk.reader.overran);
      }
      commands := commands0 + [command];
    }
  }

  /** main's while loop: parseCommand on the tokenizer main owns, one
      iteration per command returned with status 0, ending after the command
      that ended with a newline, at a parse that returns non-zero, or at
      exit(1). With `closeWriteEnd` false it is the loop as main.c runs it.
      Parse k starts from the line buffer bufs[k], whose `used` is always
      main's own, and lexes the bytes it read into its calls. */
  method Run(tk: Tokenizer, env: nat -> Answers, closeWriteEnd: bool)
    returns (r: After, commands: seq<Command>, ghost parses: seq<seq<Call>>, ghost bufs: seq<Dynamic.Buffer>)
    requires tk.Valid() && !tk.reader.overran && tk.last == '\0'
    modifies tk.reader, tk.reader.buff, tk.lineBuffer.data
    ensures r == Replay(commands, env, closeWriteEnd)
    ensures tk.reader.Yielded == old(tk.reader.Yielded) + Consumed(parses)
    ensures ParsedFrom(parses, bufs, old(tk.lineBuffer.used), if tk.reader.overran then |commands| else |parses|)
    ensures Ended(r, commands, parses, tk.reader.overran)
  {
    ghost var u, y0 := tk.lineBuffer.used, tk.reader.Yielded;
    r := Continued(Initial());
    commands, parses, bufs := [], [], [];
    while true
      invariant tk.Valid() && tk.last == '\0' && !tk.reader.overran && tk.lineBuffer.used == u
      invariant r == Replay(commands, env, closeWriteEnd) && r.Continued?
      invariant tk.reader.Yielded == y0 + Consumed(parses)
      invariant |parses| == |commands| && ParsedFrom(parses, bufs, u, |parses|) && Accepted(parses, commands, |commands|)
      decreases Reader.RefillBudget(tk.reader.Value()), Reader.ByteBudget(tk.reader.Value())
    {
      var done;
      r, commands, parses, bufs, done := Iteration(tk, env, closeWriteEnd, r, commands, parses, bufs, u, y0);
      if done {
        return;
      }
    }
  }
}
