/** The wc tool of the shell (system_hw3/wc.c): the loop that counts the
    bytes, the newline bytes and the white-space bytes of a descriptor, one
    read() chunk at a time, and main's walk over its file arguments.

    read() and open() are not run: what they answer is a parameter. A read
    answers a chunk of bytes (the empty chunk is end of file) or fails. */
module Wc {
  import opened Wrappers

  /** The size of wc's buffer, BUFF_SIZE: the most one read() hands back. */
  const BUFF_SIZE: nat := 1024

  /** isspace() in the C locale: space, \t, \n, \v, \f and \r. */
  predicate IsSpace(c: Byte) {
    c == 32 || 9 <= c <= 13
  }

  const NEWLINE: Byte := 10

  // ---------------------------------------------------------------------------
  // What wc counts

  /** The number of '\n' bytes in s. */
  function Newlines(s: seq<Byte>): nat {
    if s == [] then 0 else Newlines(s[..|s| - 1]) + (if s[|s| - 1] == NEWLINE then 1 else 0)
  }

  /** The number of white-space bytes in s: what wc reports as words. */
  function Spaces(s: seq<Byte>): nat {
    if s == [] then 0 else Spaces(s[..|s| - 1]) + (if IsSpace(s[|s| - 1]) then 1 else 0)
  }

  /** The three numbers wc prints: lines, words and bytes. */
  datatype Counts = Counts(lines: nat, words: nat, bytes: nat)

  /** The counts of a stream whose bytes are s, started from zero. */
  function CountOf(s: seq<Byte>): Counts {
    Counts(Newlines(s), Spaces(s), |s|)
  }

  function Plus(a: Counts, b: Counts): Counts {
    Counts(a.lines + b.lines, a.words + b.words, a.bytes + b.bytes)
  }

  lemma {:induction false} NewlinesAppend(a: seq<Byte>, b: seq<Byte>)
    ensures Newlines(a + b) == Newlines(a) + Newlines(b)
    decreases |b|
  {
    if b == [] {
      assert a + b == a;
    } else {
      assert (a + b)[..|a + b| - 1] == a + b[..|b| - 1];
      NewlinesAppend(a, b[..|b| - 1]);
    }
  }

  lemma {:induction false} SpacesAppend(a: seq<Byte>, b: seq<Byte>)
    ensures Spaces(a + b) == Spaces(a) + Spaces(b)
    decreases |b|
  {
    if b == [] {
      assert a + b == a;
    } else {
      assert (a + b)[..|a + b| - 1] == a + b[..|b| - 1];
      SpacesAppend(a, b[..|b| - 1]);
    }
  }

  /** Counting a stream in two pieces and adding gives the counts of the
      whole: the counts depend only on the bytes, not on where the chunk
      boundaries fall. */
  lemma {:induction false} CountSplits(a: seq<Byte>, b: seq<Byte>)
    ensures CountOf(a + b) == Plus(CountOf(a), CountOf(b))
  {
    NewlinesAppend(a, b);
    SpacesAppend(a, b);
    PlusFields(CountOf(a + b), CountOf(a), CountOf(b));
  }

  /** Counts add field by field. */
  lemma PlusFields(total: Counts, x: Counts, y: Counts)
    requires total.lines == x.lines + y.lines && total.words == x.words + y.words
    requires total.bytes == x.bytes + y.bytes
    ensures total == Plus(x, y)
  {
  }

  /** Every newline is also a white-space byte, so it is counted both as a
      line and as a word, and no count exceeds the byte count. */
  lemma {:induction false} CountsBounded(s: seq<Byte>)
    ensures Newlines(s) <= Spaces(s) <= |s|
    decreases |s|
  {
    if s != [] {
      CountsBounded(s[..|s| - 1]);
    }
  }

  /** The words wc reports are white-space bytes, not words: "a  b\n" has
      two words but three white-space bytes. */
  lemma WordsAreSpaceBytes()
    ensures CountOf([97, 32, 32, 98, 10]) == Counts(1, 3, 5)
  {
    var s: seq<Byte> := [97, 32, 32, 98, 10];
    assert s[..4] == [97, 32, 32, 98];
    assert s[..4][..3] == [97, 32, 32];
    assert s[..4][..3][..2] == [97, 32];
    assert s[..4][..3][..2][..1] == [97];
    var s1, s2, s3, s4 := s[..1], s[..2], s[..3], s[..4];
    assert s1[..0] == [] && s2[..1] == s1 && s3[..2] == s2 && s4[..3] == s3 && s[..4] == s4;
    assert Newlines(s1) == 0 && Spaces(s1) == 0;
    assert Newlines(s2) == 0 && Spaces(s2) == 1;
    assert Newlines(s3) == 0 && Spaces(s3) == 2;
    assert Newlines(s4) == 0 && Spaces(s4) == 2;
  }

  // ---------------------------------------------------------------------------
  // The descriptor

  /** One answer of read(fd, buff, sizeof(buff)). */
  datatype ReadAnswer = Got(bytes: seq<Byte>) | Failed

  /** The chunks read before the loop stops: at the first empty chunk, the
      first failure, or when the answers run out (end of file). */
  function Delivered(answers: seq<ReadAnswer>): seq<seq<Byte>> {
    if answers == [] || answers[0].Failed? || answers[0].bytes == [] then []
    else [answers[0].bytes] + Delivered(answers[1..])
  }

  /** Whether the loop stops on a failed read. */
  predicate FailsFirst(answers: seq<ReadAnswer>) {
    if answers == [] || (answers[0].Got? && answers[0].bytes == []) then false
    else answers[0].Failed? || FailsFirst(answers[1..])
  }

  /** The bytes of a sequence of chunks, in order. */
  function Flatten(chunks: seq<seq<Byte>>): seq<Byte> {
    if chunks == [] then [] else chunks[0] + Flatten(chunks[1..])
  }

  /** The bytes wc sees on the descriptor. */
  function Stream(answers: seq<ReadAnswer>): seq<Byte> {
    Flatten(Delivered(answers))
  }

  /** wc(fd, &l, &w, &b) with the read error handled as `rb == -1` evidently
      means: the counts of every chunk are added onto the caller's values,
      and `failed` says the loop stopped on a read error (perror). */
  method Count(answers: seq<ReadAnswer>, l0: nat, w0: nat, b0: nat) returns (l: nat, w: nat, b: nat, failed: bool)
    ensures l == l0 + Newlines(Stream(answers))
    ensures w == w0 + Spaces(Stream(answers))
    ensures b == b0 + |Stream(answers)|
    ensures failed == FailsFirst(answers)
  {
    l, w, b := l0, w0, b0;
    var k := 0;
    while k < |answers| && Continues(Size(answers[k]))
      invariant 0 <= k <= |answers|
      invariant Plus(Counts(l, w, b), CountOf(Stream(answers[k..]))) == Plus(Counts(l0, w0, b0), CountOf(Stream(answers)))
      invariant FailsFirst(answers[k..]) == FailsFirst(answers)
      decreases |answers| - k
    {
      var chunk := answers[k].bytes;
      b := b + |chunk|;
      var i := 0;
      ghost var l1, w1 := l, w;
      while i < |chunk|
        invariant 0 <= i <= |chunk|
        invariant l == l1 + Newlines(chunk[..i]) && w == w1 + Spaces(chunk[..i])
      {
        assert chunk[..i + 1][..i] == chunk[..i];
        if chunk[i] == NEWLINE {
          l := l + 1;
        }
        if IsSpace(chunk[i]) {
          w := w + 1;
        }
        i := i + 1;
      }
      assert chunk[..i] == chunk;
      StreamStep(answers, k);
      CountSplits(chunk, Stream(answers[k + 1..]));
      k := k + 1;
    }
    if k < |answers| {
      assert Stream(answers[k..]) == [];
    }
    failed := k < |answers| && answers[k].Failed?;
  }

  /** What read() returns for an answer: the chunk's length, or -1. */
  function Size(r: ReadAnswer): (n: int)
    ensures n == -1 <==> r.Failed?
    ensures r.Got? ==> n == |r.bytes|
  {
    if r.Failed? then -1 else |r.bytes|
  }

  /** The loop's condition on ssize_t: more bytes came. */
  predicate Continues(rb: int) {
    rb > 0
  }

  /** A read that brings bytes puts them in front of the rest of the
      stream and is not the failure the loop stops on. */
  lemma {:induction false} StreamStep(answers: seq<ReadAnswer>, k: nat)
    requires k < |answers| && answers[k].Got? && answers[k].bytes != []
    ensures Stream(answers[k..]) == answers[k].bytes + Stream(answers[k + 1..])
    ensures FailsFirst(answers[k..]) == FailsFirst(answers[k + 1..])
  {
    assert answers[k..][0] == answers[k];
    assert answers[k..][1..] == answers[k + 1..];
  }

  // ---------------------------------------------------------------------------
  // The loop condition as written

  /** size_t is 64 bits wide: assigning read()'s -1 to it wraps. */
  const SIZE_MAX: int := 0x1_0000_0000_0000_0000 - 1

  /** `rb = read(...)` with `size_t rb`. */
  function ToSize(n: int): (r: nat)
    requires -1 <= n <= SIZE_MAX
    ensures r <= SIZE_MAX && (n >= 0 ==> r == n)
  {
    if n == -1 then SIZE_MAX else n
  }

  /** The loop condition as written tests the wrapped value. */
  predicate ContinuesAsWritten(rb: int)
    requires -1 <= rb <= SIZE_MAX
  {
    ToSize(rb) > 0
  }

  /** As written, a failed read keeps the loop going: it counts SIZE_MAX
      bytes and walks far past the 1024-byte buffer, and since the loop only
      ends on 0, the `rb == -1` report after it is never reached. */
  lemma FailedReadKeepsLooping()
    ensures ContinuesAsWritten(Size(Failed)) && !Continues(Size(Failed))
    ensures ToSize(Size(Failed)) > BUFF_SIZE
    ensures forall rb :: -1 <= rb <= SIZE_MAX && !ContinuesAsWritten(rb) ==> ToSize(rb) != ToSize(-1)
  {
  }

  /** On every answer that is not a failure both conditions agree. */
  lemma ConditionsAgreeOnData(r: ReadAnswer)
    requires r.Got? && |r.bytes| <= BUFF_SIZE
    ensures ContinuesAsWritten(Size(r)) == Continues(Size(r)) == (r.bytes != [])
  {
  }

  // ---------------------------------------------------------------------------
  // main

  /** One line of wc's output. */
  datatype Report =
    | Totals(counts: Counts)   // "\t%d\t%d\t%d\n"
    | CouldNotOpen             // perror("Could not open file")
    | CouldNotRead             // perror("Could not read file")

  /** What wc prints for a descriptor: a read error first, then the counts. */
  function Reports(answers: seq<ReadAnswer>): seq<Report> {
    (if FailsFirst(answers) then [CouldNotRead] else []) + [Totals(CountOf(Stream(answers)))]
  }

  /** What an `open(argv[i], O_RDONLY)` answers: the answers of the file, or
      None when open() returns -1. */
  type Files = string -> Option<seq<ReadAnswer>>

  /** What wc prints for the file argument `path`. */
  function FileReports(files: Files, path: string): seq<Report> {
    match files(path)
    case None => [CouldNotOpen]
    case Some(answers) => Reports(answers)
  }

  /** The output for arguments argv[from..], in order. */
  function ArgReports(files: Files, args: seq<string>): seq<Report> {
    if args == [] then [] else FileReports(files, args[0]) + ArgReports(files, args[1..])
  }

  /** The body of main's for-loop from index `from`: every file argument
      argv[from..] in order, each counted from zero. */
  method EachFile(argv: seq<string>, from: nat, files: Files) returns (out: seq<Report>)
    requires 1 <= from <= |argv|
    ensures out == ArgReports(files, argv[from..])
  {
    out := [];
    var i := from;
    while i < |argv|
      invariant from <= i <= |argv|
      invariant out == ArgReports(files, argv[from..i])
      decreases |argv| - i
    {
      var lines := OneFile(files, argv[i]);
      assert argv[from..i + 1] == argv[from..i] + [argv[i]];
      ArgReportsSnoc(files, argv[from..i], argv[i]);
      out := out + lines;
      i := i + 1;
    }
    assert argv[from..i] == argv[from..];
  }

  /** One file argument: open it, then count it from zero and print. */
  method OneFile(files: Files, path: string) returns (lines: seq<Report>)
    ensures lines == FileReports(files, path)
  {
    var file := files(path);
    if file.None? {
      lines := [CouldNotOpen];
    } else {
      lines := CountAndPrint(file.value);
    }
  }

  /** wc on zeroed counters, then the printf of the three counts. */
  method CountAndPrint(answers: seq<ReadAnswer>) returns (lines: seq<Report>)
    ensures lines == Reports(answers)
  {
    var l, w, b, failed := Count(answers, 0, 0, 0);
    lines := (if failed then [CouldNotRead] else []) + [Totals(Counts(l, w, b))];
  }

  lemma {:induction false} ArgReportsSnoc(files: Files, args: seq<string>, path: string)
    ensures ArgReports(files, args + [path]) == ArgReports(files, args) + FileReports(files, path)
    decreases |args|
  {
    if args == [] {
      assert [] + [path] == [path];
      assert [path][1..] == [];
    } else {
      assert (args + [path])[1..] == args[1..] + [path];
      ArgReportsSnoc(files, args[1..], path);
    }
  }

  /** main as written: with no argument it counts standard input; with
      arguments it counts argv[2], argv[3], ... and never argv[1]. */
  method WcMain(argv: seq<string>, stdin: seq<ReadAnswer>, files: Files) returns (out: seq<Report>)
    requires |argv| >= 1
    ensures |argv| == 1 ==> out == Reports(stdin)
    ensures |argv| > 1 ==> out == ArgReports(files, argv[2..])
  {
    if |argv| == 1 {
      out := CountAndPrint(stdin);
    } else {
      out := EachFile(argv, 2, files);
    }
  }

  /** main with the loop starting at argv[1], the first file argument the
      shell passes (execvp gets the command's path as argv[0]). */
  method WcMainFromFirst(argv: seq<string>, stdin: seq<ReadAnswer>, files: Files) returns (out: seq<Report>)
    requires |argv| >= 1
    ensures |argv| == 1 ==> out == Reports(stdin)
    ensures |argv| > 1 ==> out == ArgReports(files, argv[1..])
  {
    if |argv| == 1 {
      out := CountAndPrint(stdin);
    } else {
      out := EachFile(argv, 1, files);
    }
  }

  /** Every file argument brings at least one line of output. */
  lemma {:induction false} ArgReportsCover(files: Files, args: seq<string>)
    ensures |ArgReports(files, args)| >= |args|
    decreases |args|
  {
    if args != [] {
      ArgReportsCover(files, args[1..]);
    }
  }

  /** As written, `wc f` (argv = [wc, f]) prints nothing at all: argv[1] is
      skipped and there is no argv[2]. */
  lemma OneFileIgnored(files: Files, wc: string, f: string)
    ensures ArgReports(files, [wc, f][2..]) == []
  {
    assert [wc, f][2..] == [];
  }

  /** Starting from argv[1], `wc f` prints what f's counts are. */
  lemma OneFileCounted(files: Files, wc: string, f: string)
    ensures ArgReports(files, [wc, f][1..]) == FileReports(files, f)
  {
    assert [wc, f][1..] == [f];
    assert [f][1..] == [];
  }
}
