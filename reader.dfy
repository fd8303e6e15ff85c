/** The shell's byte source (system_hw3/reader.c): a 1024-byte buffer over a
    file descriptor, refilled by one read() call whenever `size - offset`
    reaches zero.

    The descriptor is modelled by the sequence of results its successive
    read() calls return; once that sequence is used up, read() returns 0
    (end of file). Reading `buff[offset]` with `offset >= 1024` is undefined
    behaviour in C; the model returns NUL there and raises `overran`, so that
    callers can stop where the C program would run off its buffer. */
module Reader {

  const READER_BUFF_SIZE: nat := 1024

  /** size_t and off_t are 64 bits wide: unsigned arithmetic wraps modulo this. */
  const WORD_RANGE: int := 0x1_0000_0000_0000_0000

  /** (size_t)-1, which `size` holds after read() returned -1. */
  const SIZE_MAX: nat := WORD_RANGE - 1

  /** The result of one read() call: bytes (the empty sequence is end of file) or -1. */
  datatype ReadResult = Data(bytes: seq<char>) | Failure

  /** read() is asked for at most sizeof(buff) bytes. */
  predicate ChunksFit(input: seq<ReadResult>) {
    forall k :: 0 <= k < |input| ==> input[k].Data? ==> |input[k].bytes| <= READER_BUFF_SIZE
  }

  /** The abstract value of a `struct reader`, plus the read() results still to come. */
  datatype State = State(buff: seq<char>, offset: nat, size: nat, input: seq<ReadResult>, overran: bool)

  predicate WellFormed(s: State) {
    |s.buff| == READER_BUFF_SIZE && s.size <= SIZE_MAX && ChunksFit(s.input)
  }

  /** reader_create: size and offset are zero, the buffer holds whatever it held. */
  function Initial(buff: seq<char>, input: seq<ReadResult>): (s: State)
    requires |buff| == READER_BUFF_SIZE && ChunksFit(input)
    ensures WellFormed(s) && s.offset == 0 && s.size == 0 && Exhausted(s)
  {
    State(buff, 0, 0, input, false)
  }

  /** The refill test `reader->size - reader->offset == 0`, in 64-bit unsigned arithmetic. */
  predicate Exhausted(s: State) {
    s.size == s.offset || (s.offset > s.size && (s.offset - s.size) % WORD_RANGE == 0)
  }

  /** The test as C computes it: the 64-bit unsigned difference is zero. */
  lemma ExhaustedIsTest(s: State)
    requires WellFormed(s)
    ensures Exhausted(s) <==> (s.size - s.offset) % WORD_RANGE == 0
  {
    if s.size >= s.offset {
      assert 0 <= s.size - s.offset < WORD_RANGE;
    } else {
      var d := s.offset - s.size;
      assert (s.size - s.offset) % WORD_RANGE == 0 <==> d % WORD_RANGE == 0 by {
        NegatedMod(d);
      }
    }
  }

  /** -d is a multiple of the word range exactly when d is. */
  lemma NegatedMod(d: int)
    ensures (-d) % WORD_RANGE == 0 <==> d % WORD_RANGE == 0
  {
    NegatedMultiple(d);
    NegatedMultiple(-d);
  }

  /** The negation of a multiple of the word range is one. */
  lemma NegatedMultiple(d: int)
    ensures d % WORD_RANGE == 0 ==> (-d) % WORD_RANGE == 0
  {
    if d % WORD_RANGE == 0 {
      var q := d / WORD_RANGE;
      assert -d == (-q) * WORD_RANGE;
    }
  }

  /** One read(fd, buff, 1024): copies a chunk to the front of the buffer and
      stores the returned count (-1 becomes SIZE_MAX). */
  function AfterRead(s: State): (r: State)
    requires WellFormed(s)
    ensures WellFormed(r) && r.offset == s.offset && r.overran == s.overran
  {
    if s.input == [] then s.(size := 0)
    else match s.input[0]
      case Failure => s.(size := SIZE_MAX, input := s.input[1..])
      case Data(b) => s.(buff := b + s.buff[|b|..], size := |b|, input := s.input[1..])
  }

  /** What one read() leaves behind: end of file sets `size` to 0, a failure
      sets it to (size_t)-1 and keeps the buffer, and a chunk is stored at
      the front of the buffer with `size` its length. */
  lemma ReadStores(s: State)
    requires WellFormed(s)
    ensures s.input == [] ==> AfterRead(s) == s.(size := 0)
    ensures s.input != [] ==> AfterRead(s).input == s.input[1..]
    ensures s.input != [] && s.input[0].Failure? ==> AfterRead(s).size == SIZE_MAX && AfterRead(s).buff == s.buff
    ensures s.input != [] && s.input[0].Data? ==>
      && AfterRead(s).size == |s.input[0].bytes|
      && AfterRead(s).buff[..AfterRead(s).size] == s.input[0].bytes
      && AfterRead(s).buff[AfterRead(s).size..] == s.buff[AfterRead(s).size..]
  {
    if s.input != [] && s.input[0].Data? {
      var b := s.input[0].bytes;
      assert (b + s.buff[|b|..])[..|b|] == b;
    }
  }

  /** `c = buff[offset]; offset += 1`. */
  function Fetch(s: State): (r: (char, State))
    requires WellFormed(s)
    ensures WellFormed(r.1) && r.1.offset == s.offset + 1 && r.1.size == s.size && r.1.input == s.input
    ensures r.1.buff == s.buff
    ensures s.offset < READER_BUFF_SIZE ==> r.0 == s.buff[s.offset] && r.1.overran == s.overran
    ensures s.offset >= READER_BUFF_SIZE ==> r.0 == '\0' && r.1.overran
  {
    if s.offset < READER_BUFF_SIZE then (s.buff[s.offset], s.(offset := s.offset + 1))
    else ('\0', s.(offset := s.offset + 1, overran := true))
  }

  /** reader_getc as written: a refill does not reset `offset`. */
  function GetcStep(s: State): (r: (char, State))
    requires WellFormed(s)
    ensures WellFormed(r.1) && r.1.offset == s.offset + 1
    ensures r.1.input == (if Exhausted(s) && s.input != [] then s.input[1..] else s.input)
  {
    Fetch(if Exhausted(s) then AfterRead(s) else s)
  }

  /** reader_getc as evidently intended: a refill restarts at the front of the buffer. */
  function GetcFixedStep(s: State): (r: (char, State))
    requires WellFormed(s)
    ensures WellFormed(r.1)
    ensures r.1.offset == (if Exhausted(s) then 1 else s.offset + 1)
    ensures r.1.input == (if Exhausted(s) && s.input != [] then s.input[1..] else s.input)
  {
    Fetch(if Exhausted(s) then AfterRead(s).(offset := 0) else s)
  }

  /** The overrun flag is sticky and is raised exactly when offset passes the
      buffer's end; the call that raises it returns NUL. */
  lemma {:induction false} GetcOverrun(s: State)
    requires WellFormed(s)
    ensures var (c, t) := GetcStep(s);
      t.overran == (s.overran || t.offset > READER_BUFF_SIZE) && (!s.overran && t.overran ==> c == '\0')
    ensures var (c, t) := GetcFixedStep(s);
      t.overran == (s.overran || t.offset > READER_BUFF_SIZE) && (!s.overran && t.overran ==> c == '\0')
  {
  }

  /** Two measures that together decrease with every getc that does not overrun. */
  function RefillBudget(s: State): nat {
    |s.input| + (if s.offset <= s.size then 1 else 0)
  }

  function ByteBudget(s: State): nat {
    if s.offset <= READER_BUFF_SIZE then READER_BUFF_SIZE - s.offset else 0
  }

  predicate Decreased(s: State, t: State) {
    RefillBudget(t) < RefillBudget(s) || (RefillBudget(t) == RefillBudget(s) && ByteBudget(t) < ByteBudget(s))
  }

  /** Every getc (either version) that does not run off the buffer makes progress,
      so a loop that reads until some byte appears terminates on a finite input. */
  lemma {:induction false} GetcProgress(s: State)
    requires WellFormed(s) && !s.overran && s.offset <= READER_BUFF_SIZE
    ensures var t := GetcStep(s).1; t.overran || (t.offset <= READER_BUFF_SIZE && Decreased(s, t))
    ensures var t := GetcFixedStep(s).1; t.overran || (t.offset <= READER_BUFF_SIZE && Decreased(s, t))
  {
    if Exhausted(s) {
      assert s.size == s.offset;
    } else {
      assert s.size != s.offset;
    }
  }

  /** `n` successive calls of reader_getc as written. */
  function Getcs(s: State, n: nat): (r: (seq<char>, State))
    requires WellFormed(s)
    ensures WellFormed(r.1) && |r.0| == n
    decreases n
  {
    if n == 0 then ([], s)
    else
      var (c, t) := GetcStep(s);
      var (cs, u) := Getcs(t, n - 1);
      ([c] + cs, u)
  }

  /** `n` successive calls of the corrected reader_getc. */
  function GetcsFixed(s: State, n: nat): (r: (seq<char>, State))
    requires WellFormed(s)
    ensures WellFormed(r.1) && |r.0| == n
    decreases n
  {
    if n == 0 then ([], s)
    else
      var (c, t) := GetcFixedStep(s);
      var (cs, u) := GetcsFixed(t, n - 1);
      ([c] + cs, u)
  }

  /** A refill happens only when `size - offset` is zero, however `offset` got there. */
  lemma {:induction false} RefillOnlyWhenEmpty(s: State)
    requires WellFormed(s) && s.input != []
    ensures GetcStep(s).1.input == s.input[1..] <==> Exhausted(s)
    ensures GetcFixedStep(s).1.input == s.input[1..] <==> Exhausted(s)
  {
    assert |s.input[1..]| < |s.input|;
  }

  /** A failed read only sets `size` to (size_t)-1: a byte of the old buffer is still returned. */
  lemma {:induction false} FailedReadStillReturnsAByte(s: State)
    requires WellFormed(s) && Exhausted(s) && s.input != [] && s.input[0].Failure?
    requires s.offset < READER_BUFF_SIZE
    ensures GetcStep(s) == (s.buff[s.offset], s.(offset := s.offset + 1, size := SIZE_MAX, input := s.input[1..]))
  {
  }

  /** The defect: after a refill, reader_getc continues at the current offset
      of the new chunk instead of at its first byte. */
  lemma {:induction false} RefillKeepsOffset(s: State, chunk: seq<char>)
    requires WellFormed(s) && Exhausted(s) && s.input != [] && s.input[0] == Data(chunk)
    requires s.offset < |chunk|
    ensures GetcStep(s).0 == chunk[s.offset]
    ensures GetcStep(s).1.offset == s.offset + 1
  {
  }

  /** A prefix is the first byte followed by a prefix of the tail. */
  lemma {:induction false} HeadAndTail(p: seq<char>, j: nat)
    requires 0 < j <= |p|
    ensures [p[0]] + p[1..][..j - 1] == p[..j]
  {
    assert p[1..][..j - 1] == p[1..j];
  }

  /** Within the chunk in the buffer, successive calls return its bytes in order
      (as written; the corrected version behaves the same here). */
  lemma ChunkInOrder(s: State, chunk: seq<char>, m: nat)
    requires WellFormed(s) && !s.overran
    requires s.size == |chunk| <= READER_BUFF_SIZE && s.buff[..s.size] == chunk && s.offset + m <= s.size
    ensures Getcs(s, m).0 == chunk[s.offset..s.offset + m]
    ensures GetcsFixed(s, m).0 == chunk[s.offset..s.offset + m]
    ensures Getcs(s, m).1 == s.(offset := s.offset + m)
    ensures GetcsFixed(s, m).1 == s.(offset := s.offset + m)
  {
    BufferedInOrderBytes(s, m);
    BufferedInOrderFixedBytes(s, m);
    BufferedInOrderState(s, m);
    BufferedInOrderFixedState(s, m);
    SliceOfPrefix(s.buff, s.size, s.offset, s.offset + m);
  }

  lemma SliceOfPrefix(p: seq<char>, n: nat, i: nat, j: nat)
    requires i <= j <= n <= |p|
    ensures p[..n][i..j] == p[i..j]
  {
    assert forall k :: 0 <= k < j - i ==> p[..n][i..j][k] == p[i..j][k];
  }

  /** A byte inside the buffered chunk is returned without a refill, by
      either version. */
  lemma BufferedByte(s: State)
    requires WellFormed(s) && !s.overran && s.offset < s.size <= READER_BUFF_SIZE
    ensures GetcStep(s) == (s.buff[s.offset], s.(offset := s.offset + 1))
    ensures GetcFixedStep(s) == (s.buff[s.offset], s.(offset := s.offset + 1))
  {
    assert !Exhausted(s) by { assert 0 < s.size - s.offset < WORD_RANGE; }
  }

  /** A slice is its first byte followed by the rest of it. */
  lemma SliceCons(p: seq<char>, i: nat, j: nat)
    requires i < j <= |p|
    ensures [p[i]] + p[i + 1..j] == p[i..j]
  {
  }

  lemma {:induction false} BufferedInOrderBytes(s: State, m: nat)
    requires WellFormed(s) && !s.overran && s.size <= READER_BUFF_SIZE && s.offset + m <= s.size
    ensures Getcs(s, m).0 == s.buff[s.offset..s.offset + m]
    decreases m
  {
    if m > 0 {
      BufferedByte(s);
      var t := s.(offset := s.offset + 1);
      BufferedInOrderBytes(t, m - 1);
      assert Getcs(s, m).0 == [s.buff[s.offset]] + Getcs(t, m - 1).0;
      SliceCons(s.buff, s.offset, s.offset + m);
    }
  }

  lemma {:induction false} BufferedInOrderState(s: State, m: nat)
    requires WellFormed(s) && !s.overran && s.size <= READER_BUFF_SIZE && s.offset + m <= s.size
    ensures Getcs(s, m).1 == s.(offset := s.offset + m)
    decreases m
  {
    if m > 0 {
      BufferedByte(s);
      var t := s.(offset := s.offset + 1);
      BufferedInOrderState(t, m - 1);
      assert Getcs(s, m).1 == Getcs(t, m - 1).1;
    }
  }

  lemma {:induction false} BufferedInOrderFixedBytes(s: State, m: nat)
    requires WellFormed(s) && !s.overran && s.size <= READER_BUFF_SIZE && s.offset + m <= s.size
    ensures GetcsFixed(s, m).0 == s.buff[s.offset..s.offset + m]
    decreases m
  {
    if m > 0 {
      BufferedByte(s);
      var t := s.(offset := s.offset + 1);
      BufferedInOrderFixedBytes(t, m - 1);
      assert GetcsFixed(s, m).0 == [s.buff[s.offset]] + GetcsFixed(t, m - 1).0;
      SliceCons(s.buff, s.offset, s.offset + m);
    }
  }

  lemma {:induction false} BufferedInOrderFixedState(s: State, m: nat)
    requires WellFormed(s) && !s.overran && s.size <= READER_BUFF_SIZE && s.offset + m <= s.size
    ensures GetcsFixed(s, m).1 == s.(offset := s.offset + m)
    decreases m
  {
    if m > 0 {
      BufferedByte(s);
      var t := s.(offset := s.offset + 1);
      BufferedInOrderFixedState(t, m - 1);
      assert GetcsFixed(s, m).1 == GetcsFixed(t, m - 1).1;
    }
  }

  /** From reader_create, the first `n` bytes are the first chunk's, in order. */
  lemma {:induction false} FirstChunkInOrder(buff: seq<char>, chunk: seq<char>, rest: seq<ReadResult>, n: nat)
    requires |buff| == READER_BUFF_SIZE && ChunksFit([Data(chunk)] + rest)
    requires 0 < n <= |chunk|
    ensures Getcs(Initial(buff, [Data(chunk)] + rest), n).0 == chunk[..n]
    ensures GetcsFixed(Initial(buff, [Data(chunk)] + rest), n).0 == chunk[..n]
  {
    assert ([Data(chunk)] + rest)[0] == Data(chunk);
    var s := Initial(buff, [Data(chunk)] + rest);
    var s1 := State(chunk + buff[|chunk|..], 1, |chunk|, rest, false);
    FirstGetc(buff, chunk, rest);
    ChunkInOrder(s1, chunk, n - 1);
    HeadAndTail(chunk, n);
  }

  /** The first reader_getc after reader_create reads the first chunk and
      returns its first byte, as written and as corrected alike. */
  lemma {:induction false} FirstGetc(buff: seq<char>, chunk: seq<char>, rest: seq<ReadResult>)
    requires |buff| == READER_BUFF_SIZE && ChunksFit([Data(chunk)] + rest) && 0 < |chunk| <= |buff|
    ensures var s := Initial(buff, [Data(chunk)] + rest);
      var s1 := State(chunk + buff[|chunk|..], 1, |chunk|, rest, false);
      GetcStep(s) == (chunk[0], s1) && GetcFixedStep(s) == (chunk[0], s1)
  {
    assert ([Data(chunk)] + rest)[0] == Data(chunk);
    var s := Initial(buff, [Data(chunk)] + rest);
    assert Exhausted(s) && AfterRead(s).offset == 0;
  }

  /** The bytes the corrected reader will return next: the unread part of the
      buffer, then every chunk still to come. */
  function Concat(input: seq<ReadResult>): seq<char> {
    if input == [] then []
    else (if input[0].Data? then input[0].bytes else []) + Concat(input[1..])
  }

  predicate NonEmptyChunks(input: seq<ReadResult>) {
    forall k :: 0 <= k < |input| ==> input[k].Data? && input[k].bytes != []
  }

  predicate Tracking(s: State) {
    WellFormed(s) && !s.overran && s.offset <= s.size <= READER_BUFF_SIZE && NonEmptyChunks(s.input)
  }

  function Pending(s: State): seq<char>
    requires Tracking(s)
  {
    s.buff[s.offset..s.size] + Concat(s.input)
  }

  /** One corrected reader_getc that keeps track of the bytes still to come. */
  lemma {:induction false} FixedStepTracks(s: State)
    requires Tracking(s) && Pending(s) != []
    ensures Tracking(GetcFixedStep(s).1)
    ensures GetcFixedStep(s).0 == Pending(s)[0]
    ensures Pending(GetcFixedStep(s).1) == Pending(s)[1..]
  {
    if s.offset < s.size {
      FixedStepBuffered(s);
    } else {
      FixedStepRefill(s);
    }
  }

  /** The byte comes from the buffer. */
  lemma {:induction false} FixedStepBuffered(s: State)
    requires Tracking(s) && s.offset < s.size
    ensures Tracking(GetcFixedStep(s).1)
    ensures GetcFixedStep(s).0 == Pending(s)[0]
    ensures Pending(GetcFixedStep(s).1) == Pending(s)[1..]
  {
    assert !Exhausted(s) by { assert 0 < s.size - s.offset < WORD_RANGE; }
    assert s.buff[s.offset..s.size] == [s.buff[s.offset]] + s.buff[s.offset + 1..s.size];
  }

  /** The buffer is used up: the byte is the first of the next chunk. */
  lemma {:induction false} FixedStepRefill(s: State)
    requires Tracking(s) && s.offset == s.size && s.input != []
    ensures Tracking(GetcFixedStep(s).1)
    ensures GetcFixedStep(s).0 == Pending(s)[0]
    ensures Pending(GetcFixedStep(s).1) == Pending(s)[1..]
  {
    assert Exhausted(s);
    var b, rest := s.input[0].bytes, s.input[1..];
    assert NonEmptyChunks(rest) by {
      forall k | 0 <= k < |rest| ensures rest[k].Data? && rest[k].bytes != [] {
        assert rest[k] == s.input[k + 1];
      }
    }
    var t := State(b + s.buff[|b|..], 1, |b|, rest, false);
    assert GetcFixedStep(s) == (b[0], t);
    assert Pending(s) == b + Concat(rest) by {
      assert s.buff[s.offset..s.size] == [];
    }
    assert Pending(t) == b[1..] + Concat(rest) by {
      assert t.buff[1..|b|] == b[1..];
    }
    assert (b + Concat(rest))[1..] == b[1..] + Concat(rest);
  }

  /** The corrected reader returns exactly the concatenation of the chunks, in order. */
  lemma {:induction false} FixedYieldsConcatenation(s: State, n: nat)
    requires Tracking(s) && n <= |Pending(s)|
    ensures GetcsFixed(s, n).0 == Pending(s)[..n]
    ensures Tracking(GetcsFixed(s, n).1) && Pending(GetcsFixed(s, n).1) == Pending(s)[n..]
    decreases n
  {
    if n > 0 {
      FixedStepTracks(s);
      var (c, t) := GetcFixedStep(s);
      FixedYieldsConcatenation(t, n - 1);
      var p := Pending(s);
      assert GetcsFixed(s, n) == ([c] + GetcsFixed(t, n - 1).0, GetcsFixed(t, n - 1).1);
      HeadAndTail(p, n);
      assert p[1..][n - 1..] == p[n..];
    }
  }

  lemma {:induction false} FromCreateFixed(buff: seq<char>, input: seq<ReadResult>, n: nat)
    requires |buff| == READER_BUFF_SIZE && ChunksFit(input) && NonEmptyChunks(input)
    requires n <= |Concat(input)|
    ensures GetcsFixed(Initial(buff, input), n).0 == Concat(input)[..n]
  {
    var s := Initial(buff, input);
    assert Pending(s) == Concat(input);
    FixedYieldsConcatenation(s, n);
  }

  /** The two-line input "ls\n", "pwd\n": as written, the second chunk is read
      from offset 3, so the reader yields a lone '\n' where "pwd\n" was sent;
      the corrected reader yields both lines. */
  lemma {:induction false} AsWrittenSkipsBytes(buff: seq<char>)
    requires |buff| == READER_BUFF_SIZE
    ensures Getcs(Initial(buff, [Data("ls\n"), Data("pwd\n")]), 4).0 == "ls\n\n"
    ensures GetcsFixed(Initial(buff, [Data("ls\n"), Data("pwd\n")]), 4).0 == "ls\np"
  {
    var input := [Data("ls\n"), Data("pwd\n")];
    var s0 := Initial(buff, input);
    var b1 := "ls\n" + buff[3..];
    var s1 := State(b1, 1, 3, input[1..], false);
    var s2 := s1.(offset := 2);
    var s3 := s1.(offset := 3);
    var b4 := "pwd\n" + b1[4..];
    var s4 := State(b4, 4, 4, [], false);
    assert GetcStep(s0) == ('l', s1);
    assert GetcStep(s1) == ('s', s2);
    assert GetcStep(s2) == ('\n', s3);
    assert Exhausted(s3);
    assert AfterRead(s3) == s3.(buff := b4, size := 4, input := []);
    assert GetcStep(s3) == ('\n', s4);
    assert Getcs(s3, 1).0 == "\n";
    assert Getcs(s2, 2).0 == "\n\n";
    assert Getcs(s1, 3).0 == "s\n\n";
    FromCreateFixed(buff, input, 4);
    assert Concat(input) == "ls\npwd\n";
  }

  /** A `struct reader` together with the descriptor it reads from. */
  class Reader {
    var fd: int
    const buff: array<char>
    var offset: nat
    var size: nat
    /** What the descriptor's next read() calls will return. */
    var input: seq<ReadResult>
    var overran: bool
    /** Every byte returned so far, oldest first. */
    ghost var Yielded: seq<char>

    ghost predicate Valid()
      reads this
    {
      buff.Length == READER_BUFF_SIZE && size <= SIZE_MAX && ChunksFit(input)
      && (overran || offset <= READER_BUFF_SIZE)
    }

    ghost function Value(): (s: State)
      reads this, buff
      requires Valid()
      ensures WellFormed(s)
    {
      State(buff[..], offset, size, input, overran)
    }

    /** reader_create; the buffer's earlier contents are modelled as NUL bytes. */
    constructor Create(fd: int, input: seq<ReadResult>)
      requires ChunksFit(input)
      ensures Valid() && fresh(buff) && this.fd == fd && Yielded == []
      ensures Value() == Initial(seq(READER_BUFF_SIZE, _ => '\0'), input)
    {
      this.fd := fd;
      buff := new char[READER_BUFF_SIZE](_ => '\0');
      offset, size := 0, 0;
      this.input := input;
      overran := false;
      Yielded := [];
    }

    /** One read(fd, buff, sizeof(buff)) storing its result in `size`. */
    method ReadChunk()
      requires Valid()
      modifies this, buff
      ensures Valid() && fd == old(fd) && Yielded == old(Yielded)
      ensures Value() == AfterRead(old(Value()))
    {
      if input == [] {
        size := 0;
      } else if input[0].Failure? {
        size := SIZE_MAX;
        input := input[1..];
      } else {
        var b := input[0].bytes;
        assert |b| <= READER_BUFF_SIZE;
        CopyIn(b);
        size := |b|;
        input := input[1..];
      }
    }

    /** The copy read() makes into the front of the buffer. */
    method CopyIn(b: seq<char>)
      requires |b| <= buff.Length
      modifies buff
      ensures buff[..] == b + old(buff[..])[|b|..]
    {
      for i := 0 to |b|
        invariant forall k :: 0 <= k < i ==> buff[k] == b[k]
        invariant forall k :: i <= k < buff.Length ==> buff[k] == old(buff[k])
      {
        buff[i] := b[i];
      }
      assert forall k :: 0 <= k < buff.Length ==> buff[..][k] == (b + old(buff[..])[|b|..])[k];
    }

    /** reader_getc as written. */
    method Getc() returns (c: char)
      requires Valid()
      modifies this, buff
      ensures Valid() && fd == old(fd)
      ensures (c, Value()) == GetcStep(old(Value()))
      ensures Yielded == old(Yielded) + [c]
    {
      ExhaustedIsTest(Value());
      if (size - offset) % WORD_RANGE == 0 {
        ReadChunk();
      }
      c := Take();
    }

    /** reader_getc with the refill restarting at offset 0; the rest of the
        shell model reads through this one. */
    method GetcFixed() returns (c: char)
      requires Valid()
      modifies this, buff
      ensures Valid() && fd == old(fd)
      ensures (c, Value()) == GetcFixedStep(old(Value()))
      ensures Yielded == old(Yielded) + [c]
      ensures overran == (old(overran) || offset > READER_BUFF_SIZE) && (!old(overran) && overran ==> c == '\0')
      ensures !overran ==> Decreased(old(Value()), Value())
    {
      ghost var s := Value();
      ExhaustedIsTest(s);
      GetcOverrun(s);
      if !overran {
        GetcProgress(s);
      }
      if (size - offset) % WORD_RANGE == 0 {
        ReadChunk();
        offset := 0;
      }
      c := Take();
    }

    /** The byte fetch that ends reader_getc: `c = buff[offset]; offset += 1`. */
    method Take() returns (c: char)
      requires Valid()
      modifies this
      ensures Valid() && fd == old(fd)
      ensures (c, Value()) == Fetch(old(Value()))
      ensures Yielded == old(Yielded) + [c]
    {
      if offset < READER_BUFF_SIZE {
        c := buff[offset];
      } else {
        c := '\0';
        overran := true;
      }
      offset := offset + 1;
      Yielded := Yielded + [c];
    }

    /** reader_destroy. */
    method Destroy()
      modifies this
      ensures size == 0
      ensures fd == old(fd) && offset == old(offset) && input == old(input) && overran == old(overran)
      ensures Yielded == old(Yielded)
    {
      size := 0;
    }
  }
}
