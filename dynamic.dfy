/** The growable byte buffer the lexer accumulates lexemes in
    (system_hw3/dynamic.c). `cap` is the size of the block `data` points to;
    `used` bytes of it are in use. Freshly allocated memory is modelled as NUL
    bytes (in C its contents are unspecified). */
module Dynamic {

  /** The allocation step, dynamic.c's SIZE. */
  const SIZE: nat := 1024

  /** sizeof(dynamic->used): the number of bytes the regrowth copies as written. */
  const SIZEOF_SIZE_T: nat := 8

  /** The abstract value of a `struct dynamic`: the whole block and the count in use. */
  datatype Buffer = Buffer(data: seq<char>, used: nat)

  /** The capacity invariant: `used < cap`, with `cap == |data|`. */
  predicate Fits(b: Buffer) {
    b.used < |b.data|
  }

  /** What the buffer holds: its first `used` bytes. */
  function Contents(b: Buffer): seq<char>
    requires Fits(b)
  {
    b.data[..b.used]
  }

  /** dynamic_create. */
  function Created(): (b: Buffer)
    ensures Fits(b) && |b.data| == SIZE && b.used == 0 && Contents(b) == []
  {
    Buffer(seq(SIZE, _ => '\0'), 0)
  }

  /** n NUL bytes: the fresh part of a regrown block. */
  function Zeros(n: nat): (r: seq<char>)
    ensures |r| == n && forall k :: 0 <= k < n ==> r[k] == '\0'
    decreases n
  {
    if n == 0 then [] else Zeros(n - 1) + ['\0']
  }

  /** The regrowth test of dynamic_add. */
  predicate Grows(b: Buffer, size: nat) {
    b.used + size >= |b.data|
  }

  /** memcpy(&data[used], bytes, |bytes|) on a block of the given contents. */
  function Store(block: seq<char>, at: nat, bytes: seq<char>): (r: seq<char>)
    requires at + |bytes| <= |block|
    ensures |r| == |block| && r[at..at + |bytes|] == bytes
    ensures r[..at] == block[..at] && r[at + |bytes|..] == block[at + |bytes|..]
  {
    block[..at] + bytes + block[at + |bytes|..]
  }

  /** dynamic_add as written: on regrowth only sizeof(size_t) bytes of the old
      block are copied into the new one. */
  function AddAsWritten(b: Buffer, bytes: seq<char>): (r: Buffer)
    requires Fits(b) && |b.data| >= SIZEOF_SIZE_T && |bytes| <= SIZE
    ensures Fits(r) && |r.data| >= SIZEOF_SIZE_T && r.used == b.used + |bytes|
  {
    var block :=
      if Grows(b, |bytes|) then b.data[..SIZEOF_SIZE_T] + Zeros(|b.data| + SIZE - SIZEOF_SIZE_T)
      else b.data;
    Buffer(Store(block, b.used, bytes), b.used + |bytes|)
  }

  /** The regrowth of dynamic_add with the `used` bytes in use copied into a
      block SIZE bytes larger. */
  function Regrown(b: Buffer): (r: Buffer)
    requires Fits(b)
    ensures Fits(r) && r.used == b.used && |r.data| == |b.data| + SIZE
    ensures r.data[..b.used] == b.data[..b.used]
  {
    Buffer(b.data[..b.used] + Zeros(|b.data| + SIZE - b.used), b.used)
  }

  /** dynamic_add with the regrowth copying the `used` bytes in use: grow when
      the bytes would not leave room, then store them after the bytes in use. The
      rest of the shell model accumulates lexemes through this one. */
  function Appended(b: Buffer, bytes: seq<char>): (r: Buffer)
    requires Fits(b) && |bytes| <= SIZE
    ensures Fits(r) && r.used == b.used + |bytes| && |r.data| >= |b.data|
    decreases if Grows(b, |bytes|) then 1 else 0
  {
    if Grows(b, |bytes|) then Appended(Regrown(b), bytes)
    else Buffer(Store(b.data, b.used, bytes), b.used + |bytes|)
  }

  /** Both versions keep `used < cap`, grow by exactly SIZE exactly when
      `used + size >= cap`, and put the new bytes at [old used, old used + size). */
  lemma {:induction false} AddKeepsCapacityInvariant(b: Buffer, bytes: seq<char>)
    requires Fits(b) && |b.data| >= SIZEOF_SIZE_T && |bytes| <= SIZE
    ensures var r := AddAsWritten(b, bytes);
      && Fits(r) && r.used == b.used + |bytes|
      && |r.data| == (if Grows(b, |bytes|) then |b.data| + SIZE else |b.data|)
      && r.data[b.used..r.used] == bytes
    ensures var r := Appended(b, bytes);
      && Fits(r) && r.used == b.used + |bytes|
      && |r.data| == (if Grows(b, |bytes|) then |b.data| + SIZE else |b.data|)
      && r.data[b.used..r.used] == bytes
  {
  }

  /** The corrected append preserves what the buffer held and adds the bytes after it. */
  lemma {:induction false} AppendContents(b: Buffer, bytes: seq<char>)
    requires Fits(b) && |bytes| <= SIZE
    ensures Contents(Appended(b, bytes)) == Contents(b) + bytes
    ensures !Grows(b, |bytes|) ==> Appended(b, bytes).data[b.used + |bytes|..] == b.data[b.used + |bytes|..]
  {
    var g := if Grows(b, |bytes|) then Regrown(b) else b;
    assert !Grows(g, |bytes|) && g.used == b.used;
    assert g.data[..b.used] == b.data[..b.used];
    var r := Appended(b, bytes);
    if Grows(b, |bytes|) {
      assert r == Appended(g, bytes);
    }
    assert r == Buffer(Store(g.data, b.used, bytes), b.used + |bytes|);
    assert r.data[..b.used] == g.data[..b.used];
    assert r.data[b.used..r.used] == bytes;
    assert r.data[..r.used] == r.data[..b.used] + r.data[b.used..r.used];
  }

  /** Appending in two steps is appending the concatenation. */
  lemma {:induction false} AppendTwice(b: Buffer, xs: seq<char>, ys: seq<char>)
    requires Fits(b) && |xs| <= SIZE && |ys| <= SIZE
    ensures Contents(Appended(Appended(b, xs), ys)) == Contents(b) + xs + ys
  {
    AppendContents(b, xs);
    AppendContents(Appended(b, xs), ys);
  }

  /** One corrected dynamic_add per byte of `xs`, in order. */
  function AppendEach(b: Buffer, xs: seq<char>): (r: Buffer)
    requires Fits(b)
    ensures Fits(r) && r.used == b.used + |xs|
    decreases |xs|
  {
    if xs == [] then b else Appended(AppendEach(b, xs[..|xs| - 1]), [xs[|xs| - 1]])
  }

  /** Byte-by-byte appends keep the contents and add the bytes after them. */
  lemma {:induction false} AppendEachContents(b: Buffer, xs: seq<char>)
    requires Fits(b)
    ensures Contents(AppendEach(b, xs)) == Contents(b) + xs
    decreases |xs|
  {
    if xs != [] {
      var front := xs[..|xs| - 1];
      AppendEachContents(b, front);
      AppendContents(AppendEach(b, front), [xs[|xs| - 1]]);
      assert front + [xs[|xs| - 1]] == xs;
    }
  }

  /** Byte k of the block after byte-by-byte appends, for k among the new bytes. */
  lemma {:induction false} AppendEachAt(b: Buffer, xs: seq<char>, k: nat)
    requires Fits(b) && b.used <= k < b.used + |xs|
    ensures AppendEach(b, xs).data[k] == xs[k - b.used]
  {
    AppendEachContents(b, xs);
    assert AppendEach(b, xs).data[k] == Contents(AppendEach(b, xs))[k];
  }

  /** The next byte-by-byte append is one more dynamic_add. */
  lemma {:induction false} AppendEachSnoc(b: Buffer, xs: seq<char>, c: char)
    requires Fits(b)
    ensures AppendEach(b, xs + [c]) == Appended(AppendEach(b, xs), [c])
  {
    assert (xs + [c])[..|xs|] == xs;
  }

  /** The defect: a regrowth loses every byte in use after the eighth. With 1023
      bytes of 'a' in use, adding one byte leaves a NUL at position 8. */
  lemma AddAsWrittenLosesBytes()
    ensures var b := Buffer(seq(SIZE, _ => 'a'), 1023);
      && Fits(b) && Contents(b)[8] == 'a'
      && Contents(AddAsWritten(b, "x"))[8] == '\0'
  {
    var b := Buffer(seq(SIZE, _ => 'a'), 1023);
    var block := b.data[..SIZEOF_SIZE_T] + Zeros(|b.data| + SIZE - SIZEOF_SIZE_T);
    assert Grows(b, 1);
    assert block[8] == '\0';
    assert AddAsWritten(b, "x").data == Store(block, 1023, "x");
    assert Store(block, 1023, "x")[8] == block[8];
  }

  /** A `struct dynamic`. */
  class Dynamic {
    var cap: nat
    var used: nat
    var data: array<char>

    ghost predicate Valid()
      reads this
    {
      data.Length == cap && SIZE <= cap && used < cap
    }

    ghost function Value(): (b: Buffer)
      reads this, data
      requires Valid()
      ensures Fits(b) && |b.data| == cap >= SIZE && b.used == used
    {
      Buffer(data[..], used)
    }

    /** dynamic_create. */
    constructor Create()
      ensures Valid() && fresh(data) && Value() == Created()
    {
      cap := SIZE;
      used := 0;
      data := new char[SIZE](_ => '\0');
    }

    /** A copy of the struct: the same block, the same counts (a `struct dynamic`
        passed by value). */
    constructor CopyOf(other: Dynamic)
      requires other.Valid()
      ensures Valid() && cap == other.cap && used == other.used && data == other.data
    {
      cap := other.cap;
      used := other.used;
      data := other.data;
    }

    /** dynamic_add as written. */
    method Add(bytes: seq<char>)
      requires Valid() && |bytes| <= SIZE
      modifies this, data
      ensures Valid() && Value() == AddAsWritten(old(Value()), bytes)
      ensures data == old(data) || fresh(data)
    {
      ghost var b := Value();
      ghost var block :=
        if Grows(b, |bytes|) then b.data[..SIZEOF_SIZE_T] + Zeros(|b.data| + SIZE - SIZEOF_SIZE_T)
        else b.data;
      assert AddAsWritten(b, bytes) == Buffer(Store(block, b.used, bytes), b.used + |bytes|);
      if used + |bytes| >= cap {
        cap := cap + SIZE;
        var old_ := data;
        data := new char[cap](_ => '\0');
        Copy(old_, data, SIZEOF_SIZE_T);
        assert data[..] == block;
      }
      Write(data, used, bytes);
      used := used + |bytes|;
    }

    /** dynamic_add with the whole `used` prefix copied on regrowth. */
    method Append(bytes: seq<char>)
      requires Valid() && |bytes| <= SIZE
      modifies this, data
      ensures Valid() && Value() == Appended(old(Value()), bytes)
      ensures data == old(data) || fresh(data)
    {
      ghost var b := Value();
      ghost var g := if Grows(b, |bytes|) then Regrown(b) else b;
      assert Appended(b, bytes) == Buffer(Store(g.data, b.used, bytes), b.used + |bytes|);
      if used + |bytes| >= cap {
        cap := cap + SIZE;
        var old_ := data;
        data := new char[cap](_ => '\0');
        Copy(old_, data, used);
        assert data[..] == g.data;
      }
      Write(data, used, bytes);
      used := used + |bytes|;
    }

    /** dynamic_get: the block and the number of bytes in use; nothing changes. */
    method Get() returns (d: array<char>, size: nat)
      requires Valid()
      ensures d == data && size == used && size < d.Length
    {
      d, size := data, used;
    }

    /** dynamic_clear: only `used` is reset. */
    method Clear()
      requires Valid()
      modifies this
      ensures Valid() && used == 0 && cap == old(cap) && data == old(data)
    {
      used := 0;
    }

    /** dynamic_destroy: the block is released and both counts are zero. */
    method Destroy()
      modifies this
      ensures used == 0 && cap == 0
    {
      used := 0;
      cap := 0;
    }
  }

  /** memcpy(dst, src, n) between two distinct blocks. */
  method Copy(src: array<char>, dst: array<char>, n: nat)
    requires src != dst && n <= src.Length && n <= dst.Length
    modifies dst
    ensures dst[..] == src[..n] + old(dst[..])[n..]
  {
    for i := 0 to n
      invariant forall k :: 0 <= k < i ==> dst[k] == src[k]
      invariant forall k :: i <= k < dst.Length ==> dst[k] == old(dst[k])
    {
      dst[i] := src[i];
    }
    assert forall k :: 0 <= k < dst.Length ==> dst[..][k] == (src[..n] + old(dst[..])[n..])[k];
  }

  /** memcpy(&dst[at], bytes, |bytes|). */
  method Write(dst: array<char>, at: nat, bytes: seq<char>)
    requires at + |bytes| <= dst.Length
    modifies dst
    ensures dst[..] == Store(old(dst[..]), at, bytes)
  {
    for i := 0 to |bytes|
      invariant forall k :: 0 <= k < i ==> dst[at + k] == bytes[k]
      invariant forall k :: 0 <= k < at ==> dst[k] == old(dst[k])
      invariant forall k :: at + i <= k < dst.Length ==> dst[k] == old(dst[k])
    {
      dst[at + i] := bytes[i];
    }
    assert forall k :: 0 <= k < dst.Length ==> dst[..][k] == Store(old(dst[..]), at, bytes)[k];
  }
}
