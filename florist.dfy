/** The florist application (system_hw5/121044046_main.c) without its
    threads: the dat file's florist lines and client lines are split into
    fields, every client is routed to the closest florist selling the
    flower, and each florist serves its queue in arrival order. Lines are
    what getline answers, one string each; the florists' speeds, the
    delivery times and the distances' square roots are not modelled. */
module Florist {
  import opened Wrappers

  // ---------------------------------------------------------------------------
  // Tokens

  /** The delimiters " \n(),;:" of FLORIST_DELIM and CLIENT_DELIM. */
  predicate IsDelim(ch: char) {
    ch == ' ' || ch == '\n' || ch == '(' || ch == ')' || ch == ',' || ch == ';' || ch == ':'
  }

  /** How many delimiters s starts with. */
  function SkipLength(s: string): (n: nat)
    ensures n <= |s| && (n == |s| || !IsDelim(s[n]))
  {
    if s == [] || !IsDelim(s[0]) then 0 else 1 + SkipLength(s[1..])
  }

  /** How many non-delimiters s starts with. */
  function RunLength(s: string): (n: nat)
    ensures n <= |s| && (n == |s| || IsDelim(s[n]))
  {
    if s == [] || IsDelim(s[0]) then 0 else 1 + RunLength(s[1..])
  }

  /** strtok_r: the next token of s and the rest of s after the delimiter
      it overwrites, or None when only delimiters are left. */
  function Strtok(s: string): (r: Option<(string, string)>)
    ensures r.Some? ==> |r.value.0| > 0 && |r.value.1| < |s|
  {
    var k := SkipLength(s);
    if k == |s| then None
    else
      var n := RunLength(s[k..]);
      Some((s[k..k + n], if k + n < |s| then s[k + n + 1..] else []))
  }

  /** The tokens strtok_r hands out one call after another. */
  function Tokens(s: string): seq<string>
    decreases |s|
  {
    match Strtok(s)
    case None => []
    case Some((t, rest)) => [t] + Tokens(rest)
  }

  lemma TokensStep(s: string)
    ensures Strtok(s).None? ==> Tokens(s) == []
    ensures Strtok(s).Some? ==> Tokens(s) == [Strtok(s).value.0] + Tokens(Strtok(s).value.1)
  {
  }

  /** A token as strtok_r returns it: not empty, no delimiter inside. */
  predicate IsToken(t: string) {
    |t| > 0 && forall k :: 0 <= k < |t| ==> !IsDelim(t[k])
  }

  /** A line holding the tokens ts separated by blanks. */
  function Line(ts: seq<string>): string {
    if ts == [] then "\n" else ts[0] + " " + Line(ts[1..])
  }

  /** Splitting a line of blank-separated tokens gives the tokens back. */
  lemma {:induction false} TokensOfLine(ts: seq<string>)
    requires forall k :: 0 <= k < |ts| ==> IsToken(ts[k])
    ensures Tokens(Line(ts)) == ts
    decreases |ts|
  {
    if ts == [] {
      assert SkipLength("\n") == 1;
    } else {
      StrtokToken(ts[0], Line(ts[1..]));
      TokensOfLine(ts[1..]);
    }
  }

  /** strtok_r on a token, a blank and the rest hands out the token and
      leaves the rest. */
  lemma StrtokToken(t: string, rest: string)
    requires IsToken(t)
    ensures Strtok(t + " " + rest) == Some((t, rest))
  {
    var s := t + " " + rest;
    assert s[..|t|] == t && s[|t|] == ' ';
    assert SkipLength(s) == 0;
    assert s == t + (" " + rest);
    RunOfToken(t, " " + rest);
    assert s[0..][..|t|] == t && s[0..] == s;
    assert s[|t| + 1..] == rest;
  }

  /** A token followed by a delimiter is one whole run. */
  lemma {:induction false} RunOfToken(t: string, rest: string)
    requires forall k :: 0 <= k < |t| ==> !IsDelim(t[k])
    requires |rest| > 0 && IsDelim(rest[0])
    ensures RunLength(t + rest) == |t|
    decreases |t|
  {
    if t == [] {
      assert t + rest == rest;
    } else {
      assert (t + rest)[0] == t[0];
      assert (t + rest)[1..] == t[1..] + rest;
      assert forall k :: 0 <= k < |t[1..]| ==> t[1..][k] == t[k + 1];
      RunOfToken(t[1..], rest);
    }
  }

  // ---------------------------------------------------------------------------
  // sscanf "%d"

  /** isspace in the C locale. */
  predicate IsSpace(ch: char) {
    ch == ' ' || '\t' <= ch <= '\r'
  }

  predicate IsDigit(ch: char) {
    '0' <= ch <= '9'
  }

  function DropSpaces(s: string): string {
    if s != [] && IsSpace(s[0]) then DropSpaces(s[1..]) else s
  }

  /** The digits s starts with. */
  function DigitRun(s: string): (d: string)
    ensures |d| <= |s| && d == s[..|d|]
    ensures forall k :: 0 <= k < |d| ==> IsDigit(d[k])
  {
    if s != [] && IsDigit(s[0]) then [s[0]] + DigitRun(s[1..]) else []
  }

  function DigitOf(ch: char): nat
    requires IsDigit(ch)
  {
    ch as int - '0' as int
  }

  /** The value of a decimal digit string. */
  function Value(d: string): nat
    requires forall k :: 0 <= k < |d| ==> IsDigit(d[k])
  {
    if d == [] then 0 else 10 * Value(d[..|d| - 1]) + DigitOf(d[|d| - 1])
  }

  /** sscanf(token, "%d", &v): after white space, an optional sign and at
      least one digit; None when the conversion fails and v is left as it
      was. A value outside int is not followed. */
  function ScanInt(s: string): Option<int> {
    var t := DropSpaces(s);
    var signed := t != [] && (t[0] == '-' || t[0] == '+');
    var d := DigitRun(if signed then t[1..] else t);
    var v: int := if d == [] then 0 else Value(d);
    if d == [] then None
    else if signed && t[0] == '-' then Some(-v)
    else Some(v)
  }

  /** The decimal digits of n. */
  function Decimal(n: nat): (d: string)
    ensures |d| > 0 && forall k :: 0 <= k < |d| ==> IsDigit(d[k])
  {
    if n < 10 then [('0' as int + n) as char] else Decimal(n / 10) + [('0' as int + n % 10) as char]
  }

  /** n as printf "%d" writes it. */
  function Show(n: int): string {
    if n < 0 then "-" + Decimal(-n) else Decimal(n)
  }

  lemma {:induction false} DecimalValue(n: nat)
    ensures Value(Decimal(n)) == n
    decreases n
  {
    var d := Decimal(n);
    if n >= 10 {
      DecimalValue(n / 10);
      assert d[..|d| - 1] == Decimal(n / 10);
    }
  }

  lemma {:induction false} DigitRunAll(d: string, rest: string)
    requires forall k :: 0 <= k < |d| ==> IsDigit(d[k])
    requires rest == [] || !IsDigit(rest[0])
    ensures DigitRun(d + rest) == d
    decreases |d|
  {
    if d == [] {
      assert d + rest == rest;
    } else {
      assert (d + rest)[1..] == d[1..] + rest;
      DigitRunAll(d[1..], rest);
    }
  }

  /** Reading back a printed integer gives it. */
  lemma ScanShow(n: int)
    ensures ScanInt(Show(n)) == Some(n)
  {
    var m := if n < 0 then -n else n;
    var d := Decimal(m);
    DecimalValue(m);
    DigitRunAll(d, []);
    assert d + [] == d;
    if n < 0 {
      assert Show(n)[1..] == d;
    }
  }

  // ---------------------------------------------------------------------------
  // Florists and clients

  /** struct florist without its speed; c is |flowers|. */
  datatype Florist = Florist(name: string, x: int, y: int, flowers: seq<string>)

  /** struct client. */
  datatype Client = Client(name: string, x: int, y: int, flower: string)

  /** A coordinate sscanf did not convert keeps the 0 of the designated
      initializer at line 215. */
  function OrZero(v: Option<int>): int {
    if v.Some? then v.value else 0
  }

  /** One florist line, lines 215-239: name, x, y, speed, then the flowers.
      None for a line with fewer than four tokens, where strlen or sscanf
      would be handed a null token. */
  function FloristOf(line: string): Option<Florist> {
    var ts := Tokens(line);
    if |ts| < 4 then None
    else Some(Florist(ts[0], OrZero(ScanInt(ts[1])), OrZero(ScanInt(ts[2])), ts[4..]))
  }

  /** One client line, lines 109-124: name, x, y, flower. None for a line
      with fewer than four tokens or a coordinate sscanf does not convert
      (the malloc'ed order's field stays uninitialised). */
  function ClientOf(line: string): Option<Client> {
    var ts := Tokens(line);
    if |ts| < 4 then None
    else match (ScanInt(ts[1]), ScanInt(ts[2]))
      case (Some(x), Some(y)) => Some(Client(ts[0], x, y, ts[3]))
      case _ => None
  }

  /** The line a florist is written as, with its speed token. */
  function FloristLine(f: Florist, speed: string): string {
    Line([f.name, Show(f.x), Show(f.y), speed] + f.flowers)
  }

  lemma ShowIsToken(n: int)
    ensures IsToken(Show(n))
  {
    var s := Show(n);
    if n < 0 {
      assert forall k :: 1 <= k < |s| ==> s[k] == Decimal(-n)[k - 1];
    }
  }

  /** A florist written on a line is read back, speed aside. */
  lemma FloristRoundTrip(f: Florist, speed: string)
    requires IsToken(f.name) && IsToken(speed)
    requires forall k :: 0 <= k < |f.flowers| ==> IsToken(f.flowers[k])
    ensures FloristOf(FloristLine(f, speed)) == Some(f)
  {
    FloristLineTokens(f, speed);
    FloristOfTokens(FloristLine(f, speed), f.name, Show(f.x), Show(f.y), speed, f.flowers);
    ScanShow(f.x);
    ScanShow(f.y);
  }

  lemma FloristLineTokens(f: Florist, speed: string)
    requires IsToken(f.name) && IsToken(speed)
    requires forall k :: 0 <= k < |f.flowers| ==> IsToken(f.flowers[k])
    ensures Tokens(FloristLine(f, speed)) == [f.name, Show(f.x), Show(f.y), speed] + f.flowers
  {
    var ts := [f.name, Show(f.x), Show(f.y), speed] + f.flowers;
    ShowIsToken(f.x);
    ShowIsToken(f.y);
    assert forall k :: 4 <= k < |ts| ==> ts[k] == f.flowers[k - 4];
    TokensOfLine(ts);
  }

  /** The fields of a florist line are its first four tokens and the rest. */
  lemma FloristOfTokens(line: string, name: string, x: string, y: string, speed: string, flowers: seq<string>)
    requires Tokens(line) == [name, x, y, speed] + flowers
    ensures FloristOf(line) == Some(Florist(name, OrZero(ScanInt(x)), OrZero(ScanInt(y)), flowers))
  {
    assert ([name, x, y, speed] + flowers)[4..] == flowers;
  }

  /** A client written on a line is read back. */
  lemma ClientRoundTrip(c: Client)
    requires IsToken(c.name) && IsToken(c.flower)
    ensures ClientOf(Line([c.name, Show(c.x), Show(c.y), c.flower])) == Some(c)
  {
    ShowIsToken(c.x);
    ShowIsToken(c.y);
    TokensOfLine([c.name, Show(c.x), Show(c.y), c.flower]);
    ScanShow(c.x);
    ScanShow(c.y);
  }

  /** The first strtok_r calls on a florist line, lines 216-228, then the
      flower loop. */
  method ReadFloristLine(line: string) returns (r: Option<Florist>)
    ensures r == FloristOf(line)
  {
    var name := NextToken(line);
    if name.None? {
      return None;
    }
    var x := NextToken(name.value.1);
    if x.None? {
      return None;
    }
    var y := NextToken(x.value.1);
    if y.None? {
      return None;
    }
    var speed := NextToken(y.value.1);
    if speed.None? {
      return None;
    }
    var flowers := ReadFlowers(speed.value.1);
    ghost var ts := [name.value.0, x.value.0, y.value.0, speed.value.0];
    FourTokens(Tokens(line), ts, Tokens(name.value.1), Tokens(x.value.1), Tokens(y.value.1), Tokens(speed.value.1));
    FloristOfTokens(line, name.value.0, x.value.0, y.value.0, speed.value.0, flowers);
    return Some(Florist(name.value.0, OrZero(ScanInt(x.value.0)), OrZero(ScanInt(y.value.0)), flowers));
  }

  /** strtok_r(NULL, delim, &saveptr) on what is left of the line: the
      next token and the rest after it. */
  method NextToken(s: string) returns (r: Option<(string, string)>)
    ensures r.None? ==> Tokens(s) == []
    ensures r.Some? ==> Tokens(s) == [r.value.0] + Tokens(r.value.1) && |r.value.1| < |s|
  {
    r := Strtok(s);
    TokensStep(s);
  }

  /** Four tokens taken one after another, then the rest. */
  lemma FourTokens(t0: seq<string>, ts: seq<string>, t1: seq<string>, t2: seq<string>, t3: seq<string>, t4: seq<string>)
    requires |ts| == 4
    requires t0 == [ts[0]] + t1 && t1 == [ts[1]] + t2
    requires t2 == [ts[2]] + t3 && t3 == [ts[3]] + t4
    ensures t0 == ts + t4
  {
    assert ts == [ts[0], ts[1], ts[2], ts[3]];
  }

  /** The flower loop of lines 229-239: the rest of the tokens, in order. */
  method ReadFlowers(rest0: string) returns (flowers: seq<string>)
    ensures flowers == Tokens(rest0)
  {
    flowers := [];
    var rest := rest0;
    while true
      invariant Tokens(rest0) == flowers + Tokens(rest)
      decreases |rest|
    {
      var token := NextToken(rest);
      if token.None? {
        SeqUnit(flowers);
        break;
      }
      SeqShift(flowers, token.value.0, Tokens(token.value.1));
      flowers := flowers + [token.value.0];
      rest := token.value.1;
    }
  }

  /** getline answers a line of one byte for the blank line that ends a
      section. */
  predicate Ends(line: string) {
    |line| == 1
  }

  /** The florists of the lines before the blank line (or the end), up to
      the first line that cannot be read. */
  function FloristsOf(lines: seq<string>): seq<Florist> {
    if lines == [] || Ends(lines[0]) || FloristOf(lines[0]).None? then []
    else [FloristOf(lines[0]).value] + FloristsOf(lines[1..])
  }

  /** Every line of the florist section can be read. */
  predicate FloristsDefined(lines: seq<string>) {
    lines == [] || Ends(lines[0]) || (FloristOf(lines[0]).Some? && FloristsDefined(lines[1..]))
  }

  /** The lines after the blank line that ends a section. */
  function After(lines: seq<string>): seq<string> {
    if lines == [] then [] else if Ends(lines[0]) then lines[1..] else After(lines[1..])
  }

  /** readFlorists, lines 206-248: one florist per line, appended to the
      array, until EOF or the blank line; `next` is the first line after
      the blank line. `defined` is false for a line the program does not
      survive, where reading stops. */
  method ReadFlorists(lines: seq<string>) returns (florists: seq<Florist>, next: nat, defined: bool)
    ensures florists == FloristsOf(lines)
    ensures defined == FloristsDefined(lines)
    ensures defined ==> next <= |lines| && lines[next..] == After(lines)
  {
    florists, next, defined := [], 0, true;
    var k := 0;
    while defined && k < |lines| && !Ends(lines[k])
      invariant 0 <= k <= |lines|
      invariant defined ==> FloristsOf(lines) == florists + FloristsOf(lines[k..])
      invariant defined ==> FloristsDefined(lines) == FloristsDefined(lines[k..]) && After(lines) == After(lines[k..])
      invariant !defined ==> florists == FloristsOf(lines) && !FloristsDefined(lines)
    {
      var florist := ReadFloristLine(lines[k]);
      ReadStep(lines, k, florists, florist);
      if florist.None? {
        defined := false;
      } else {
        florists := florists + [florist.value];
        k := k + 1;
      }
    }
    if defined {
      ReadEnd(lines, k, florists);
      next := if k < |lines| then k + 1 else k;
    }
  }

  /** ReadFlorists' loop invariant after one more line. */
  lemma ReadStep(lines: seq<string>, k: nat, florists: seq<Florist>, florist: Option<Florist>)
    requires k < |lines| && !Ends(lines[k]) && florist == FloristOf(lines[k])
    requires FloristsOf(lines) == florists + FloristsOf(lines[k..])
    requires FloristsDefined(lines) == FloristsDefined(lines[k..]) && After(lines) == After(lines[k..])
    ensures florist.None? ==> florists == FloristsOf(lines) && !FloristsDefined(lines)
    ensures florist.Some? ==>
      && FloristsOf(lines) == florists + [florist.value] + FloristsOf(lines[k + 1..])
      && FloristsDefined(lines) == FloristsDefined(lines[k + 1..])
    ensures After(lines) == After(lines[k + 1..])
  {
    FloristsStep(lines, k);
    if florist.None? {
      SeqUnit(florists);
    } else {
      SeqShift(florists, florist.value, FloristsOf(lines[k + 1..]));
    }
  }

  /** ReadFlorists' loop invariant where the loop ends. */
  lemma ReadEnd(lines: seq<string>, k: nat, florists: seq<Florist>)
    requires k <= |lines| && (k == |lines| || Ends(lines[k]))
    requires FloristsOf(lines) == florists + FloristsOf(lines[k..])
    requires FloristsDefined(lines) == FloristsDefined(lines[k..]) && After(lines) == After(lines[k..])
    ensures florists == FloristsOf(lines) && FloristsDefined(lines)
    ensures k < |lines| ==> lines[k + 1..] == After(lines)
    ensures k == |lines| ==> lines[k..] == After(lines)
  {
    FloristsEnd(lines, k);
    SeqUnit(florists);
  }

  /** One florist line read: either it cannot be read and reading stops
      there, or its florist comes first. */
  lemma FloristsStep(lines: seq<string>, k: nat)
    requires k < |lines| && !Ends(lines[k])
    ensures FloristOf(lines[k]).None? ==> FloristsOf(lines[k..]) == [] && !FloristsDefined(lines[k..])
    ensures FloristOf(lines[k]).Some? ==> FloristsOf(lines[k..]) == [FloristOf(lines[k]).value] + FloristsOf(lines[k + 1..])
    ensures FloristOf(lines[k]).Some? ==> FloristsDefined(lines[k..]) == FloristsDefined(lines[k + 1..])
    ensures After(lines[k..]) == After(lines[k + 1..])
  {
    assert lines[k..][1..] == lines[k + 1..];
  }

  /** The florist section ends at the end of the lines or at the blank
      line, and what follows it starts one line further. */
  lemma FloristsEnd(lines: seq<string>, k: nat)
    requires k <= |lines| && (k == |lines| || Ends(lines[k]))
    ensures FloristsOf(lines[k..]) == [] && FloristsDefined(lines[k..])
    ensures k < |lines| ==> After(lines[k..]) == lines[k + 1..]
    ensures k == |lines| ==> After(lines[k..]) == lines[k..]
  {
    if k < |lines| {
      assert lines[k..][1..] == lines[k + 1..];
    }
  }

  // ---------------------------------------------------------------------------
  // findClosestFlorist

  /** strncmp(flower, wanted, strlen(flower)) == 0: the florist's flower
      name is a prefix of the wanted one. */
  predicate Matches(flower: string, wanted: string) {
    |flower| <= |wanted| && wanted[..|flower|] == flower
  }

  /** One of the first n flowers matches. */
  predicate SoldIn(flowers: seq<string>, wanted: string, n: nat)
    requires n <= |flowers|
  {
    n > 0 && (SoldIn(flowers, wanted, n - 1) || Matches(flowers[n - 1], wanted))
  }

  predicate Sells(f: Florist, wanted: string) {
    SoldIn(f.flowers, wanted, |f.flowers|)
  }

  lemma {:induction false} SoldInExists(flowers: seq<string>, wanted: string, n: nat)
    requires n <= |flowers|
    ensures SoldIn(flowers, wanted, n) <==> exists j :: 0 <= j < n && Matches(flowers[j], wanted)
    decreases n
  {
    if n > 0 {
      SoldInExists(flowers, wanted, n - 1);
    }
  }

  /** The square of the distance between a florist and a client: it orders
      florists as the distance does. */
  function Dist(f: Florist, c: Client): nat {
    (c.x - f.x) * (c.x - f.x) + (c.y - f.y) * (c.y - f.y)
  }

  /** The choice after looking at florist i with best-so-far b: i replaces
      b only when it is strictly closer. */
  function Pick(fs: seq<Florist>, c: Client, b: int, i: nat): int
    requires -1 <= b < |fs| && i < |fs|
  {
    if b == -1 || Dist(fs[i], c) < Dist(fs[b], c) then i else b
  }

  /** The florist chosen among the first n. */
  function ClosestIn(fs: seq<Florist>, c: Client, n: nat): (r: int)
    requires n <= |fs|
    ensures -1 <= r < n
  {
    if n == 0 then -1
    else
      var b := ClosestIn(fs, c, n - 1);
      if Sells(fs[n - 1], c.flower) then Pick(fs, c, b, n - 1) else b
  }

  function Closest(fs: seq<Florist>, c: Client): int {
    ClosestIn(fs, c, |fs|)
  }

  /** -1 exactly when no florist sells the flower; otherwise a florist
      selling it at the least distance, the first of those in the list. */
  lemma {:induction false} ClosestProperties(fs: seq<Florist>, c: Client, n: nat)
    requires n <= |fs|
    ensures var r := ClosestIn(fs, c, n);
      && (r == -1 <==> forall k :: 0 <= k < n ==> !Sells(fs[k], c.flower))
      && (r >= 0 ==> Sells(fs[r], c.flower))
      && (r >= 0 ==> forall k :: 0 <= k < n && Sells(fs[k], c.flower) ==> Dist(fs[r], c) <= Dist(fs[k], c))
      && (r >= 0 ==> forall k :: 0 <= k < r && Sells(fs[k], c.flower) ==> Dist(fs[r], c) < Dist(fs[k], c))
    decreases n
  {
    if n > 0 {
      ClosestProperties(fs, c, n - 1);
    }
  }

  /** Those properties pick one florist only. */
  lemma ClosestUnique(fs: seq<Florist>, c: Client, r: int)
    requires -1 <= r < |fs|
    requires r == -1 <==> forall k :: 0 <= k < |fs| ==> !Sells(fs[k], c.flower)
    requires r >= 0 ==> Sells(fs[r], c.flower)
    requires r >= 0 ==> forall k :: 0 <= k < |fs| && Sells(fs[k], c.flower) ==> Dist(fs[r], c) <= Dist(fs[k], c)
    requires r >= 0 ==> forall k :: 0 <= k < r && Sells(fs[k], c.flower) ==> Dist(fs[r], c) < Dist(fs[k], c)
    ensures r == Closest(fs, c)
  {
    ClosestProperties(fs, c, |fs|);
  }

  /** findClosestFlorist, lines 330-351: every flower of every florist is
      compared; the first match sets the choice, a later one replaces it
      only when strictly closer. */
  method FindClosestFlorist(fs: seq<Florist>, c: Client) returns (fi: int)
    ensures fi == Closest(fs, c)
  {
    fi := -1;
    var fd := 0;
    var i := 0;
    while i < |fs|
      invariant 0 <= i <= |fs| && fi == ClosestIn(fs, c, i)
      invariant fi >= 0 ==> fd == Dist(fs[fi], c)
    {
      ghost var before := fi;
      var j := 0;
      while j < |fs[i].flowers|
        invariant 0 <= j <= |fs[i].flowers|
        invariant fi == if SoldIn(fs[i].flowers, c.flower, j) then Pick(fs, c, before, i) else before
        invariant fi >= 0 ==> fd == Dist(fs[fi], c)
      {
        var flower := fs[i].flowers[j];
        if |flower| <= |c.flower| && c.flower[..|flower|] == flower {
          if fi == -1 {
            fd := Dist(fs[i], c);
            fi := i;
          } else {
            var nfd := Dist(fs[i], c);
            if nfd < fd {
              fd := nfd;
              fi := i;
            }
          }
        }
        j := j + 1;
      }
      i := i + 1;
    }
  }

  // ---------------------------------------------------------------------------
  // Orders

  /** A florist's order queue (args[i].queue), head first. */
  class OrderQueue {
    var orders: seq<Client>

    constructor ()
      ensures orders == []
    {
      orders := [];
    }

    /** Lines 135-143: an order into an empty queue becomes its head;
        otherwise it goes after the last one. */
    method Add(c: Client)
      modifies this
      ensures orders == old(orders) + [c]
      ensures old(orders) == [] ==> orders[0] == c
    {
      if orders == [] {
        orders := [c];
      } else {
        orders := orders + [c];
      }
    }

    /** Lines 273-275 and 293-296: the florist takes the head order and
        the queue moves on to the next. */
    method Take() returns (c: Client)
      requires orders != []
      modifies this
      ensures c == old(orders)[0] && orders == old(orders)[1..]
    {
      c := orders[0];
      orders := orders[1..];
    }
  }

  /** The clients among cs routed to florist i (-1: to nobody), in the
      order they were read. */
  function Routed(fs: seq<Florist>, cs: seq<Client>, i: int): seq<Client> {
    if cs == [] then []
    else Routed(fs, cs[..|cs| - 1], i) + (if Closest(fs, cs[|cs| - 1]) == i then [cs[|cs| - 1]] else [])
  }

  /** A client is routed to i exactly when i is its closest florist. */
  lemma {:induction false} RoutedMembers(fs: seq<Florist>, cs: seq<Client>, i: int, c: Client)
    ensures c in Routed(fs, cs, i) <==> c in cs && Closest(fs, c) == i
    decreases |cs|
  {
    if cs != [] {
      var init := cs[..|cs| - 1];
      RoutedMembers(fs, init, i, c);
      assert cs == init + [cs[|cs| - 1]];
    }
  }

  lemma RoutedSnoc(fs: seq<Florist>, cs: seq<Client>, c: Client, i: int)
    ensures Routed(fs, cs + [c], i) == Routed(fs, cs, i) + if Closest(fs, c) == i then [c] else []
  {
    assert (cs + [c])[..|cs|] == cs;
  }

  lemma RoutedAll(fs: seq<Florist>, cs: seq<Client>, c: Client)
    ensures forall i :: Routed(fs, cs + [c], i) == Routed(fs, cs, i) + if Closest(fs, c) == i then [c] else []
  {
    forall i {
      RoutedSnoc(fs, cs, c, i);
    }
  }

  /** The clients of the lines before the blank line (or the end), up to
      the first line that cannot be read. */
  function ClientsOf(lines: seq<string>): seq<Client> {
    if lines == [] || Ends(lines[0]) || ClientOf(lines[0]).None? then []
    else [ClientOf(lines[0]).value] + ClientsOf(lines[1..])
  }

  predicate ClientsDefined(lines: seq<string>) {
    lines == [] || Ends(lines[0]) || (ClientOf(lines[0]).Some? && ClientsDefined(lines[1..]))
  }

  /** Queue qs[i] is florist i's; no two florists share one. */
  predicate Separate(qs: seq<OrderQueue>) {
    forall i, j :: 0 <= i < j < |qs| ==> qs[i] != qs[j]
  }

  /** The client loop of lines 108-146: each client line is read, the
      closest florist selling the flower is found, and the order is added
      to that florist's queue, or reported as a flower nobody sells. */
  method DispatchClients(fs: seq<Florist>, lines: seq<string>, qs: seq<OrderQueue>) returns (rejected: seq<Client>, defined: bool)
    requires |qs| == |fs| && Separate(qs)
    modifies qs
    ensures forall i :: 0 <= i < |qs| ==> qs[i].orders == old(qs[i].orders) + Routed(fs, ClientsOf(lines), i)
    ensures rejected == Routed(fs, ClientsOf(lines), -1)
    ensures defined == ClientsDefined(lines)
  {
    rejected := [];
    ghost var base := seq(|qs|, i requires 0 <= i < |qs| reads qs => qs[i].orders);
    ghost var read: seq<Client> := [];
    var k := 0;
    while k < |lines| && !Ends(lines[k])
      invariant 0 <= k <= |lines|
      invariant ClientsOf(lines) == read + ClientsOf(lines[k..])
      invariant ClientsDefined(lines) == ClientsDefined(lines[k..])
      invariant forall i :: 0 <= i < |qs| ==> base[i] == old(qs[i].orders)
      invariant forall i :: 0 <= i < |qs| ==> qs[i].orders == base[i] + Routed(fs, read, i)
      invariant rejected == Routed(fs, read, -1)
    {
      var order := ClientOf(lines[k]);
      ClientsStep(lines, k);
      if order.None? {
        SeqUnit(read);
        return rejected, false;
      }
      SeqShift(read, order.value, ClientsOf(lines[k + 1..]));
      rejected := Route(fs, qs, order.value, rejected, base, read);
      read := read + [order.value];
      k := k + 1;
    }
    ClientsEnd(lines, k);
    SeqUnit(read);
    defined := true;
  }

  lemma SeqUnit<T>(a: seq<T>)
    ensures a + [] == a
  {
  }

  lemma SeqShift<T>(a: seq<T>, x: T, b: seq<T>)
    ensures a + ([x] + b) == (a + [x]) + b
  {
  }

  /** Lines 116-144 for one client: the order goes to the queue of the
      closest florist selling its flower, or is reported when nobody sells
      it; every queue stays its first contents base[i] followed by the
      clients routed to it. */
  method Route(fs: seq<Florist>, qs: seq<OrderQueue>, c: Client, rejected0: seq<Client>,
               ghost base: seq<seq<Client>>, ghost read: seq<Client>) returns (rejected: seq<Client>)
    requires |qs| == |fs| == |base| && Separate(qs)
    requires forall i :: 0 <= i < |qs| ==> qs[i].orders == base[i] + Routed(fs, read, i)
    requires rejected0 == Routed(fs, read, -1)
    modifies qs
    ensures forall i :: 0 <= i < |qs| ==> qs[i].orders == base[i] + Routed(fs, read + [c], i)
    ensures rejected == Routed(fs, read + [c], -1)
  {
    var fi := FindClosestFlorist(fs, c);
    RoutedAll(fs, read, c);
    rejected := rejected0;
    if fi == -1 {
      rejected := rejected + [c];
    } else {
      SeqShift(base[fi], c, Routed(fs, read, fi));
      qs[fi].Add(c);
    }
  }

  /** One client line read: either it cannot be read and reading stops
      there, or its client comes first. */
  lemma ClientsStep(lines: seq<string>, k: nat)
    requires k < |lines| && !Ends(lines[k])
    ensures ClientOf(lines[k]).None? ==> ClientsOf(lines[k..]) == [] && !ClientsDefined(lines[k..])
    ensures ClientOf(lines[k]).Some? ==> ClientsOf(lines[k..]) == [ClientOf(lines[k]).value] + ClientsOf(lines[k + 1..])
    ensures ClientOf(lines[k]).Some? ==> ClientsDefined(lines[k..]) == ClientsDefined(lines[k + 1..])
  {
    assert lines[k..][1..] == lines[k + 1..];
  }

  /** Reading stops at the end of the lines or at the blank line. */
  lemma ClientsEnd(lines: seq<string>, k: nat)
    requires k <= |lines| && (k == |lines| || Ends(lines[k]))
    ensures ClientsOf(lines[k..]) == [] && ClientsDefined(lines[k..])
  {
  }

  /** The loop of lines 292-311 once the day has ended: the florist serves
      every order left, head first, one sale each. */
  method ServeRemaining(q: OrderQueue) returns (served: seq<Client>, sales: nat)
    modifies q
    ensures served == old(q.orders) && q.orders == [] && sales == |served|
  {
    served, sales := [], 0;
    while q.orders != []
      invariant old(q.orders) == served + q.orders && sales == |served|
      decreases |q.orders|
    {
      var order := q.Take();
      served, sales := served + [order], sales + 1;
    }
  }
}
