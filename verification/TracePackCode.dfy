/** The cursor loops that pack and unpack a stored trace, proved against module TracePack. */
module TracePackCode {
  import opened Bytes
  import opened Crc32
  import opened TraceModel
  import opened TraceBlob
  import opened TraceBlobCode
  import opened TracePack

  method FrameCrcOf(p: array<byte>, size: nat) returns (r: u32)
    requires FRAME <= size <= p.Length
    ensures r == FrameCrc(p[..size])
  {
    var c := Start();
    ghost var skipped: seq<byte> := [];
    for i := 0 to size
      invariant |c| == 32 && c == Fold(Start(), skipped)
      invariant skipped == if i <= 12 then p[..i] else if i <= 16 then p[..12] else p[..12] + p[16..i]
    {
      if i < 12 || i >= 16 {
        c := ByteStepOf(c, p[i]);
        assert (skipped + [p[i]])[..|skipped|] == skipped;
        skipped := skipped + [p[i]];
      }
    }
    assert skipped == p[..12] + p[16..size];
    assert p[..size][..12] == p[..12] && p[..size][16..] == p[16..size];
    Pow2Values();
    r := FromBits(Not(c));
  }

  method ByteStepOf(c: Bits, x: byte) returns (r: Bits)
    requires |c| == 32
    ensures |r| == 32 && r == ByteStep(c, x)
  {
    r := Xor(c, ToBits(x, 32));
    ghost var mixed := r;
    for j := 0 to 8
      invariant |r| == 32 && r == Steps(mixed, j)
    {
      StepsCompose(mixed, j, 1);
      r := BitStep(r);
    }
  }

  // ----- packing

  method RunAt(d: seq<byte>, input: nat) returns (run: nat)
    requires input < |d|
    ensures run == RunLength(d[input..], 128)
  {
    var zero := d[input] == 0;
    run := 1;
    while run < 128 && input + run < |d| && (d[input + run] == 0) == zero
      invariant 1 <= run <= 128 && input + run <= |d|
      invariant RunLength(d[input..], 128) == run - 1 + RunLength(d[input + run - 1..], 128 - (run - 1))
      invariant (d[input + run - 1] == 0) == zero
      decreases |d| - input - run
    {
      assert d[input + run - 1..][1..] == d[input + run..];
      run := run + 1;
    }
  }

  lemma SqueezeAt(d: seq<byte>, i: nat, next: nat)
    requires i < |d| && next == i + RunLength(d[i..], 128)
    ensures Squeeze(d[i..]) == Token(d[i..]) + Squeeze(d[next..])
  {
    SqueezeFirst(d[i..]);
    assert d[i..][RunLength(d[i..], 128)..] == d[next..];
  }

  lemma TokenIs(d: seq<byte>, input: nat, run: nat)
    requires input < |d| && run == RunLength(d[input..], 128)
    ensures input + run <= |d|
    ensures Token(d[input..]) == if d[input] == 0 then [128 + run - 1] else [run - 1] + d[input..input + run]
  {
    assert d[input..][..run] == d[input..input + run] && d[input..][0] == d[input];
  }

  method CopyRun(d: seq<byte>, input: nat, run: nat, out: array<byte>, at: nat)
    requires input + run <= |d| && at + run <= out.Length
    modifies out
    ensures out[..at] == old(out[..at]) && out[at..at + run] == d[input..input + run]
  {
    for j := 0 to run
      invariant forall k :: 0 <= k < at ==> out[k] == old(out[k])
      invariant forall k :: at <= k < at + j ==> out[k] == d[input + (k - at)]
    {
      out[at + j] := d[input + j];
    }
  }

  /** Writes the token of the run at input behind output. */
  method PutToken(d: seq<byte>, input: nat, run: nat, out: array<byte>, output: nat)
    requires input < |d| && run == RunLength(d[input..], 128)
    requires output + |Token(d[input..])| <= out.Length
    modifies out
    ensures out[..output] == old(out[..output])
    ensures out[output..output + |Token(d[input..])|] == Token(d[input..])
  {
    TokenIs(d, input, run);
    if d[input] == 0 {
      out[output] := 128 + run - 1;
    } else {
      out[output] := run - 1;
      ghost var front := out[..output + 1];
      CopyRun(d, input, run, out, output + 1);
      Tokened(out[..], front, output, d[input..input + run]);
    }
  }

  lemma Tokened(s: seq<byte>, front: seq<byte>, output: nat, lit: seq<byte>)
    requires output + 1 + |lit| <= |s| && s[..output + 1] == front && s[output + 1..output + 1 + |lit|] == lit
    ensures s[..output] == front[..output] && s[output..output + 1 + |lit|] == [front[output]] + lit
  {
    assert s[..output + 1][..output] == s[..output] && s[..output + 1][output] == s[output];
  }

  method AppendToken(d: seq<byte>, input: nat, run: nat, out: array<byte>, output: nat)
    requires input < |d| && run == RunLength(d[input..], 128)
    requires FRAME <= output && output + |Token(d[input..])| <= out.Length
    modifies out
    ensures out[FRAME..output + |Token(d[input..])|] == old(out[FRAME..output]) + Token(d[input..])
  {
    ghost var was := out[..];
    PutToken(d, input, run, out, output);
    Extended(out[..], was, output, Token(d[input..]));
  }

  lemma Extended(s: seq<byte>, was: seq<byte>, output: nat, t: seq<byte>)
    requires FRAME <= output && output + |t| <= |s| == |was|
    requires s[..output] == was[..output] && s[output..output + |t|] == t
    ensures s[FRAME..output + |t|] == was[FRAME..output] + t
  {
    assert was[..output][FRAME..] == was[FRAME..output] && s[..output][FRAME..] == s[FRAME..output];
  }

  /** Writes the token at input if the result stays below the size of the buffer. */
  method PackOne(d: seq<byte>, input: nat, out: array<byte>, output: nat) returns (fits: bool, run: nat, need: nat)
    requires input < |d| && FRAME <= output <= out.Length
    modifies out
    ensures run == RunLength(d[input..], 128) && need == |Token(d[input..])|
    ensures fits == (output + need < out.Length)
    ensures fits ==> out[FRAME..output + need] == old(out[FRAME..output]) + Token(d[input..])
    ensures !fits ==> out[..] == old(out[..])
  {
    run := RunAt(d, input);
    need := 1 + (if d[input] == 0 then 0 else run);
    assert d[input..][0] == d[input];
    fits := output + need < out.Length;
    if fits { AppendToken(d, input, run, out, output); }
  }

  /** What is done and the token at input, with the rest behind it. */
  lemma PackStep(d: seq<byte>, input: nat, done: seq<byte>, next: nat)
    requires input < |d| && next == input + RunLength(d[input..], 128)
    ensures done + Squeeze(d[input..]) == done + Token(d[input..]) + Squeeze(d[next..])
  {
    SqueezeAt(d, input, next);
    Regroup(done, Squeeze(d[input..]), Token(d[input..]), Squeeze(d[next..]));
  }

  lemma Regroup(done: seq<byte>, all: seq<byte>, front: seq<byte>, rest: seq<byte>)
    requires all == front + rest
    ensures done + all == done + front + rest
  {
  }

  /** One round: the output grows by a token, or the whole result is too long. */
  method PackNext(d: seq<byte>, input: nat, out: array<byte>, output: nat, ghost goal: seq<byte>)
    returns (fits: bool, next: nat, filled: nat)
    requires input < |d| && FRAME <= output < BLOB == out.Length
    requires out[FRAME..output] + Squeeze(d[input..]) == goal
    modifies out
    ensures !fits ==> FRAME + |goal| >= BLOB
    ensures fits ==> input < next <= |d| && FRAME <= filled < BLOB
    ensures fits ==> out[FRAME..filled] + Squeeze(d[next..]) == goal
  {
    ghost var done := out[FRAME..output];
    var run, need;
    fits, run, need := PackOne(d, input, out, output);
    next, filled := input + run, output + need;
    PackStep(d, input, done, next);
    assert |goal| >= |done| + need;
  }

  /** The run-length loop; fits says whether the result stays below the size of the blob. */
  method PackRuns(d: seq<byte>, out: array<byte>) returns (fits: bool, output: nat)
    requires |d| == BLOB && out.Length == BLOB
    modifies out
    ensures fits == (FRAME + |Squeeze(d)| < BLOB)
    ensures fits ==> output == FRAME + |Squeeze(d)| && out[FRAME..output] == Squeeze(d)
  {
    var input := 0;
    output, fits := FRAME, true;
    ghost var goal := Squeeze(d);
    assert d[0..] == d && out[FRAME..FRAME] == [];
    while input < BLOB
      invariant input <= BLOB && FRAME <= output < BLOB && fits
      invariant out[FRAME..output] + Squeeze(d[input..]) == goal
      decreases BLOB - input
    {
      fits, input, output := PackNext(d, input, out, output, goal);
      if !fits { return; }
    }
    assert d[BLOB..] == [];
  }

  method Differences(b: array<byte>, count: nat) returns (d: seq<byte>)
    requires b.Length == BLOB
    ensures d == Delta(b[..], count)
  {
    d := [];
    for i := 0 to BLOB
      invariant |d| == i && forall k :: 0 <= k < i ==> d[k] == DeltaAt(b[..], k, count)
    {
      d := d + [if Differs(i, count) then XorByte(b[i], b[i - RECORD]) else b[i]];
    }
  }

  method PackInto(b: array<byte>, out: array<byte>) returns (size: nat)
    requires b.Length == BLOB && out.Length == BLOB && b != out
    modifies out
    ensures size <= BLOB && out[..size] == Pack(b[..])
  {
    var count := Field(b, 8, 2);
    var fits, output := false, FRAME;
    if count <= CAPACITY {
      var d := Differences(b, count);
      fits, output := PackRuns(d, out);
    }
    if !fits {
      for i := 0 to BLOB
        invariant b[..] == old(b[..]) && out[..i] == b[..i]
      {
        out[i] := b[i];
      }
      assert b[..BLOB] == b[..] && out[..BLOB] == Pack(b[..]);
      return BLOB;
    }
    PutFrame(out, output);
    size := output;
  }

  /** Writes the frame in front of the runs, the CRC last. */
  method PutFrame(out: array<byte>, output: nat)
    requires out.Length == BLOB && FRAME <= output < BLOB
    modifies out
    ensures out[..output] == Frame(old(out[FRAME..output]))
  {
    ghost var s := out[FRAME..output];
    PutFrameHead(out, output);
    ghost var head := out[..];
    assert head[..12] == FrameHead(|s|) && head[FRAME..output] == s;
    var c := FrameCrcOf(out, output);
    assert out[..output][..12] + out[..output][16..] == FrameHead(|s|) + s;
    Put(out, 12, c, 4);
    Framed(head, FrameHead(|s|), LE(c, 4), s);
    assert out[..output] == (head[..12] + LE(c, 4) + head[16..])[..output];
  }

  lemma Framed(all: seq<byte>, h: seq<byte>, c: seq<byte>, s: seq<byte>)
    requires |h| == 12 && |c| == 4 && FRAME + |s| <= |all| && all[..12] == h && all[FRAME..FRAME + |s|] == s
    ensures (all[..12] + c + all[16..])[..FRAME + |s|] == h + c + s
  {
    assert all[16..][..|s|] == s;
  }

  /** Puts a field directly behind front, away from the runs. */
  method PutBehind(out: array<byte>, p: nat, v: nat, n: nat, ghost front: seq<byte>)
    requires out.Length == BLOB && p + n <= FRAME && out[..p] == front
    modifies out
    ensures out[..p + n] == front + LE(v, n) && out[FRAME..] == old(out[FRAME..])
  {
    ghost var was := out[..];
    Put(out, p, v, n);
    Behind(was, front, LE(v, n), p);
    assert out[..] == was[..p] + LE(v, n) + was[p + n..];
  }

  lemma Behind(was: seq<byte>, front: seq<byte>, f: seq<byte>, p: nat)
    requires p + |f| <= FRAME <= |was| && was[..p] == front
    ensures var all := was[..p] + f + was[p + |f|..]; all[..p + |f|] == front + f && all[FRAME..] == was[FRAME..]
  {
  }

  method PutFrameHead(out: array<byte>, output: nat)
    requires out.Length == BLOB && FRAME <= output < BLOB
    modifies out
    ensures out[..12] == FrameHead(output - FRAME) && out[FRAME..] == old(out[FRAME..])
  {
    PutBehind(out, 0, FRAME_MAGIC, 4, []);
    ghost var a := [] + LE(FRAME_MAGIC, 4);
    PutBehind(out, 4, 1, 1, a);
    PutBehind(out, 5, 1, 1, a + LE(1, 1));
    PutBehind(out, 6, BLOB, 2, a + LE(1, 1) + LE(1, 1));
    PutBehind(out, 8, output - FRAME, 2, a + LE(1, 1) + LE(1, 1) + LE(BLOB, 2));
    PutBehind(out, 10, 0, 2, a + LE(1, 1) + LE(1, 1) + LE(BLOB, 2) + LE(output - FRAME, 2));
    OneByteLE(1);
    assert a == LE(FRAME_MAGIC, 4);
  }

  // ----- unpacking

  datatype Outcome = Done | Failed(error: Error)

  method ZeroRun(out: array<byte>, output: nat, run: nat)
    requires output + run <= out.Length
    modifies out
    ensures out[..output + run] == old(out[..output]) + Zeros(run)
  {
    for j := 0 to run
      invariant out[..output + j] == old(out[..output]) + Zeros(j)
    {
      out[output + j] := 0;
    }
  }

  /** Copies a literal, stopping at the first zero byte. */
  method LiteralRun(p: array<byte>, input: nat, run: nat, out: array<byte>, output: nat, ghost lit: seq<byte>)
    returns (ok: bool)
    requires input + run <= p.Length && output + run <= out.Length && p != out && lit == p[input..input + run]
    modifies out
    ensures ok == (0 !in lit)
    ensures ok ==> out[..output + run] == old(out[..output]) + lit
  {
    for j := 0 to run
      invariant p[input..input + run] == lit && out[..output + j] == old(out[..output]) + lit[..j] && 0 !in lit[..j]
    {
      var value := p[input + j];
      assert lit[j] == value;
      if value == 0 { return false; }
      out[output + j] := value;
    }
    assert lit[..run] == lit;
    return true;
  }

  /** Expand from position i, whose token announces a run of n. */
  function Stepped(s: seq<byte>, i: nat, n: nat, room: nat): Result<seq<byte>>
    requires i < |s| && n > 0
  {
    if n > room then Err(Length)
    else if s[i] >= 128 then Prepend(Zeros(n), Expand(s[i + 1..], room - n))
    else if n > |s| - (i + 1) then Err(Length)
    else if 0 in s[i + 1..i + 1 + n] then Err(Format)
    else Prepend(s[i + 1..i + 1 + n], Expand(s[i + 1 + n..], room - n))
  }

  lemma ExpandStep(s: seq<byte>, i: nat, room: nat)
    requires i < |s|
    ensures Expand(s[i..], room) == Stepped(s, i, s[i] % 128 + 1, room)
  {
    var t, n := s[i..], s[i] % 128 + 1;
    assert t[1..] == s[i + 1..];
    if n <= |t| - 1 {
      assert t[1..n + 1] == s[i + 1..i + 1 + n] && t[n + 1..] == s[i + 1 + n..];
    }
  }

  lemma StepZeros(s: seq<byte>, i: nat, room: nat, n: nat, next: nat, left: nat)
    requires i < |s| && n == s[i] % 128 + 1 && s[i] >= 128 && left + n == room && next == i + 1
    ensures Expand(s[i..], room) == Prepend(Zeros(n), Expand(s[next..], left))
  {
    ExpandStep(s, i, room);
  }

  lemma StepLiteral(s: seq<byte>, i: nat, room: nat, n: nat, lit: seq<byte>, next: nat, left: nat)
    requires i < |s| && n == s[i] % 128 + 1 && s[i] < 128 && left + n == room && next == i + 1 + n <= |s|
    requires lit == s[i + 1..next]
    ensures Expand(s[i..], room) == if 0 in lit then Err(Format) else Prepend(lit, Expand(s[next..], left))
  {
    ExpandStep(s, i, room);
  }

  method ExpandZeroRun(out: array<byte>, output: nat, run: nat, ghost s: seq<byte>, input: nat, next: nat,
      ghost room: nat, ghost left: nat)
    returns (ghost added: seq<byte>)
    requires input < |s| && s[input] >= 128 && run == s[input] % 128 + 1 && output + run <= out.Length
    requires next == input + 1 && room == out.Length - output && left + run == room
    modifies out
    ensures |added| == run && out[..output + run] == old(out[..output]) + added
    ensures Expand(s[input..], room) == Prepend(added, Expand(s[next..], left))
  {
    added := Zeros(run);
    StepZeros(s, input, room, run, next, left);
    ZeroRun(out, output, run);
  }

  lemma Within(p: array<byte>, size: nat, s: seq<byte>, i: nat, j: nat)
    requires i <= j <= size <= p.Length && p[..size] == s
    ensures s[i..j] == p[i..j]
  {
    forall k | 0 <= k < j - i
      ensures s[i..j][k] == p[i..j][k]
    {
      assert s[i + k] == p[..size][i + k];
    }
  }

  method ExpandLiteralRun(p: array<byte>, size: nat, first: nat, out: array<byte>, output: nat, run: nat,
      ghost s: seq<byte>, input: nat, next: nat, ghost room: nat, ghost left: nat)
    returns (ok: bool, ghost added: seq<byte>)
    requires size <= p.Length && p[..size] == s && p != out && first == input + 1 && next == first + run <= size
    requires s[input] < 128 && run == s[input] % 128 + 1 && output + run <= out.Length
    requires room == out.Length - output && left + run == room
    modifies out
    ensures |added| == run
    ensures ok ==> out[..output + run] == old(out[..output]) + added
    ensures Expand(s[input..], room) == if ok then Prepend(added, Expand(s[next..], left)) else Err(Format)
  {
    added := p[first..next];
    Within(p, size, s, first, next);
    StepLiteral(s, input, room, run, added, next, left);
    ok := LiteralRun(p, first, run, out, output, added);
  }

  /** One token of s: what it adds to the output, or why it is refused. */
  method ExpandOne(p: array<byte>, size: nat, input: nat, out: array<byte>, output: nat, ghost s: seq<byte>)
    returns (r: Outcome, next: nat, filled: nat, ghost added: seq<byte>)
    requires input < size <= p.Length && output <= out.Length && p != out && p[..size] == s
    modifies out
    ensures r != Done ==> Expand(s[input..], out.Length - output) == Err(r.error)
    ensures r == Done ==> input < next <= size && filled == output + |added| <= out.Length
    ensures r == Done ==> out[..filled] == old(out[..output]) + added
    ensures r == Done ==>
      Expand(s[input..], out.Length - output) == Prepend(added, Expand(s[next..], out.Length - filled))
  {
    var token := p[input];
    var run := token % 128 + 1;
    assert token == s[input];
    next, filled, added := input + 1, output + run, [];
    var room := out.Length - output;
    r := TooLong(s, token, input, room, size);
    if r != Done { return; }
    ghost var left := out.Length - filled;
    if token >= 128 {
      added := ExpandZeroRun(out, output, run, s, input, next, room, left);
      return;
    }
    var literal;
    next := input + 1 + run;
    literal, added := ExpandLiteralRun(p, size, input + 1, out, output, run, s, input, next, room, left);
    if !literal { r := Failed(Format); }
  }

  /** A run that does not fit the room, or a literal that does not fit the input. */
  method TooLong(ghost s: seq<byte>, token: byte, input: nat, room: nat, size: nat) returns (r: Outcome)
    requires input < size == |s| && token == s[input]
    ensures var run := token % 128 + 1;
      r == if run > room || (token < 128 && run > size - (input + 1)) then Failed(Length) else Done
    ensures r != Done ==> Expand(s[input..], room) == Err(r.error)
  {
    ExpandStep(s, input, room);
    var run := token % 128 + 1;
    r := if run > room || (token < 128 && run > size - (input + 1)) then Failed(Length) else Done;
  }

  /** Expands the runs behind the frame into the buffer. */
  method ExpandInto(p: array<byte>, size: nat, out: array<byte>) returns (r: Outcome, output: nat)
    requires FRAME <= size <= p.Length && out.Length == BLOB && p != out
    modifies out
    ensures match Expand(p[FRAME..size], BLOB)
      case Ok(v) => r == Done && output == |v| && output <= BLOB && out[..output] == v
      case Err(e) => r == Failed(e)
  {
    ghost var s := p[..size];
    ghost var goal := Expand(s[FRAME..], BLOB);
    var input := FRAME;
    r, output := Done, 0;
    PrependNothing(goal);
    assert s[FRAME..] == p[FRAME..size] && out[..0] == [];
    while input < size
      invariant FRAME <= input <= size && output <= BLOB && p[..size] == s && r == Done
      invariant goal == Prepend(out[..output], Expand(s[input..], BLOB - output))
      decreases size - input
    {
      r, input, output := ExpandNext(p, size, input, out, output, s, goal);
      if r != Done { return; }
    }
    ExpandedAll(s, BLOB - output, out[..output]);
  }

  lemma ExpandedAll(s: seq<byte>, room: nat, done: seq<byte>)
    ensures Prepend(done, Expand(s[|s|..], room)) == Ok(done)
  {
    assert s[|s|..] == [] && done + [] == done;
  }

  /** One round: the output grows by a run, or the whole expansion has this error. */
  method ExpandNext(p: array<byte>, size: nat, input: nat, out: array<byte>, output: nat, ghost s: seq<byte>,
      ghost goal: Result<seq<byte>>)
    returns (r: Outcome, next: nat, filled: nat)
    requires input < size <= p.Length && output <= out.Length == BLOB && p != out && p[..size] == s
    requires goal == Prepend(out[..output], Expand(s[input..], BLOB - output))
    modifies out
    ensures r != Done ==> goal == Err(r.error)
    ensures r == Done ==> input < next <= size && filled <= BLOB
    ensures r == Done ==> goal == Prepend(out[..filled], Expand(s[next..], BLOB - filled))
  {
    ghost var done, added := out[..output], [];
    r, next, filled, added := ExpandOne(p, size, input, out, output, s);
    if r == Done { PrependTwice(done, added, Expand(s[next..], BLOB - filled)); }
  }

  lemma PrependNothing(r: Result<seq<byte>>)
    ensures Prepend([], r) == r
  {
    if r.Ok? { assert [] + r.value == r.value; }
  }

  lemma PrependTwice(a: seq<byte>, b: seq<byte>, r: Result<seq<byte>>)
    ensures Prepend(a, Prepend(b, r)) == Prepend(a + b, r)
  {
    if r.Ok? {
      assert a + (b + r.value) == a + b + r.value;
    }
  }

  /** Undoes the row differences in place, front to back. */
  method RestoreInPlace(b: array<byte>, count: nat)
    requires b.Length == BLOB && count <= CAPACITY
    modifies b
    ensures b[..] == Restore(old(b[..]), count, BLOB)
  {
    ghost var d := b[..];
    var i := HEADER + RECORD;
    RestorePrefix(d, count, HEADER + RECORD);
    while i < HEADER + count * RECORD
      invariant HEADER + RECORD <= i <= BLOB
      invariant count >= 1 ==> i <= HEADER + count * RECORD
      invariant b[..i] == Restore(d, count, i) && b[i..] == d[i..]
    {
      assert d[i] == b[i..][0] && b[i - RECORD] == b[..i][i - RECORD];
      b[i] := XorByte(b[i], b[i - RECORD]);
      assert b[..i + 1] == b[..i] + [b[i]];
      i := i + 1;
    }
    RestoreTail(d, count, i, BLOB);
    assert b[..] == b[..i] + b[i..];
    assert d[i..BLOB] == d[i..];
  }

  lemma {:induction false} RestorePrefix(d: seq<byte>, count: nat, n: nat)
    requires n <= |d| && n <= HEADER + RECORD
    ensures Restore(d, count, n) == d[..n]
  {
    if n > 0 {
      RestorePrefix(d, count, n - 1);
      assert d[..n] == d[..n - 1] + [d[n - 1]];
    }
  }

  lemma {:induction false} RestoreTail(d: seq<byte>, count: nat, i: nat, n: nat)
    requires i <= n <= |d| && (count >= 1 ==> HEADER + count * RECORD <= i) && HEADER + RECORD <= i
    ensures Restore(d, count, n) == Restore(d, count, i) + d[i..n]
  {
    if i < n {
      RestoreTail(d, count, i, n - 1);
      assert d[i..n] == d[i..n - 1] + [d[n - 1]];
    }
  }

  lemma SameField(b: seq<byte>, size: nat, p: nat, n: nat)
    requires p + n <= size <= |b|
    ensures Get(b[..size], p, n) == Get(b, p, n)
  {
    assert b[..size][p..p + n] == b[p..p + n];
  }

  method CheckFrame(p: array<byte>, size: nat) returns (r: Outcome)
    requires FRAME <= size < BLOB && p.Length == BLOB
    ensures Unpack(p[..size]) == if r == Done then Unsqueeze(p[FRAME..size]) else Err(r.error)
  {
    var magic := Field(p, 0, 4);
    var reserved := Field(p, 10, 2);
    var length := Field(p, 6, 2);
    var payload := Field(p, 8, 2);
    var stored := Field(p, 12, 4);
    assert p[..][..size] == p[..size] && p[..size][FRAME..] == p[FRAME..size];
    SameField(p[..], size, 0, 4);
    SameField(p[..], size, 10, 2);
    SameField(p[..], size, 6, 2);
    SameField(p[..], size, 8, 2);
    SameField(p[..], size, 12, 4);
    if magic != FRAME_MAGIC || p[4] != 1 || p[5] != 1 || reserved != 0 { return Failed(Format); }
    if length != BLOB || payload != size - FRAME { return Failed(Length); }
    var c := FrameCrcOf(p, size);
    if stored != c { return Failed(Crc); }
    return Done;
  }

  /** On success the buffer holds the unpacked blob; on failure its contents are not to be used. */
  method UnpackInto(p: array<byte>, size: nat, b: array<byte>) returns (r: Outcome)
    requires size <= p.Length == BLOB && b.Length == BLOB && p != b
    modifies b
    ensures match Unpack(p[..size])
      case Ok(v) => r == Done && b[..] == v
      case Err(e) => r == Failed(e)
  {
    if size < FRAME { return Failed(Length); }
    if size == BLOB {
      assert p[..size] == p[..];
      var magic := Field(p, 0, 4);
      if magic != MAGIC { return Failed(Format); }
      for i := 0 to BLOB
        invariant p[..] == old(p[..]) && b[..i] == p[..i]
      {
        b[i] := p[i];
      }
      assert b[..] == b[..BLOB] == p[..];
    } else {
      var frame := CheckFrame(p, size);
      if frame != Done { return frame; }
      var runs, output := ExpandInto(p, size, b);
      if runs != Done { return runs; }
      if output != BLOB { return Failed(Length); }
      assert b[..BLOB] == b[..];
      var count := Field(b, 8, 2);
      if count > CAPACITY { return Failed(Format); }
      RestoreInPlace(b, count);
    }
    var stored := Field(b, COVERED, 4);
    var c := CrcOf(b, COVERED);
    assert b[..][..COVERED] == b[..COVERED];
    return if stored == c then Done else Failed(Crc);
  }
}
