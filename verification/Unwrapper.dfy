/** The streaming adapter that strips a JSON array's brackets and turns its separators into spaces. */
module Unwrapper {
  import opened Ordering
  import opened Bytes
  import opened Quantization

  const OPEN_BRACE: byte := 123
  const CLOSE_BRACE: byte := 125
  const OPEN_BRACKET: byte := 91
  const CLOSE_BRACKET: byte := 93
  const COMMA: byte := 44
  const SPACE: byte := 32

  predicate IsOpen(b: byte) { b == OPEN_BRACE || b == OPEN_BRACKET }

  predicate IsClose(b: byte) { b == CLOSE_BRACE || b == CLOSE_BRACKET }

  // ---------- One byte at a time ----------

  datatype State = State(started: bool, depth: I32, done: bool)

  datatype Output = Output(state: State, bytes: seq<byte>)

  const INITIAL: State := State(false, 0, false)

  /** Between two elements of the array. */
  const TOP: State := State(true, 0, false)

  const FINISHED: State := State(true, 0, true)

  /** `depth += 1` of a release build. */
  function Deeper(depth: I32): I32 {
    if depth == 0x7fff_ffff then -0x8000_0000 else depth + 1
  }

  /** One more, modulo 2^32. */
  lemma DeeperWraps(depth: I32)
    ensures (Deeper(depth) - depth) % 0x1_0000_0000 == 1
  {
  }

  function Step(s: State, b: byte): Output {
    if s.done then Output(s, [])
    else if !s.started then Output(s.(started := b == OPEN_BRACKET), [])
    else if IsOpen(b) then Output(s.(depth := Deeper(s.depth)), [b])
    else if IsClose(b) && s.depth > 0 then Output(s.(depth := s.depth - 1), [b])
    else if b == CLOSE_BRACKET then Output(s.(done := true), [])
    else if b == COMMA && s.depth == 0 then Output(s, [SPACE])
    else Output(s, [b])
  }

  /** One pass over a whole input. */
  function Run(s: State, input: seq<byte>): Output {
    if input == [] then Output(s, []) else
      var n := |input| - 1;
      var before := Run(s, input[..n]);
      var last := Step(before.state, input[n]);
      Output(last.state, before.bytes + last.bytes)
  }

  lemma RunNothing(s: State)
    ensures Run(s, []) == Output(s, [])
  {
  }

  lemma RunPush(s: State, xs: seq<byte>, b: byte)
    ensures var r := Run(s, xs);
      Run(s, xs + [b]) == Output(Step(r.state, b).state, r.bytes + Step(r.state, b).bytes)
  {
    assert (xs + [b])[..|xs|] == xs;
  }

  /** Cutting the input anywhere changes nothing. */
  lemma {:induction false} RunConcat(s: State, a: seq<byte>, b: seq<byte>)
    ensures var r := Run(s, a);
      Run(s, a + b) == Output(Run(r.state, b).state, r.bytes + Run(r.state, b).bytes)
  {
    hide Step, Run;
    if b == [] {
      RunNothing(Run(s, a).state);
      assert a + b == a && Run(s, a).bytes + [] == Run(s, a).bytes;
    } else {
      var n := |b| - 1;
      RunConcat(s, a, b[..n]);
      RunPush(s, a + b[..n], b[n]);
      RunPush(Run(s, a).state, b[..n], b[n]);
      assert b == b[..n] + [b[n]];
      assert a + b == a + b[..n] + [b[n]];
    }
  }

  lemma {:induction false} DoneStaysDone(s: State, input: seq<byte>)
    requires s.done
    ensures Run(s, input) == Output(s, [])
  {
    if input != [] {
      DoneStaysDone(s, input[..|input| - 1]);
    }
  }

  /** The pure transducer over the chunks of any cutting of the input. */
  function RunChunks(s: State, chunks: seq<seq<byte>>): Output {
    if chunks == [] then Output(s, []) else
      var n := |chunks| - 1;
      var before := RunChunks(s, chunks[..n]);
      var last := Run(before.state, chunks[n]);
      Output(last.state, before.bytes + last.bytes)
  }

  /** Chunking independence of the transducer: only the concatenation of the chunks matters. */
  lemma {:induction false} ChunkingIndependence(s: State, chunks: seq<seq<byte>>)
    ensures RunChunks(s, chunks) == Run(s, Concat(chunks))
  {
    if chunks != [] {
      var n := |chunks| - 1;
      ChunkingIndependence(s, chunks[..n]);
      RunConcat(s, Concat(chunks[..n]), chunks[n]);
    }
  }

  // ---------- The readers ----------

  datatype ReadResult = Bytes(count: nat) | Failed

  /** What an inner read will do: fail once, or deliver at most so many bytes. */
  datatype Outcome = Fail | AtMost(limit: nat)

  method CopyOut(data: seq<byte>, from: nat, n: nat, buf: array<byte>)
    requires n <= buf.Length && from + n <= |data|
    modifies buf
    ensures buf[..n] == data[from..from + n]
    ensures forall j :: n <= j < buf.Length ==> buf[j] == old(buf[j])
  {
    for i := 0 to n
      invariant forall j :: 0 <= j < i ==> buf[j] == data[from + j]
      invariant forall j :: n <= j < buf.Length ==> buf[j] == old(buf[j])
    {
      buf[i] := data[from + i];
    }
  }

  /** A source of bytes with an arbitrary schedule of read sizes and failures. */
  class Source {
    const data: seq<byte>
    var pos: nat
    var plan: seq<Outcome>

    constructor (data: seq<byte>, plan: seq<Outcome>)
      ensures this.data == data && pos == 0 && this.plan == plan
    {
      this.data := data;
      pos := 0;
      this.plan := plan;
    }

    method Read(buf: array<byte>) returns (r: ReadResult)
      requires pos <= |data|
      modifies this, buf
      ensures r.Failed? ==> pos == old(pos) && |plan| < |old(plan)|
      ensures r.Bytes? ==> |plan| <= |old(plan)|
      ensures r.Bytes? ==> r.count <= buf.Length && pos == old(pos) + r.count <= |data|
      ensures r.Bytes? ==> buf[..r.count] == data[old(pos)..pos]
      ensures r.Bytes? ==> (r.count == 0 <==> old(pos) == |data| || buf.Length == 0)
    {
      var want := buf.Length;
      if plan != [] {
        var next := plan[0];
        plan := plan[1..];
        if next.Fail? {
          return Failed;
        }
        want := Min(want, if next.limit == 0 then 1 else next.limit);
      }
      var n := Min(want, |data| - pos);
      CopyOut(data, pos, n, buf);
      pos := pos + n;
      r := Bytes(n);
    }
  }

  class JsonArrayUnwrapper {
    const inner: Source
    var started: bool
    var depth: I32
    var done: bool

    function Current(): State
      reads this
    {
      State(started, depth, done)
    }

    constructor (inner: Source)
      ensures this.inner == inner && Current() == INITIAL
    {
      this.inner := inner;
      started := false;
      depth := 0;
      done := false;
    }

    /** One byte of the compaction loop: update the state, write at outPos at most one byte. */
    method Compact(b: byte, buf: array<byte>, outPos: nat) returns (outPos': nat)
      requires outPos < buf.Length && !done
      modifies this`started, this`depth, this`done, buf
      ensures var r := Step(old(Current()), b);
        && Current() == r.state
        && outPos' == outPos + |r.bytes|
        && outPos' <= outPos + 1
        && buf[outPos..outPos'] == r.bytes
      ensures forall i :: 0 <= i < buf.Length && i != outPos ==> buf[i] == old(buf[i])
    {
      outPos' := outPos;
      if !started {
        if b == OPEN_BRACKET {
          started := true;
        }
        return;
      }
      if IsOpen(b) {
        depth := Deeper(depth);
        buf[outPos] := b;
        outPos' := outPos + 1;
      } else if IsClose(b) && depth > 0 {
        depth := depth - 1;
        buf[outPos] := b;
        outPos' := outPos + 1;
      } else if b == CLOSE_BRACKET {
        done := true;
      } else if b == COMMA && depth == 0 {
        buf[outPos] := SPACE;
        outPos' := outPos + 1;
      } else {
        buf[outPos] := b;
        outPos' := outPos + 1;
      }
    }

    /** The compaction loop over one chunk, in place: writing never overtakes reading. */
    method CompactChunk(buf: array<byte>, n: nat) returns (outPos: nat)
      requires n <= buf.Length && !done
      modifies this`started, this`depth, this`done, buf
      ensures outPos <= n
      ensures Output(Current(), buf[..outPos]) == Run(old(Current()), old(buf[..n]))
    {
      hide Run, Step;
      ghost var chunk, s := buf[..n], Current();
      RunNothing(s);
      outPos := 0;
      assert chunk[..0] == [] && buf[..0] == [];
      var i := 0;
      while i < n && !done
        invariant outPos <= i <= n
        invariant forall j :: i <= j < n ==> buf[j] == chunk[j]
        invariant Output(Current(), buf[..outPos]) == Run(s, chunk[..i])
      {
        ghost var written := buf[..outPos];
        var next := Compact(buf[i], buf, outPos);
        assert buf[..next] == written + buf[outPos..next];
        RunPush(s, chunk[..i], chunk[i]);
        assert chunk[..i + 1] == chunk[..i] + [chunk[i]];
        outPos := next;
        i := i + 1;
      }
      if i < n {
        assert chunk == chunk[..i] + chunk[i..];
        RunConcat(s, chunk[..i], chunk[i..]);
        DoneStaysDone(Current(), chunk[i..]);
        assert buf[..outPos] + [] == buf[..outPos];
      } else {
        assert chunk[..i] == chunk;
      }
    }

    /** `read`: the caller's buffer receives what the transducer makes of the bytes consumed. */
    method Read(buf: array<byte>) returns (r: ReadResult)
      requires inner.pos <= |inner.data|
      modifies this`started, this`depth, this`done, inner, buf
      ensures old(inner.pos) <= inner.pos <= |inner.data|
      ensures r.Bytes? ==> r.count <= buf.Length
      ensures var made := Run(old(Current()), inner.data[old(inner.pos)..inner.pos]);
        && (Current() == made.state || (inner.pos == |inner.data| && Current() == made.state.(done := true)))
        && made.bytes == if r.Failed? then [] else buf[..r.count]
      ensures r.Bytes? && r.count == 0 ==> done || buf.Length == 0
      ensures r.Bytes? && r.count > 0 ==> inner.pos > old(inner.pos)
      ensures r.Failed? ==> |inner.plan| < |old(inner.plan)|
      ensures |inner.plan| <= |old(inner.plan)|
    {
      hide Run, Step;
      ghost var from, s := inner.pos, Current();
      RunNothing(s);
      assert inner.data[from..from] == [] && buf[..0] == [];
      if done || buf.Length == 0 {
        return Bytes(0);
      }
      while true
        invariant from <= inner.pos <= |inner.data| && !done
        invariant Run(s, inner.data[from..inner.pos]) == Output(Current(), [])
        invariant |inner.plan| <= |old(inner.plan)|
        decreases |inner.data| - inner.pos
      {
        ghost var here := inner.pos;
        var got := inner.Read(buf);
        if got.Failed? {
          return Failed;
        }
        if got.count == 0 {
          done := true;
          assert buf[..0] == [];
          return Bytes(0);
        }
        ghost var chunk := buf[..got.count];
        var outPos := CompactChunk(buf, got.count);
        RunConcat(s, inner.data[from..here], chunk);
        assert inner.data[from..inner.pos] == inner.data[from..here] + chunk;
        if outPos > 0 || done {
          return Bytes(outPos);
        }
      }
    }
  }

  /** A caller that reads to the end with buffers of any sizes, retrying after failures. */
  method ReadToEnd(u: JsonArrayUnwrapper, sizes: seq<nat>) returns (out: seq<byte>)
    requires u.Current() == INITIAL && u.inner.pos == 0
    modifies u, u.inner
    ensures out == Run(INITIAL, u.inner.data).bytes
  {
    hide Run, Step;
    out := [];
    var turn := 0;
    ghost var data := u.inner.data;
    assert data[..0] == [];
    RunNothing(INITIAL);
    while true
      invariant turn <= |sizes| && u.inner.pos <= |data|
      invariant SoFar(data, u.inner.pos, u.Current(), out)
      decreases |sizes| - turn, |u.inner.plan|, |data| - u.inner.pos
    {
      var size := 32;
      if turn < |sizes| {
        size := sizes[turn];
        turn := turn + 1;
      }
      var buf := new byte[size](_ => 0);
      ghost var here, was := u.inner.pos, u.Current();
      var r := u.Read(buf);
      ghost var got := if r.Bytes? then buf[..r.count] else [];
      SoFarExtended(data, here, was, out, u.inner.pos, u.Current(), got);
      if r.Bytes? {
        out := out + buf[..r.count];
        if r.count == 0 && size > 0 {
          SoFarDone(data, u.inner.pos, u.Current(), out);
          return;
        }
      }
    }
  }

  /** The output so far is the transducer's over the bytes consumed, and so is the state, unless the end was seen. */
  ghost predicate SoFar(data: seq<byte>, pos: nat, s: State, out: seq<byte>)
    requires pos <= |data|
  {
    var made := Run(INITIAL, data[..pos]);
    out == made.bytes && (s == made.state || (pos == |data| && s == made.state.(done := true)))
  }

  lemma SoFarExtended(data: seq<byte>, pos: nat, s: State, out: seq<byte>, pos': nat, s': State, got: seq<byte>)
    requires pos <= pos' <= |data| && SoFar(data, pos, s, out)
    requires var made := Run(s, data[pos..pos']);
      made.bytes == got && (s' == made.state || (pos' == |data| && s' == made.state.(done := true)))
    ensures SoFar(data, pos', s', out + got)
  {
    hide Run;
    assert data[..pos'] == data[..pos] + data[pos..pos'];
    RunConcat(INITIAL, data[..pos], data[pos..pos']);
    if s != Run(INITIAL, data[..pos]).state {
      assert data[pos..pos'] == [];
      RunNothing(s);
      RunNothing(Run(INITIAL, data[..pos]).state);
    }
  }

  lemma SoFarDone(data: seq<byte>, pos: nat, s: State, out: seq<byte>)
    requires pos <= |data| && SoFar(data, pos, s, out) && s.done
    ensures out == Run(INITIAL, data).bytes
  {
    hide Run;
    assert data == data[..pos] + data[pos..];
    RunConcat(INITIAL, data[..pos], data[pos..]);
    var s0 := Run(INITIAL, data[..pos]).state;
    if s0.done {
      DoneStaysDone(s0, data[pos..]);
    } else {
      assert data[pos..] == [];
      RunNothing(s0);
    }
  }
}
