/** The transparent ("T") writer of contrib/zstd/zlibWrapper/gzwrite.c and the write half of
    gzseek64: small writes collect in a buffer, large ones bypass it, forward seeks become zeros
    when the next byte arrives. Writes to the descriptor may be partial but do not fail. */
module GzWrite {
  import opened Bytes
  import opened GzFile

  datatype Error = Z_OK | Z_DATA_ERROR

  /** What the writer's outcome depends on besides the calls: the old file length, the buffer size
      asked for, and what malloc happens to leave in the buffer. */
  datatype Env = Env(base: nat, want: nat, junk: nat -> Byte)

  /** Byte i of an endless repetition of the buffer's first `want` bytes. */
  function JunkAt(env: Env, i: nat): Byte
    requires env.want > 0
  {
    if i < env.want then env.junk(i) else JunkAt(env, i - env.want)
  }

  /** What n skipped bytes become: zeros, or, when gz_zero runs before the buffer exists, whatever
      malloc left there, over and over. */
  function Gap(env: Env, ready: bool, n: nat): (r: seq<Byte>)
    requires env.want > 0
    ensures |r| == n
  {
    if ready then Zeros(n) else seq(n, i requires 0 <= i => JunkAt(env, i))
  }

  /** What a caller sees: the bytes accepted so far (with the file's old content in front), the
      bytes a pending seek will add, and whether the buffer exists. */
  datatype Sink = Sink(content: seq<Byte>, pending: nat, ready: bool) {
    function Settled(env: Env): seq<Byte>
      requires env.want > 0
    {
      content + Gap(env, ready, pending)
    }

    /** gz_write makes the buffer before it looks at the seek request. */
    function Write(bytes: seq<Byte>): Sink {
      if bytes == [] then this else Sink(content + Zeros(pending) + bytes, 0, true)
    }

    /** gzputc looks at the seek request first. */
    function Putc(env: Env, c: int): Sink
      requires env.want > 0
    {
      Sink(Settled(env) + [c % 256], 0, true)
    }

    /** Where the next byte goes, counted from the old end of the file. */
    function Tell(base: nat): int {
      |content| + pending - base
    }

    /** A target behind the written bytes is refused, and takes the pending seek with it. */
    function Seek(base: nat, offset: int, whence: int): Sink {
      var target := if whence == SEEK_SET then offset else Tell(base) + offset;
      var at := |content| - base;
      if whence != SEEK_SET && whence != SEEK_CUR then this
      else if target < at then Sink(content, 0, ready)
      else Sink(content, target - at, ready)
    }
  }

  datatype Op = Write(bytes: seq<Byte>) | Putc(c: int) | Seek(offset: int, whence: int)

  function Apply(env: Env, s: Sink, op: Op): Sink
    requires env.want > 0
  {
    match op
    case Write(bytes) => s.Write(bytes)
    case Putc(c) => s.Putc(env, c)
    case Seek(offset, whence) => s.Seek(env.base, offset, whence)
  }

  function ApplyAll(env: Env, s: Sink, ops: seq<Op>): Sink
    requires env.want > 0
    decreases |ops|
  {
    if ops == [] then s else ApplyAll(env, Apply(env, s, ops[0]), ops[1..])
  }

  class GzWriter {
    var fd: seq<Byte>
    var input: array<Byte>
    var size: nat
    var nextIn: array<Byte>
    var nextOff: nat
    var availIn: nat
    var pos: int
    var seek: bool
    var skip: nat
    var err: Error
    const env: Env

    /** Between calls, whatever is buffered lies at the start of the input buffer. */
    ghost predicate Valid()
      reads this
    {
      && env.want >= 2
      && (size == 0 || (size == env.want && input.Length == 2 * env.want))
      && (availIn > 0 ==> size > 0 && nextIn == input && nextOff == 0 && availIn <= size)
      && (seek ==> skip > 0)
      && pos == |fd| + availIn - env.base
    }

    ghost function Abs(): Sink
      requires Valid()
      reads this, input
    {
      Sink(fd + (if availIn > 0 then input[..availIn] else []), if seek then skip else 0, size > 0)
    }

    constructor (content: seq<Byte>, env: Env)
      requires env.want >= 2 && env.base == |content|
      ensures Valid() && Abs() == Sink(content, 0, false) && this.env == env && err == Z_OK && fresh(input)
    {
      this.fd, this.env := content, env;
      size, nextOff, availIn, pos, seek, skip, err := 0, 0, 0, 0, false, 0, Z_OK;
      var none := new Byte[0];
      input, nextIn := none, none;
    }

    /** gz_init, direct mode: only the input buffer, double-sized for gzprintf, with the bytes
        malloc left in it. */
    method Init()
      requires Valid() && size == 0
      modifies this
      ensures Valid() && size == env.want && fresh(input)
      ensures input[..size] == Gap(env, false, size)
      ensures unchanged(`fd, `nextIn, `nextOff, `availIn, `pos, `seek, `skip, `err)
    {
      input := new Byte[2 * env.want](i requires 0 <= i => env.junk(i));
      size := env.want;
    }

    /** gz_comp, direct mode: everything at next_in goes to the descriptor, in order. */
    method Comp()
      requires nextOff + availIn <= nextIn.Length
      requires size == 0 ==> Valid()
      modifies this
      ensures fd == old(fd) + old(nextIn[nextOff..nextOff + availIn])
      ensures availIn == 0 && nextOff == old(nextOff + availIn) && nextIn == old(nextIn)
      ensures old(size) > 0 ==> size == old(size) && input == old(input)
      ensures old(size) == 0 ==> size == env.want && fresh(input) && input.Length == 2 * size
                                 && input[..size] == Gap(env, false, size)
      ensures unchanged(`pos, `seek, `skip, `err)
    {
      if size == 0 {
        Init();
      }
      WriteOut();
    }

    /** The loop of gz_comp: write() takes what it takes. */
    method WriteOut()
      requires nextOff + availIn <= nextIn.Length
      modifies this`fd, this`availIn, this`nextOff
      ensures fd == old(fd) + nextIn[old(nextOff)..old(nextOff + availIn)]
      ensures availIn == 0 && nextOff == old(nextOff + availIn)
    {
      ghost var from, source := nextOff, nextIn[..];
      while availIn > 0
        invariant from <= nextOff <= nextIn.Length && nextIn[..] == source
        invariant nextOff + availIn == old(nextOff + availIn)
        invariant fd == old(fd) + source[from..nextOff]
      {
        var put := Min(availIn, MAX_IO);
        var writ :| 1 <= writ <= put;
        fd := fd + nextIn[nextOff..nextOff + writ];
        assert source[from..nextOff] + source[nextOff..nextOff + writ] == source[from..nextOff + writ];
        availIn := availIn - writ;
        nextOff := nextOff + writ;
      }
    }

    /** Flush the input buffer if it holds anything. */
    method Drain()
      requires Valid()
      modifies this
      ensures Valid() && availIn == 0 && Abs() == old(Abs()) && fd == old(Abs().content)
      ensures unchanged(`size, `input, `pos, `seek, `skip, `err)
    {
      if availIn > 0 {
        Comp();
      }
    }

    /** gz_zero: the memset of the first turn has to serve every chunk. It does when the buffer
        exists, because a write leaves the buffer as it was and no later chunk is longer than the
        first. Without a buffer the first chunk has length zero, and the memset is spent on it. */
    method Zero(len: nat)
      requires Valid() && !seek
      modifies this, input
      ensures Valid() && availIn == 0 && !seek && err == old(err)
      ensures fd == old(Abs().content) + Gap(env, old(size) > 0, len)
      ensures old(size) > 0 ==> size == old(size) && input == old(input)
      ensures old(size) == 0 ==> (len > 0 ==> size > 0) && (input == old(input) || fresh(input))
    {
      hide Gap, JunkAt, Zeros;
      Drain();
      EmptyGap(env, size > 0);
      var first := true;
      var left: nat := len;
      ghost var start, ready := fd, size > 0;
      while left > 0
        invariant left <= len && Valid() && availIn == 0 && !seek && err == old(err)
        invariant fd == start + Gap(env, ready, len - left)
        invariant ready ==> size == old(size) && input == old(input)
        invariant !ready ==> (if first then size == 0 && input == old(input) else size > 0 && fresh(input))
        invariant first ==> left == len
        invariant size > 0 && !first ==> HoldsGap(ready, Min(size, len))
        invariant size > 0 && left > 0 ==> Multiple(len - left, size)
        decreases left, size == 0
      {
        var n: nat := if size > left then left else size;
        if first {
          Memset(n);
          ZerosAreGap(env, n);
          first := false;
        }
        ghost var chunk := input[..n];
        FewerHeld(ready, Min(size, len), n);
        ChunkOfGap(env, ready, len - left, n, chunk);
        PutChunk(n);
        FewerHeld(ready, size, Min(size, len));
        Regroup(start, Gap(env, ready, len - left), chunk);
        left := left - n;
      }
    }

    /** memset(in, 0, n) */
    method Memset(n: nat)
      requires n <= input.Length
      modifies input
      ensures input[..n] == Zeros(n)
    {
      forall i | 0 <= i < n {
        input[i] := 0;
      }
    }

    /** The first n bytes of the buffer are the first n bytes of a gap. */
    ghost predicate HoldsGap(ready: bool, n: nat)
      requires env.want > 0
      reads this, input
    {
      n <= input.Length && input[..n] == Gap(env, ready, n)
    }

    lemma FewerHeld(ready: bool, more: nat, n: nat)
      requires env.want > 0 && n <= more
      ensures HoldsGap(ready, more) ==> HoldsGap(ready, n)
    {
      if HoldsGap(ready, more) {
        assert input[..n] == input[..more][..n];
      }
    }

    /** The tail of a turn of gz_zero: n bytes from the start of the buffer are written out. */
    method PutChunk(n: nat)
      requires Valid() && availIn == 0 && n <= size
      modifies this
      ensures Valid() && availIn == 0 && unchanged(`seek, `skip, `err)
      ensures fd == old(fd) + old(input[..n])
      ensures old(size) > 0 ==> size == old(size) && input == old(input)
      ensures old(size) == 0 ==> size == env.want && fresh(input) && HoldsGap(false, size)
    {
      availIn, nextIn, nextOff := n, input, 0;
      pos := pos + n;
      Comp();
    }

    /** The seek request check that opens every write: afterwards nothing is pending. */
    method Settle()
      requires Valid()
      modifies this, input
      ensures Valid() && !seek && Abs().content == old(Abs().Settled(env)) && err == old(err)
      ensures old(size) > 0 ==> size == old(size) && input == old(input)
      ensures old(size) == 0 ==> (old(seek) ==> size > 0) && (input == old(input) || fresh(input))
    {
      if seek {
        seek := false;
        Zero(skip);
      }
    }

    /** The copy loop for short writes. */
    method WriteSmall(buf: array<Byte>, count: nat)
      requires Valid() && size > 0 && !seek && 0 < count <= buf.Length && buf != input
      modifies this, input
      ensures Valid() && !seek
      ensures Abs().content == old(Abs().content) + old(buf[..count])
      ensures unchanged(`size, `input, `err)
    {
      var at: nat, len: nat := 0, count;
      ghost var start, source := Abs().content, buf[..];
      while len > 0
        invariant Valid() && !seek && size > 0 && at + len == count
        invariant unchanged(`size, `input, `err) && buf[..] == source
        invariant Abs().content == start + source[..at]
        decreases len, availIn
      {
        var copy := FillBuffer(buf, at, len);
        Regroup(start, source[..at], source[at..at + copy]);
        assert source[..at] + source[at..at + copy] == source[..at + copy];
        at := at + copy;
        len := len - copy;
        if len > 0 {
          Drain();
        }
      }
      assert source[..count] == old(buf[..count]);
    }

    /** One turn of that loop: as much as fits goes behind what is buffered. */
    method FillBuffer(buf: array<Byte>, at: nat, len: nat) returns (copy: nat)
      requires Valid() && size > 0 && !seek && at + len <= buf.Length && buf != input
      modifies this, input
      ensures Valid() && !seek && unchanged(`size, `input, `err)
      ensures copy <= len && Abs().content == old(Abs().content) + buf[at..at + copy]
      ensures copy == len || availIn == size
      ensures availIn == old(availIn) + copy
    {
      if availIn == 0 {
        nextIn, nextOff := input, 0;
      }
      var have := nextOff + availIn;
      copy := Min(size - have, len);
      ghost var held := input[..have];
      CopyIn(have, buf, at, copy);
      availIn := availIn + copy;
      pos := pos + copy;
      assert input[..have + copy] == held + buf[at..at + copy];
      Regroup(fd, held, buf[at..at + copy]);
    }

    /** memcpy(in + have, buf + at, copy) */
    method CopyIn(have: nat, buf: array<Byte>, at: nat, copy: nat)
      requires have + copy <= input.Length && at + copy <= buf.Length && buf != input
      modifies input
      ensures input[..have] == old(input[..have])
      ensures input[have..have + copy] == buf[at..at + copy]
    {
      forall i | 0 <= i < copy {
        input[have + i] := buf[at + i];
      }
      ghost var copied, source := input[have..have + copy], buf[at..at + copy];
      forall i | 0 <= i < copy ensures copied[i] == source[i] {
        assert input[have + i] == buf[at + i];
      }
    }

    /** The direct loop for long writes: the caller's bytes go straight to the descriptor. */
    method WriteLarge(buf: array<Byte>, count: nat)
      requires Valid() && size > 0 && !seek && 0 < count <= buf.Length && buf != input
      modifies this
      ensures Valid() && !seek && availIn == 0
      ensures Abs().content == old(Abs().content) + buf[..count]
      ensures unchanged(`size, `input, `err)
    {
      Drain();
      ghost var start, source := fd, buf[..];
      nextIn, nextOff := buf, 0;
      var len: nat := count;
      while len > 0
        invariant len <= count && nextIn == buf && nextOff == count - len
        invariant Valid() && availIn == 0 && !seek && size > 0
        invariant unchanged(`size, `input, `err) && buf[..] == source
        invariant fd == start + source[..nextOff]
      {
        var n := Min(len, TWO_32 - 1);
        availIn := n;
        pos := pos + n;
        assert buf[nextOff..nextOff + n] == source[nextOff..nextOff + n];
        Regroup(start, source[..nextOff], source[nextOff..nextOff + n]);
        assert source[..nextOff] + source[nextOff..nextOff + n] == source[..nextOff + n];
        Comp();
        len := len - n;
      }
      assert source[..count] == buf[..count];
    }

    /** gz_write */
    method WriteBytes(buf: array<Byte>, len: nat) returns (put: nat)
      requires Valid() && len <= buf.Length && buf != input
      modifies this, input
      ensures Valid() && put == len && Abs() == old(Abs().Write(buf[..len]))
      ensures len > 0 ==> Abs().content == old(Abs().content) + Zeros(old(Abs().pending)) + old(buf[..len])
      ensures if len > 0 then Abs().pending == 0 && Abs().ready else Abs() == old(Abs())
      ensures input == old(input) || fresh(input)
      ensures err == old(err)
    {
      put := len;
      if len == 0 {
        return;
      }
      if size == 0 {
        Init();
      }
      Settle();
      if len < size {
        WriteSmall(buf, len);
      } else {
        WriteLarge(buf, len);
      }
    }

    /** gzwrite: a length that does not fit a signed int is an error, and errors stick. */
    method Gzwrite(buf: array<Byte>, len: nat) returns (r: nat)
      requires Valid() && len <= buf.Length && buf != input
      modifies this, input
      ensures Valid() && (input == old(input) || fresh(input))
      ensures old(err) != Z_OK || len >= INT_LIMIT ==> r == 0 && Abs() == old(Abs()) && err != Z_OK
      ensures old(err) == Z_OK && len < INT_LIMIT ==> r == len && Abs() == old(Abs().Write(buf[..len])) && err == Z_OK
      ensures old(err) == Z_OK && 0 < len < INT_LIMIT ==>
                && Abs().content == old(Abs().content) + Zeros(old(Abs().pending)) + old(buf[..len])
                && Abs().pending == 0 && Abs().ready
    {
      if err != Z_OK {
        return 0;
      }
      if len >= INT_LIMIT {
        err := Z_DATA_ERROR;
        return 0;
      }
      r := WriteBytes(buf, len);
    }

    /** The fast path of gzputc: one byte into the buffer if there is room. */
    method PutInBuffer(c: Byte) returns (ok: bool)
      requires Valid() && size > 0 && !seek
      modifies this, input
      ensures Valid() && !seek && unchanged(`input, `err, `size)
      ensures ok ==> Abs().content == old(Abs().content) + [c]
      ensures !ok ==> Abs() == old(Abs())
    {
      if availIn == 0 {
        nextIn, nextOff := input, 0;
      }
      var have := nextOff + availIn;
      ok := have < size;
      if ok {
        ghost var held := if availIn > 0 then input[..availIn] else [];
        assert held == input[..have];
        input[have] := c;
        assert input[..have + 1] == held + [c];
        availIn := availIn + 1;
        pos := pos + 1;
      }
    }

    /** gzputc: into the buffer when there is room, through gz_write when there is not. */
    method Gzputc(c: int) returns (r: int)
      requires Valid()
      modifies this, input
      ensures Valid() && (input == old(input) || fresh(input)) && err == old(err)
      ensures old(err) != Z_OK ==> r == -1 && Abs() == old(Abs())
      ensures old(err) == Z_OK ==> r == c % 256 && Abs() == old(Abs().Putc(env, c))
      ensures old(err) == Z_OK && (old(Abs().ready) || old(Abs().pending) == 0) ==>
                Abs().content == old(Abs().content) + Zeros(old(Abs().pending)) + [c % 256]
      ensures old(err) == Z_OK ==> Abs().pending == 0 && Abs().ready
    {
      if err != Z_OK {
        return -1;
      }
      Settle();
      if size > 0 {
        var ok := PutInBuffer(c % 256);
        if ok {
          return c % 256;
        }
      }
      var buf := new Byte[1];
      buf[0] := c % 256;
      assert buf[..1] == [c % 256];
      ghost var settled := Abs();
      var put := WriteBytes(buf, 1);
      assert settled.content + Zeros(0) == settled.content;
      r := c % 256;
    }

    /** gzseek64 on a writer */
    method Gzseek(offsetIn: int, whence: int) returns (r: int)
      requires Valid()
      modifies this
      ensures Valid() && input == old(input) && err == old(err)
      ensures old(err) != Z_OK ==> r == -1 && Abs() == old(Abs())
      ensures old(err) == Z_OK ==> Abs() == old(Abs()).Seek(env.base, offsetIn, whence)
      ensures Abs().content == old(Abs().content) && Abs().ready == old(Abs().ready)
      ensures r != -1 ==> r == Abs().Tell(env.base)
      ensures old(err) == Z_OK && (whence == SEEK_SET || whence == SEEK_CUR) ==>
                var target := if whence == SEEK_SET then offsetIn else old(Abs()).Tell(env.base) + offsetIn;
                r == if target < |old(Abs()).content| - env.base then -1 else target
    {
      if err != Z_OK {
        return -1;
      }
      if whence != SEEK_SET && whence != SEEK_CUR {
        return -1;
      }
      var offset := offsetIn;
      if whence == SEEK_SET {
        offset := offset - pos;
      } else if seek {
        offset := offset + skip;
      }
      seek := false;
      if offset < 0 {
        return -1;
      }
      if offset != 0 {
        seek := true;
        skip := offset;
      }
      r := pos + offset;
    }

    /** gztell64 */
    method Gztell() returns (r: int)
      requires Valid()
      ensures r == Abs().Tell(env.base)
    {
      r := pos + (if seek then skip else 0);
    }

    /** gzclose_w: the pending seek is written out and nothing stays in the buffer. */
    method Close()
      requires Valid()
      modifies this, input
      ensures availIn == 0 && fd == old(Abs().Settled(env))
    {
      Settle();
      if availIn == 0 {
        nextIn, nextOff := input, 0;
      }
      ghost var all := Abs().content;
      Comp();
      assert fd == all;
    }
  }

  predicate Multiple(at: nat, want: nat) {
    at == 0 || (want > 0 && at >= want && Multiple(at - want, want))
  }

  lemma {:induction false} JunkRepeats(env: Env, at: nat, i: nat)
    requires env.want > 0 && Multiple(at, env.want)
    ensures JunkAt(env, at + i) == JunkAt(env, i)
  {
    if at == 0 {
    } else {
      JunkRepeats(env, at - env.want, i);
    }
  }

  lemma EmptyGap(env: Env, ready: bool)
    requires env.want > 0
    ensures Gap(env, ready, 0) == []
  {
  }

  lemma ZerosAreGap(env: Env, n: nat)
    requires env.want > 0
    ensures Gap(env, true, n) == Zeros(n)
    ensures Gap(env, false, 0) == Zeros(0) == []
  {
  }

  /** One chunk of gz_zero, written from the start of the buffer, continues the gap. */
  lemma ChunkOfGap(env: Env, ready: bool, at: nat, n: nat, chunk: seq<Byte>)
    requires env.want > 0 && chunk == Gap(env, ready, n)
    requires n > 0 ==> Multiple(at, env.want)
    ensures Gap(env, ready, at) + chunk == Gap(env, ready, at + n)
  {
    forall i | 0 <= i < n ensures chunk[i] == Gap(env, ready, at + n)[at + i] {
      JunkRepeats(env, at, i);
    }
    assert |chunk| == n;
  }

  lemma {:induction false} ApplyOneMore(env: Env, s: Sink, ops: seq<Op>, i: nat)
    requires env.want > 0 && i < |ops|
    ensures ApplyAll(env, s, ops[..i + 1]) == Apply(env, ApplyAll(env, s, ops[..i]), ops[i])
    decreases i
  {
    if i == 0 {
      assert ops[..1][1..] == [];
    } else {
      var t := Apply(env, s, ops[0]);
      ApplyOneMore(env, t, ops[1..], i - 1);
      assert ops[1..][..i] == ops[..i + 1][1..];
      assert ops[1..][..i - 1] == ops[..i][1..];
    }
  }

  function Final(env: Env, ops: seq<Op>, content: seq<Byte>): seq<Byte>
    requires env.want > 0
  {
    ApplyAll(env, Sink(content, 0, false), ops).Settled(env)
  }

  /** The bytes a call hands over. */
  function Given(op: Op): seq<Byte> {
    match op
    case Write(bytes) => bytes
    case Putc(c) => [c % 256]
    case Seek(_, _) => []
  }

  /** Where the bytes accepted in the first i calls end, by the reported positions. */
  function Accepted(ops: seq<Op>, tells: seq<int>, i: nat): int
    requires i <= |ops| && |tells| == |ops| + 1
  {
    if i == 0 then 0
    else if Given(ops[i - 1]) != [] then tells[i]
    else Accepted(ops, tells, i - 1)
  }

  /** Some call handed over the byte at reported position p. */
  ghost predicate Covered(ops: seq<Op>, tells: seq<int>, p: int)
    requires |tells| == |ops| + 1
  {
    exists i :: 0 <= i < |ops| && Given(ops[i]) != [] && tells[i] <= p < tells[i + 1]
  }

  /** The account of the first i calls. */
  function At(env: Env, ops: seq<Op>, content: seq<Byte>, i: nat): Sink
    requires env.want > 0 && i <= |ops|
  {
    ApplyAll(env, Sink(content, 0, false), ops[..i])
  }

  ghost predicate Tells(env: Env, ops: seq<Op>, content: seq<Byte>, tells: seq<int>)
    requires env.want > 0
  {
    |tells| == |ops| + 1 && forall i :: 0 <= i <= |ops| ==> tells[i] == At(env, ops, content, i).Tell(env.base)
  }

  lemma {:induction false} ApplyRest(env: Env, s: Sink, ops: seq<Op>, i: nat)
    requires env.want > 0 && i <= |ops|
    ensures ApplyAll(env, s, ops) == ApplyAll(env, ApplyAll(env, s, ops[..i]), ops[i..])
    decreases i
  {
    if i == 0 {
      assert ops[..0] == [] && ops[0..] == ops;
    } else {
      ApplyRest(env, Apply(env, s, ops[0]), ops[1..], i - 1);
      assert ops[1..][..i - 1] == ops[..i][1..] && ops[1..][i - 1..] == ops[i..];
    }
  }

  /** What is accepted in the first i calls is in the file, at its place. */
  lemma AcceptedInFile(env: Env, ops: seq<Op>, content: seq<Byte>, i: nat)
    requires env.want > 0 && i <= |ops|
    ensures At(env, ops, content, i).content <= Final(env, ops, content)
  {
    ApplyRest(env, Sink(content, 0, false), ops, i);
    AcceptedBytesStay(env, At(env, ops, content, i), ops[i..]);
  }

  /** The bytes of a call lie in the file where the position reported before it says, whatever calls
      follow, and the position moves over them. */
  lemma LiesWhereReported(env: Env, ops: seq<Op>, content: seq<Byte>, i: nat)
    requires env.want > 0 && env.base == |content| && i < |ops| && Given(ops[i]) != []
    ensures var t, t' := At(env, ops, content, i).Tell(env.base), At(env, ops, content, i + 1).Tell(env.base);
            && t' == t + |Given(ops[i])|
            && Placed(content, Final(env, ops, content), t, t', Given(ops[i]))
  {
    hide At, Final, Given, Apply;
    var s, s' := At(env, ops, content, i), At(env, ops, content, i + 1);
    OneMoreCall(env, ops, content, i);
    OnlyGivenCounts(env, s, ops[i]);
    AcceptedInFile(env, ops, content, i + 1);
    OldContentStays(env, ops, content, i);
    var k, n := |s.content| + s.pending, |Given(ops[i])|;
    assert s'.content[k..k + n] == Given(ops[i]);
    assert Final(env, ops, content)[k..k + n] == s'.content[k..k + n];
  }

  lemma OneMoreCall(env: Env, ops: seq<Op>, content: seq<Byte>, i: nat)
    requires env.want > 0 && i < |ops|
    ensures At(env, ops, content, i + 1) == Apply(env, At(env, ops, content, i), ops[i])
  {
    ApplyOneMore(env, Sink(content, 0, false), ops, i);
  }

  lemma OldContentStays(env: Env, ops: seq<Op>, content: seq<Byte>, i: nat)
    requires env.want > 0 && i <= |ops|
    ensures content <= At(env, ops, content, i).content
  {
    AcceptedBytesStay(env, Sink(content, 0, false), ops[..i]);
  }

  /** Positions move by what is handed over, and otherwise only by seeks. A seek goes to its target,
      or, refused, to the end of what is accepted. */
  lemma {:induction false} AcceptedIs(env: Env, ops: seq<Op>, content: seq<Byte>, tells: seq<int>, i: nat)
    requires env.want > 0 && env.base == |content| && i <= |ops| && Tells(env, ops, content, tells)
    ensures Accepted(ops, tells, i) == |At(env, ops, content, i).content| - env.base
  {
    hide Apply;
    if i == 0 {
      assert ops[..0] == [];
    } else {
      AcceptedIs(env, ops, content, tells, i - 1);
      ApplyOneMore(env, Sink(content, 0, false), ops, i - 1);
      OnlyGivenCounts(env, At(env, ops, content, i - 1), ops[i - 1]);
    }
  }

  lemma OnlyGivenCounts(env: Env, s: Sink, op: Op)
    requires env.want > 0
    ensures Given(op) == [] ==> Apply(env, s, op).content == s.content
    ensures Given(op) != [] ==>
              var s' := Apply(env, s, op);
              && s'.pending == 0 && |s'.content| == |s.content| + s.pending + |Given(op)|
              && s'.content[|s.content| + s.pending..] == Given(op)
  {
  }

  lemma SeekMoves(env: Env, ops: seq<Op>, content: seq<Byte>, tells: seq<int>, i: nat)
    requires env.want > 0 && env.base == |content| && Tells(env, ops, content, tells)
    requires i < |ops| && Given(ops[i]) == []
    ensures Accepted(ops, tells, i) <= tells[i]
    ensures tells[i + 1] == Moved(ops[i], tells[i], Accepted(ops, tells, i))
  {
    AcceptedIs(env, ops, content, tells, i);
    ApplyOneMore(env, Sink(content, 0, false), ops, i);
  }

  /** The position after a call that hands nothing over. */
  function Moved(op: Op, t: int, accepted: int): int {
    if !op.Seek? || (op.whence != SEEK_SET && op.whence != SEEK_CUR) then t
    else
      var target := if op.whence == SEEK_SET then op.offset else t + op.offset;
      if target >= accepted then target else accepted
  }

  /** A clean run never comes to a pending seek without a buffer. */
  lemma {:induction false} NeverBare(env: Env, s: Sink, ops: seq<Op>, i: nat)
    requires env.want > 0 && !HitsBare(env, s, ops) && i <= |ops|
    ensures var t := ApplyAll(env, s, ops[..i]);
            i == |ops| || ops[i].Putc? ==> t.ready || t.pending == 0
    decreases i
  {
    if i == 0 {
      assert ops[..0] == [];
    } else {
      NeverBare(env, Apply(env, s, ops[0]), ops[1..], i - 1);
      assert ops[1..][..i - 1] == ops[..i][1..];
    }
  }

  /** In a clean run every byte that no call handed over is zero. */
  lemma {:induction false} RestIsZero(env: Env, ops: seq<Op>, content: seq<Byte>, tells: seq<int>, i: nat, p: nat)
    requires env.want > 0 && env.base == |content| && i <= |ops| && Tells(env, ops, content, tells)
    requires !HitsBare(env, Sink(content, 0, false), ops) && !Covered(ops, tells, p)
    ensures var s := At(env, ops, content, i);
            |content| <= |s.content| && (|content| + p < |s.content| ==> s.content[|content| + p] == 0)
  {
    if i == 0 {
      assert ops[..0] == [];
    } else {
      var op, s := ops[i - 1], At(env, ops, content, i - 1);
      RestIsZero(env, ops, content, tells, i - 1, p);
      ApplyOneMore(env, Sink(content, 0, false), ops, i - 1);
      OnlyGivenCounts(env, s, op);
      if Given(op) != [] {
        NeverBare(env, Sink(content, 0, false), ops, i - 1);
        LiesWhereReported(env, ops, content, i - 1);
        assert !(tells[i - 1] <= p < tells[i]);
        CleanStep(env, s, op);
      }
    }
  }

  lemma CleanStep(env: Env, s: Sink, op: Op)
    requires env.want > 0 && Given(op) != [] && (op.Putc? ==> s.ready || s.pending == 0)
    ensures Apply(env, s, op).content == s.content + Zeros(s.pending) + Given(op)
  {
  }

  /** The closing call adds the pending zeros. */
  lemma RestOfFileIsZero(env: Env, ops: seq<Op>, content: seq<Byte>, tells: seq<int>, p: nat)
    requires env.want > 0 && env.base == |content| && Tells(env, ops, content, tells)
    requires !HitsBare(env, Sink(content, 0, false), ops) && !Covered(ops, tells, p)
    requires p < tells[|ops|]
    ensures |Final(env, ops, content)| == |content| + tells[|ops|] && Final(env, ops, content)[|content| + p] == 0
  {
    RestIsZero(env, ops, content, tells, |ops|, p);
    NeverBare(env, Sink(content, 0, false), ops, |ops|);
    assert ops[..|ops|] == ops;
  }

  /** Writes and nothing else: the file is the old content and the buffers one after another. */
  lemma {:induction false} WritesOnly(env: Env, ops: seq<Op>, content: seq<Byte>, i: nat)
    requires env.want > 0 && i <= |ops| && forall j :: 0 <= j < |ops| ==> ops[j].Write?
    ensures At(env, ops, content, i).content == content + Concat(seq(i, j requires 0 <= j < i => ops[j].bytes))
    ensures At(env, ops, content, i).pending == 0
  {
    if i == 0 {
      assert ops[..0] == [];
    } else {
      WritesOnly(env, ops, content, i - 1);
      ApplyOneMore(env, Sink(content, 0, false), ops, i - 1);
      var before := seq(i - 1, j requires 0 <= j < i - 1 => ops[j].bytes);
      assert seq(i, j requires 0 <= j < i => ops[j].bytes) == before + [ops[i - 1].bytes];
      ConcatLast(before, ops[i - 1].bytes);
      Regroup(content, Concat(before), ops[i - 1].bytes);
    }
  }

  /** Conservation over whole runs. Any sequence of writes, putc calls and seeks, and the closing
      call, leaves the file that the byte-level account predicts, whatever the descriptor's partial
      writes were: the old content; then, at the position reported before each call, the bytes it
      handed over; and zeros everywhere else, if the run is clean. `tells` are the positions that
      gztell64 reports before each call and before the close. */
  method Run(content: seq<Byte>, env: Env, ops: seq<Op>) returns (file: seq<Byte>, tells: seq<int>)
    requires env.want >= 2 && env.base == |content|
    requires forall i :: 0 <= i < |ops| && ops[i].Write? ==> |ops[i].bytes| < INT_LIMIT
    ensures file == Final(env, ops, content)
    ensures |tells| == |ops| + 1 && tells[0] == 0 && |file| == |content| + tells[|ops|] && content <= file
    ensures forall i :: 0 <= i < |ops| && ops[i].Write? && ops[i].bytes != [] ==>
              && tells[i + 1] == tells[i] + |ops[i].bytes| && 0 <= tells[i] <= tells[i + 1] <= |file| - |content|
              && file[|content| + tells[i]..|content| + tells[i + 1]] == ops[i].bytes
    ensures forall i :: 0 <= i < |ops| && ops[i].Putc? ==>
              && tells[i + 1] == tells[i] + 1 && 0 <= |content| + tells[i] < |file|
              && file[|content| + tells[i]] == ops[i].c % 256
    ensures forall i :: 0 <= i < |ops| && Given(ops[i]) == [] ==>
              tells[i + 1] == Moved(ops[i], tells[i], Accepted(ops, tells, i))
    ensures !HitsBare(env, Sink(content, 0, false), ops) ==>
              forall p: nat :: p < tells[|ops|] && !Covered(ops, tells, p) ==> file[|content| + p] == 0
    ensures (forall i :: 0 <= i < |ops| ==> ops[i].Write?) ==>
              file == content + Concat(seq(|ops|, i requires 0 <= i < |ops| && ops[i].Write? => ops[i].bytes))
  {
    file, tells := Execute(content, env, ops);
    hide At, Final, HitsBare, Covered, Accepted, Moved, Tells, Given, Placed;
    Ends(env, ops, content, tells);
    AllLand(env, ops, content, tells);
    forall i | 0 <= i < |ops| && ops[i].Write? && ops[i].bytes != []
      ensures tells[i + 1] == tells[i] + |ops[i].bytes| && 0 <= tells[i] <= tells[i + 1] <= |file| - |content|
      ensures file[|content| + tells[i]..|content| + tells[i + 1]] == ops[i].bytes
    {
      WriteLands(content, file, tells[i], tells[i + 1], ops[i]);
    }
    forall i | 0 <= i < |ops| && ops[i].Putc?
      ensures tells[i + 1] == tells[i] + 1 && 0 <= |content| + tells[i] < |file|
      ensures file[|content| + tells[i]] == ops[i].c % 256
    {
      PutcLands(content, file, tells[i], tells[i + 1], ops[i]);
    }
    AllMove(env, ops, content, tells);
    if !HitsBare(env, Sink(content, 0, false), ops) {
      forall p: nat | p < tells[|ops|] && !Covered(ops, tells, p) ensures file[|content| + p] == 0 {
        RestOfFileIsZero(env, ops, content, tells, p);
      }
    }
    if forall i :: 0 <= i < |ops| ==> ops[i].Write? {
      OnlyBuffers(env, ops, content);
    }
  }

  /** These bytes lie in the file between two reported positions. */
  predicate Placed(content: seq<Byte>, file: seq<Byte>, from: int, to: int, bytes: seq<Byte>) {
    0 <= from <= to <= |file| - |content| && file[|content| + from..|content| + to] == bytes
  }

  lemma WriteLands(content: seq<Byte>, file: seq<Byte>, from: int, to: int, op: Op)
    requires op.Write? && op.bytes != [] && (Given(op) != [] ==> Placed(content, file, from, to, Given(op)))
    ensures to == from + |op.bytes| && 0 <= from <= to <= |file| - |content|
    ensures file[|content| + from..|content| + to] == op.bytes
  {
  }

  lemma PutcLands(content: seq<Byte>, file: seq<Byte>, from: int, to: int, op: Op)
    requires op.Putc? && (Given(op) != [] ==> Placed(content, file, from, to, Given(op)))
    ensures to == from + 1 && 0 <= |content| + from < |file| && file[|content| + from] == op.c % 256
  {
    assert file[|content| + from..|content| + to][0] == file[|content| + from];
  }

  lemma AllLand(env: Env, ops: seq<Op>, content: seq<Byte>, tells: seq<int>)
    requires env.want > 0 && env.base == |content| && Tells(env, ops, content, tells)
    ensures forall i :: 0 <= i < |ops| && Given(ops[i]) != [] ==>
              Placed(content, Final(env, ops, content), tells[i], tells[i + 1], Given(ops[i]))
  {
    hide At, Final, Given, Placed;
    forall i | 0 <= i < |ops| && Given(ops[i]) != []
      ensures Placed(content, Final(env, ops, content), tells[i], tells[i + 1], Given(ops[i]))
    {
      LiesWhereReported(env, ops, content, i);
    }
  }

  lemma AllMove(env: Env, ops: seq<Op>, content: seq<Byte>, tells: seq<int>)
    requires env.want > 0 && env.base == |content| && Tells(env, ops, content, tells)
    ensures forall i :: 0 <= i < |ops| && Given(ops[i]) == [] ==>
              tells[i + 1] == Moved(ops[i], tells[i], Accepted(ops, tells, i))
  {
    hide At, Moved, Accepted, Given;
    forall i | 0 <= i < |ops| && Given(ops[i]) == []
      ensures tells[i + 1] == Moved(ops[i], tells[i], Accepted(ops, tells, i))
    {
      SeekMoves(env, ops, content, tells, i);
    }
  }

  lemma Ends(env: Env, ops: seq<Op>, content: seq<Byte>, tells: seq<int>)
    requires env.want > 0 && env.base == |content| && Tells(env, ops, content, tells)
    ensures |tells| == |ops| + 1 && tells[0] == 0
    ensures |Final(env, ops, content)| == |content| + tells[|ops|] && content <= Final(env, ops, content)
  {
    AcceptedInFile(env, ops, content, 0);
    assert ops[..0] == [] && ops[..|ops|] == ops;
  }

  lemma OnlyBuffers(env: Env, ops: seq<Op>, content: seq<Byte>)
    requires env.want > 0 && forall j :: 0 <= j < |ops| ==> ops[j].Write?
    ensures Final(env, ops, content)
         == content + Concat(seq(|ops|, i requires 0 <= i < |ops| && ops[i].Write? => ops[i].bytes))
  {
    WritesOnly(env, ops, content, |ops|);
    assert ops[..|ops|] == ops;
    assert seq(|ops|, i requires 0 <= i < |ops| && ops[i].Write? => ops[i].bytes)
        == seq(|ops|, i requires 0 <= i < |ops| => ops[i].bytes);
  }

  method ExecuteOne(w: GzWriter, op: Op)
    requires w.Valid() && w.err == Z_OK && (op.Write? ==> |op.bytes| < INT_LIMIT)
    modifies w, w.input
    ensures w.Valid() && w.err == Z_OK && (w.input == old(w.input) || fresh(w.input))
    ensures w.Abs() == Apply(w.env, old(w.Abs()), op)
  {
    match op
    case Write(bytes) =>
      var buf := new Byte[|bytes|](j requires 0 <= j < |bytes| => bytes[j]);
      assert buf[..|bytes|] == bytes;
      var n := w.Gzwrite(buf, |bytes|);
    case Putc(c) =>
      var r := w.Gzputc(c);
    case Seek(offset, whence) =>
      var r := w.Gzseek(offset, whence);
  }

  method Execute(content: seq<Byte>, env: Env, ops: seq<Op>) returns (file: seq<Byte>, tells: seq<int>)
    requires env.want >= 2 && env.base == |content|
    requires forall i :: 0 <= i < |ops| && ops[i].Write? ==> |ops[i].bytes| < INT_LIMIT
    ensures file == Final(env, ops, content) && Tells(env, ops, content, tells)
  {
    var w := new GzWriter(content, env);
    tells := [0];
    assert ops[..0] == [];
    for i := 0 to |ops|
      invariant w.Valid() && fresh(w) && fresh(w.input) && w.err == Z_OK && w.env == env
      invariant w.Abs() == At(env, ops, content, i)
      invariant |tells| == i + 1 && forall j :: 0 <= j <= i ==> tells[j] == At(env, ops, content, j).Tell(env.base)
    {
      ApplyOneMore(env, Sink(content, 0, false), ops, i);
      ExecuteOne(w, ops[i]);
      var t := w.Gztell();
      tells := tells + [t];
    }
    assert ops[..|ops|] == ops;
    w.Close();
    file := w.fd;
  }

  /** The same account with every gap filled with zeros, which is what a seek promises. */
  function Ideal(env: Env): Env {
    env.(junk := _ => 0)
  }

  lemma {:induction false} ConstantJunk(env: Env, b: Byte, i: nat)
    requires env.want > 0 && forall j :: env.junk(j) == b
    ensures JunkAt(env, i) == b
  {
    if i >= env.want {
      ConstantJunk(env, b, i - env.want);
    }
  }

  lemma IdealGap(env: Env, ready: bool, n: nat)
    requires env.want > 0
    ensures Gap(Ideal(env), ready, n) == Zeros(n)
  {
    forall i: nat ensures JunkAt(Ideal(env), i) == 0 {
      ConstantJunk(Ideal(env), 0, i);
    }
  }

  /** A seek is pending, no buffer exists yet, and gzputc or the close gets to it first. */
  predicate HitsBare(env: Env, s: Sink, ops: seq<Op>)
    requires env.want > 0
    decreases |ops|
  {
    if ops == [] then !s.ready && s.pending > 0
    else if ops[0].Putc? && !s.ready && s.pending > 0 then true
    else HitsBare(env, Apply(env, s, ops[0]), ops[1..])
  }

  lemma {:induction false} CleanRunsAreIdeal(env: Env, s: Sink, ops: seq<Op>)
    requires env.want > 0 && !HitsBare(env, s, ops)
    ensures ApplyAll(env, s, ops).Settled(env) == ApplyAll(Ideal(env), s, ops).Settled(Ideal(env))
    decreases |ops|
  {
    IdealGap(env, s.ready, s.pending);
    if ops == [] {
    } else {
      assert Apply(env, s, ops[0]) == Apply(Ideal(env), s, ops[0]);
      CleanRunsAreIdeal(env, Apply(env, s, ops[0]), ops[1..]);
    }
  }

  /** Accepted bytes are never lost or moved. */
  lemma {:induction false} AcceptedBytesStay(env: Env, s: Sink, ops: seq<Op>)
    requires env.want > 0
    ensures s.content <= ApplyAll(env, s, ops).content
    decreases |ops|
  {
    if ops == [] {
    } else {
      AcceptedBytesStay(env, Apply(env, s, ops[0]), ops[1..]);
    }
  }

  /** When a run hits the bare buffer, memory full of ones ends up in the file. */
  lemma {:induction false} BareRunsShowJunk(env: Env, s: Sink, ops: seq<Op>)
    requires env.want > 0 && (forall j :: env.junk(j) == 1) && HitsBare(env, s, ops)
    ensures ApplyAll(env, s, ops).Settled(env) != ApplyAll(Ideal(env), s, ops).Settled(Ideal(env))
    decreases |ops|
  {
    var k := |s.content|;
    if !s.ready && s.pending > 0 && (ops == [] || ops[0].Putc?) {
      ConstantJunk(env, 1, 0);
      ConstantJunk(Ideal(env), 0, 0);
      assert Gap(env, false, s.pending)[0] == 1 && Gap(Ideal(env), false, s.pending)[0] == 0;
      assert s.Settled(env)[k] == 1 && s.Settled(Ideal(env))[k] == 0;
      if ops == [] {
      } else {
        var t, u := Apply(env, s, ops[0]), Apply(Ideal(env), s, ops[0]);
        AcceptedBytesStay(env, t, ops[1..]);
        AcceptedBytesStay(Ideal(env), u, ops[1..]);
        assert t.content[k] == 1 && u.content[k] == 0;
        assert ApplyAll(env, s, ops).Settled(env)[k] == 1;
        assert ApplyAll(Ideal(env), s, ops).Settled(Ideal(env))[k] == 0;
      }
    } else {
      IdealGap(env, s.ready, s.pending);
      assert Apply(env, s, ops[0]) == Apply(Ideal(env), s, ops[0]);
      BareRunsShowJunk(env, Apply(env, s, ops[0]), ops[1..]);
    }
  }

  /** Seeks become zeros, whatever malloc returns, exactly when no gzputc or close is the first to
      process a pending seek on a writer that has no buffer yet. */
  lemma SeeksBecomeZeros(base: nat, want: nat, ops: seq<Op>, content: seq<Byte>)
    requires want >= 2 && base == |content|
    ensures (forall junk: nat -> Byte ::
               Final(Env(base, want, junk), ops, content) == Final(Ideal(Env(base, want, junk)), ops, content))
            <==> !HitsBare(Env(base, want, _ => 1), Sink(content, 0, false), ops)
  {
    var s := Sink(content, 0, false);
    var ones: nat -> Byte := _ => 1;
    if HitsBare(Env(base, want, ones), s, ops) {
      BareRunsShowJunk(Env(base, want, ones), s, ops);
      assert Final(Env(base, want, ones), ops, content) != Final(Ideal(Env(base, want, ones)), ops, content);
    } else {
      forall junk: nat -> Byte
        ensures Final(Env(base, want, junk), ops, content) == Final(Ideal(Env(base, want, junk)), ops, content)
      {
        BareIgnoresJunk(Env(base, want, ones), Env(base, want, junk), s, s, ops);
        CleanRunsAreIdeal(Env(base, want, junk), s, ops);
      }
    }
  }

  /** Whether a run hits the bare buffer depends on lengths only. */
  lemma {:induction false} BareIgnoresJunk(env: Env, other: Env, s: Sink, t: Sink, ops: seq<Op>)
    requires env.want > 0 && other.want > 0 && env.base == other.base
    requires |s.content| == |t.content| && s.pending == t.pending && s.ready == t.ready
    ensures HitsBare(env, s, ops) == HitsBare(other, t, ops)
    decreases |ops|
  {
    if ops == [] {
    } else {
      BareIgnoresJunk(env, other, Apply(env, s, ops[0]), Apply(other, t, ops[0]), ops[1..]);
    }
  }

  /** Seek three bytes ahead on a new file, put one byte, close: the three bytes are not zeros. */
  lemma BareExample(junk: nat -> Byte)
    requires junk(0) == 7 && junk(1) == 7 && junk(2) == 7
    ensures Final(Env(0, 8192, junk), [Seek(3, SEEK_SET), Putc(65)], []) == [7, 7, 7, 65]
  {
    var env := Env(0, 8192, junk);
    var ops := [Seek(3, SEEK_SET), Putc(65)];
    var s := Sink([], 0, false);
    assert ops[1..] == [Putc(65)] && ops[1..][1..] == [];
    var t := Sink([], 3, false);
    assert Apply(env, s, ops[0]) == t;
    assert Gap(env, false, 3) == [7, 7, 7];
    assert ApplyAll(env, t, [Putc(65)]) == Apply(env, t, Putc(65));
  }

  /** A refused backward seek also cancels the seek that was pending. */
  lemma RefusedSeekCancels(s: Sink, base: nat, offset: int)
    requires base <= |s.content| && s.pending > 0
    requires s.Tell(base) + offset < |s.content| - base
    ensures s.Seek(base, offset, SEEK_CUR).pending == 0
    ensures s.Seek(base, offset, SEEK_CUR).Tell(base) < s.Tell(base)
  {
  }
}
