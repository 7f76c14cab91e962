/** The raw (COPY) reader of contrib/zstd/zlibWrapper/gzread.c and the read half of gzlib.c:
    buffered and direct reads, seeks, rewinds and push-back over one file. Reads from the
    descriptor may be short but do not fail. */
module GzRead {
  import opened Bytes
  import opened GzFile

  datatype How = LOOK | COPY | GZIP
  datatype Error = Z_OK | Z_DATA_ERROR | Z_STREAM_ERROR

  function Drop(s: seq<Byte>, n: nat): (r: seq<Byte>)
    ensures |r| == if n >= |s| then 0 else |s| - n
    ensures n == 0 ==> r == s
    ensures n >= |s| ==> r == []
  {
    if n >= |s| then [] else s[n..]
  }

  function Take(s: seq<Byte>, n: nat): (r: seq<Byte>)
    ensures |r| == if n >= |s| then |s| else n
    ensures n == 0 ==> r == []
    ensures n >= |s| ==> r == s
  {
    if n >= |s| then s else s[..n]
  }

  /** The header check of gz_look: gzip's and zstd's first two bytes. */
  predicate Magic(s: seq<Byte>) {
    |s| > 1 && ((s[0] == 31 && s[1] == 139) || (s[0] == 40 && s[1] == 181))
  }

  lemma DropDrop(s: seq<Byte>, m: nat, n: nat)
    ensures Drop(Drop(s, m), n) == Drop(s, m + n)
  {
  }

  lemma TakeDrop(s: seq<Byte>, n: nat)
    ensures Take(s, n) + Drop(s, n) == s
  {
  }

  lemma TakeTake(s: seq<Byte>, m: nat, n: nat)
    ensures Take(s, m) + Take(Drop(s, m), n) == Take(s, m + n)
  {
  }

  lemma MagicInFront(s: seq<Byte>, n: nat)
    requires n >= 2
    ensures Magic(Take(s, n)) == Magic(s)
  {
  }

  /** s with `bytes` over the positions from `at` on. */
  function Splice(s: seq<Byte>, at: nat, bytes: seq<Byte>): (r: seq<Byte>)
    requires at + |bytes| <= |s|
    ensures |r| == |s|
  {
    s[..at] + bytes + s[at + |bytes|..]
  }

  lemma SpliceSplice(s: seq<Byte>, at: nat, a: seq<Byte>, b: seq<Byte>)
    requires at + |a| + |b| <= |s|
    ensures Splice(Splice(s, at, a), at + |a|, b) == Splice(s, at, a + b)
  {
  }

  lemma SpliceNothing(s: seq<Byte>, at: nat)
    requires at <= |s|
    ensures Splice(s, at, []) == s
  {
  }

  lemma SpliceParts(s: seq<Byte>, at: nat, a: seq<Byte>)
    requires at + |a| <= |s|
    ensures var r := Splice(s, at, a);
            r[..at] == s[..at] && r[at..at + |a|] == a && r[at + |a|..] == s[at + |a|..]
  {
  }

  lemma TakeFromFront(front: seq<Byte>, back: seq<Byte>, n: nat)
    requires n <= |front|
    ensures Take(front + back, n) == front[..n]
  {
  }

  lemma SpliceFirst(s: seq<Byte>, text: seq<Byte>, n: nat)
    requires 0 < n && |Take(text, n)| <= |s| && text != []
    ensures Splice(s, 0, Take(text, n))[0] == text[0]
  {
  }

  lemma DropFromFront(front: seq<Byte>, back: seq<Byte>, n: nat)
    requires n <= |front|
    ensures Drop(front + back, n) == front[n..] + back
  {
  }

  function Less(m: nat, n: nat): nat {
    if m <= n then 0 else m - n
  }

  /** A usable buffer size: gzbuffer refuses anything smaller. */
  type Want = w: nat | w >= 2 witness 2

  /** What one fill brings: the first look takes the input buffer's size, every later one twice that. */
  function Chunk(how: How, want: Want): nat {
    if how == LOOK then want else 2 * want
  }

  /** How many bytes stay buffered when s more are taken out of an empty buffer, with `rest` bytes
      still in the file: filled as often as it takes, but a `direct` taker reads past the buffer when
      it wants as much as that holds. */
  function AfterEmpty(direct: bool, how: How, want: Want, rest: nat, s: nat): nat
    decreases rest
  {
    if rest == 0 || (direct && how != LOOK && s >= 2 * want) then 0
    else
      var b := Min(Chunk(how, want), rest);
      if s <= b then b - s else AfterEmpty(direct, COPY, want, rest - b, s - b)
  }

  /** The same with h bytes buffered at first. */
  function Kept(direct: bool, how: How, want: Want, h: nat, rest: nat, s: nat): nat {
    if s <= h then h - s else AfterEmpty(direct, how, want, rest, s - h)
  }

  lemma {:induction false} AfterEmptyHasRoom(direct: bool, how: How, want: Want, rest: nat, s: nat)
    requires s > 0
    ensures AfterEmpty(direct, how, want, rest, s) < 2 * want
    decreases rest
  {
    if rest == 0 || (direct && how != LOOK && s >= 2 * want) {
    } else {
      var b := Min(Chunk(how, want), rest);
      if s > b {
        AfterEmptyHasRoom(direct, COPY, want, rest - b, s - b);
      }
    }
  }

  /** One fill of the empty buffer on the way. */
  lemma KeptFetch(direct: bool, how: How, how': How, want: Want, rest: nat, s: nat)
    requires s > 0 && !(direct && how != LOOK && s >= 2 * want)
    requires rest > 0 ==> how' == COPY
    ensures var b := Min(Chunk(how, want), rest);
            Kept(direct, how, want, 0, rest, s) == Kept(direct, how', want, b, rest - b, s)
  {
  }

  /** Taking buffered bytes on the way. */
  lemma KeptTake(direct: bool, how: How, want: Want, h: nat, rest: nat, n: nat, s: nat)
    requires n <= h && n <= s
    ensures Kept(direct, how, want, h, rest, s) == Kept(direct, how, want, h - n, rest, s - n)
  {
  }

  /** A direct read keeps the buffer empty. */
  lemma KeptDirect(how: How, want: Want, rest: nat, s: nat, n: nat)
    requires how != LOOK && s >= 2 * want && n == Min(s, rest)
    ensures Kept(true, how, want, 0, rest, s) == Kept(true, how, want, 0, rest - n, s - n) == 0
  {
  }

  class GzReader {
    const file: seq<Byte>
    const start: nat
    const want: Want
    var fdPos: nat
    var size: nat
    var input: array<Byte>
    var out: array<Byte>
    var have: nat
    var next: nat
    var pos: int
    var how: How
    var direct: bool
    var eof: bool
    var past: bool
    var seek: bool
    var skip: nat
    var err: Error
    var availIn: nat
    var nextIn: nat

    /** Buffers exist all together or not at all. */
    ghost predicate Buffers()
      reads `size, `input, `out, `have, `how, `next
    {
      && (size == 0 || (size == want && input.Length == size && out.Length == 2 * size && input != out))
      && (size == 0 ==> have == 0 && how == LOOK)
      && (have > 0 ==> next + have <= out.Length)
    }

    /** The invariant of an error-free raw reader: the descriptor stands exactly where the position
        and the bytes still buffered say. */
    ghost predicate Good()
      reads this
    {
      && Buffers()
      && err == Z_OK && availIn == 0 && direct && how != GZIP
      && !Magic(Drop(file, start))
      && fdPos == start + pos + have && fdPos >= start
      && (how == LOOK ==> fdPos == start)
      && (eof ==> fdPos >= |file| && size > 0)
      && (seek ==> skip > 0 && have == 0)
    }

    ghost function Buffered(): (r: seq<Byte>)
      requires Buffers()
      reads `size, `input, `out, `have, `how, `next, out
      ensures |r| == have
    {
      if have > 0 then out[next..next + have] else []
    }

    /** The bytes to come, pending seek not yet applied. */
    ghost function Rest(): seq<Byte>
      requires Buffers()
      reads `size, `input, `out, `have, `how, `next, `fdPos, out
    {
      Buffered() + Drop(file, fdPos)
    }

    /** The bytes to come, as the next read will see them. */
    ghost function View(): seq<Byte>
      requires Buffers()
      reads `size, `input, `out, `have, `how, `next, `fdPos, `seek, `skip, out
    {
      Drop(Rest(), if seek then skip else 0)
    }

    /** What gz_look makes of the reader: an empty input leaves it looking. */
    ghost function Looked(): How
      reads this
    {
      if how == LOOK && Drop(file, start) == [] then LOOK else COPY
    }

    /** How many bytes stay buffered when n are taken. */
    ghost function Owed(direct: bool, n: nat): nat
      requires Buffers()
      reads this, out
    {
      Kept(direct, how, want, have, |Rest()| - have, n)
    }

    /** The same for a read, which applies a pending skip first. */
    ghost function ReadOwed(n: nat): nat
      requires Buffers()
      reads this, out
    {
      if !seek then Owed(true, n)
      else
        var left := Owed(false, skip);
        Kept(true, COPY, want, left, Less(Less(|Rest()|, skip), left), n)
    }

    ghost function Tell(): int
      reads this
    {
      pos + (if seek then skip else 0)
    }

    /** What is buffered is what the file holds there: true until something is pushed back. */
    ghost predicate Clean()
      requires Buffers()
      reads `size, `input, `out, `have, `how, `next, `fdPos, `pos, out
    {
      pos >= 0 && Rest() == Drop(file, start + pos)
    }

    /** The logical stream from position p. */
    ghost function At(p: nat): seq<Byte> {
      Drop(file, start + p)
    }

    lemma CleanView()
      requires Good() && Clean()
      ensures Tell() >= 0 && View() == At(Tell())
    {
      hide Drop;
      DropDrop(file, start + pos, if seek then skip else 0);
    }

    /** gz_open on a descriptor at `start`, after gzbuffer. */
    constructor (file: seq<Byte>, start: nat, want: Want)
      requires !Magic(Drop(file, start))
      ensures Good() && Clean() && Tell() == 0 && !past && fresh(out) && fresh(input)
      ensures this.file == file && this.start == start && this.want == want && size == 0
    {
      this.file, this.start, this.want := file, start, want;
      fdPos, size, have, next, pos, how, direct := start, 0, 0, 0, 0, LOOK, true;
      eof, past, seek, skip, err, availIn, nextIn := false, false, false, 0, Z_OK, 0, 0;
      var none := new Byte[0];
      input, out := none, none;
    }

    /** One read() call: at least a byte, at most what is asked for and there, none at the end. */
    method ReadSome(buf: array<Byte>, at: nat, get: nat) returns (ret: nat)
      requires at + get <= buf.Length
      modifies this`fdPos, buf
      ensures ret <= get && ret <= |Drop(file, old(fdPos))| && fdPos == old(fdPos) + ret
      ensures ret == 0 ==> get == 0 || Drop(file, fdPos) == []
      ensures buf[..] == Splice(old(buf[..]), at, Take(Drop(file, old(fdPos)), ret))
    {
      var most := if fdPos >= |file| then 0 else Min(get, |file| - fdPos);
      ret := 0;
      if most > 0 {
        ret :| 1 <= ret <= most;
      }
      forall i | 0 <= i < ret {
        buf[at + i] := file[fdPos + i];
      }
      assert buf[..] == Splice(old(buf[..]), at, Take(Drop(file, fdPos), ret));
      fdPos := fdPos + ret;
    }

    /** gz_load: read until `len` bytes are there or a read returns none. */
    method Load(buf: array<Byte>, off: nat, len: nat) returns (got: nat)
      requires off + len <= buf.Length
      modifies this`fdPos, this`eof, buf
      ensures got == |Take(Drop(file, old(fdPos)), len)| <= len
      ensures fdPos == old(fdPos) + got
      ensures buf[..] == Splice(old(buf[..]), off, Take(Drop(file, old(fdPos)), len))
      ensures eof == (old(eof) || got < len || len == 0)
      ensures old(eof) != eof ==> fdPos >= |file| || len == 0
    {
      hide Drop, Take, Splice;
      got := 0;
      ghost var from, all, before := fdPos, Drop(file, fdPos), buf[..];
      SpliceNothing(before, off);
      var again := true;
      while again
        invariant got <= len && got <= |all| && fdPos == from + got
        invariant buf[..] == Splice(before, off, Take(all, got))
        invariant again ==> eof == old(eof) && (got < len || got == 0)
        invariant !again ==> eof == (old(eof) || got < len || len == 0)
        invariant !again && got < len ==> got == |all|
        decreases again, len - got
      {
        var ret := ReadSome(buf, off + got, Min(len - got, MAX_IO));
        DropDrop(file, from, got);
        TakeTake(all, got, ret);
        SpliceSplice(before, off, Take(all, got), Take(Drop(all, got), ret));
        got := got + ret;
        if ret == 0 {
          eof := true;
          again := false;
        } else {
          again := got < len;
        }
      }
      assert Take(all, len) == Take(all, got);
    }

    /** Input loaded but not yet looked at. */
    ghost function Leftover(): (r: seq<Byte>)
      requires availIn > 0 ==> nextIn + availIn <= input.Length
      reads this, input
      ensures |r| == availIn
    {
      if availIn > 0 then input[nextIn..nextIn + availIn] else []
    }

    /** gz_avail: move what is left of the input to the front and fill the rest. */
    method Avail()
      requires size > 0 && input.Length == size && err == Z_OK
      requires availIn > 0 ==> nextIn + availIn <= size
      modifies this`fdPos, this`eof, this`availIn, this`nextIn, input
      ensures old(eof) ==> unchanged(this) && unchanged(input)
      ensures !old(eof) ==>
                && nextIn == 0 && old(availIn) <= availIn <= size
                && fdPos == old(fdPos) + (availIn - old(availIn))
      ensures !old(eof) ==> Leftover() == old(Leftover()) + Take(Drop(file, old(fdPos)), size - old(availIn))
      ensures !old(eof) ==> eof == (availIn < size || old(availIn) == size)
    {
      hide Drop, Take, Splice;
      if !eof {
        ghost var left := Leftover();
        var n := availIn;
        if n > 0 {
          MoveDown(nextIn, n);
        }
        assert input[..n] == left;
        var got := LoadBehind(n);
        availIn := availIn + got;
        nextIn := 0;
        assert input[0..availIn] == input[..n + got];
      }
    }

    /** The rest of the input buffer, filled from the file. */
    method LoadBehind(n: nat) returns (got: nat)
      requires n <= size == input.Length
      modifies this`fdPos, this`eof, input
      ensures got <= size - n && fdPos == old(fdPos) + got
      ensures input[..n + got] == old(input[..n]) + Take(Drop(file, old(fdPos)), size - n)
      ensures eof == (old(eof) || got < size - n || size == n)
    {
      hide Drop, Take, Splice;
      ghost var before, data := input[..], Take(Drop(file, fdPos), size - n);
      got := Load(input, n, size - n);
      SpliceParts(before, n, data);
      Behind(input[..], n, got, before[..n], data);
    }

    lemma Behind(s: seq<Byte>, n: nat, got: nat, left: seq<Byte>, right: seq<Byte>)
      requires n + got <= |s| && s[..n] == left && s[n..n + got] == right
      ensures s[..n + got] == left + right && s[0..n + got] == left + right
    {
    }

    /** The byte-by-byte move to the front; the areas may overlap. */
    method MoveDown(q: nat, n: nat)
      requires q + n <= input.Length
      modifies input
      ensures input[..n] == old(input[q..q + n])
    {
      ghost var left := input[q..q + n];
      for p := 0 to n
        invariant input[..p] == left[..p]
        invariant input[q + p..q + n] == left[p..]
      {
        assert input[q + p] == left[p..][0];
        input[p] := input[q + p];
        assert input[..p + 1] == left[..p] + [left[p]];
        assert input[q + p + 1..q + n] == left[p..][1..];
      }
    }

    method Allocate()
      requires Good() && size == 0
      modifies this`size, this`input, this`out, this`availIn, this`nextIn
      ensures Good() && size > 0 && fresh(input) && fresh(out) && Rest() == old(Rest())
    {
      input := new Byte[want];
      out := new Byte[2 * want];
      size := want;
      availIn, nextIn := 0, 0;
    }

    /** gz_look on a raw file: whatever the header check loaded becomes output. */
    method Look()
      requires Good() && !seek && have == 0 && how == LOOK
      modifies this, input, out
      ensures Good() && size > 0 && unchanged(`pos, `seek, `skip, `past)
      ensures Rest() == old(Rest())
      ensures if old(Rest()) == [] then how == LOOK && have == 0 && eof else how == COPY && have > 0
      ensures have == Min(want, |old(Rest())|)
      ensures (input == old(input) && out == old(out)) || (fresh(input) && fresh(out))
    {
      hide Drop, Take, Leftover, Magic;
      if size == 0 {
        Allocate();
      }
      RestAtStart();
      if availIn < 2 {
        LookLoad();
        if availIn == 0 {
          return;
        }
      }
      if availIn > 1 {
        NotMagic();
      }
      if availIn > 1 && ((input[nextIn] == 31 && input[nextIn + 1] == 139)
            || (input[nextIn] == 40 && input[nextIn + 1] == 181)) {
        assert false;
      }
      LookCopy();
    }

    lemma RestAtStart()
      requires Good() && have == 0 && how == LOOK
      ensures Rest() == Drop(file, start)
    {
    }

    lemma NotMagic()
      requires Loaded() && availIn > 1
      ensures !(input[nextIn] == 31 && input[nextIn + 1] == 139) && !(input[nextIn] == 40 && input[nextIn + 1] == 181)
    {
      MagicInFront(Drop(file, start), size);
      assert input[nextIn] == Leftover()[0] && input[nextIn + 1] == Leftover()[1];
    }

    /** Between the load and the copy of gz_look: the first input is loaded and not yet passed on. */
    ghost predicate Loaded()
      reads this, input
    {
      && Buffers() && size > 0 && !seek && have == 0 && how == LOOK && pos == 0
      && err == Z_OK && direct && !Magic(Drop(file, start))
      && 0 < availIn <= size && nextIn + availIn <= input.Length && fdPos == start + availIn
      && (eof ==> fdPos >= |file|)
      && Leftover() == Take(Drop(file, start), size)
    }

    method LookLoad()
      requires Good() && !seek && have == 0 && how == LOOK && size > 0
      modifies this`fdPos, this`eof, this`availIn, this`nextIn, input
      ensures if Drop(file, start) == [] then Good() && eof && availIn == 0 else Loaded()
      ensures Rest() == Drop(file, fdPos)
    {
      hide Drop, Take;
      Avail();
    }

    method LookCopy()
      requires Loaded()
      modifies this`next, this`have, this`availIn, this`how, this`direct, out
      ensures Good() && how == COPY && have > 0 && Rest() == Drop(file, start)
      ensures have == Min(size, |Drop(file, start)|)
    {
      hide Drop, Take;
      ghost var rest := Drop(file, start);
      next := 0;
      if availIn > 0 {
        CopyToOut();
        have := availIn;
        availIn := 0;
        TakeDrop(rest, size);
        DropDrop(file, start, size);
        assert Drop(file, fdPos) == Drop(rest, size);
      }
      how := COPY;
      direct := true;
    }

    /** memcpy(x.next, next_in, avail_in) */
    method CopyToOut()
      requires input != out && nextIn + availIn <= input.Length && availIn <= out.Length
      modifies out
      ensures out[..availIn] == input[nextIn..nextIn + availIn]
    {
      forall i | 0 <= i < availIn {
        out[i] := input[nextIn + i];
      }
    }

    /** The COPY case of gz_fetch: the whole output buffer is filled from the file. */
    method FetchCopy()
      requires Good() && !seek && have == 0 && how == COPY
      modifies this, out
      ensures Good() && unchanged(`pos, `seek, `skip, `past, `size, `input, `out, `how) && Rest() == old(Rest())
      ensures (have > 0 || eof) && have == Min(2 * want, |old(Rest())|)
    {
      hide Drop, Take, Splice;
      ghost var rest, from, before := Drop(file, fdPos), fdPos, out[..];
      have := Load(out, 0, 2 * size);
      next := 0;
      SpliceParts(before, 0, Take(rest, 2 * size));
      assert Buffered() == Take(rest, 2 * size);
      TakeDrop(rest, 2 * size);
      DropDrop(file, from, 2 * size);
      assert Drop(file, fdPos) == Drop(rest, 2 * size);
    }

    /** gz_fetch: the output buffer gets something unless the input has ended. */
    method Fetch()
      requires Good() && !seek && have == 0
      modifies this, input, out
      ensures Good() && size > 0 && unchanged(`pos, `seek, `skip, `past) && Rest() == old(Rest())
      ensures (have > 0 || eof) && how == old(Looked()) && have == Min(Chunk(old(how), want), |old(Rest())|)
      ensures (input == old(input) && out == old(out)) || (fresh(input) && fresh(out))
    {
      if how == LOOK {
        RestAtStart();
        Look();
      } else {
        FetchCopy();
      }
    }

    /** gz_fetch on the way to taking s bytes. */
    method FetchFor(ghost direct: bool, ghost s: nat)
      requires Good() && !seek && have == 0 && s > 0 && !(direct && how == COPY && s >= 2 * want)
      modifies this, input, out
      ensures Good() && size > 0 && unchanged(`pos, `seek, `skip, `past) && Rest() == old(Rest())
      ensures (have > 0 || eof) && how == old(Looked()) && Owed(direct, s) == old(Owed(direct, s))
      ensures (input == old(input) && out == old(out)) || (fresh(input) && fresh(out))
    {
      hide Drop, Kept, Magic;
      ghost var before, rest := how, |Rest()|;
      if how == LOOK {
        RestAtStart();
      }
      Fetch();
      KeptFetch(direct, before, how, want, rest, s);
    }

    /** Taking n buffered bytes away. */
    method Consume(n: nat)
      requires Good() && n <= have
      modifies this`have, this`next, this`pos
      ensures Good() && Rest() == Drop(old(Rest()), n)
      ensures have == old(have) - n && pos == old(pos) + n
    {
      hide Drop, Magic;
      DropFromFront(Buffered(), Drop(file, fdPos), n);
      ghost var front := Buffered();
      have := have - n;
      next := next + n;
      pos := pos + n;
      assert Buffered() == front[n..];
    }

    lemma Ended()
      requires Good() && have == 0 && eof
      ensures Rest() == []
    {
    }

    /** One turn of the gz_skip loop. */
    method SkipTurn(len: nat) returns (n: nat, ended: bool)
      requires Good() && !seek && len > 0 && (size > 0 || !eof)
      modifies this, input, out
      ensures Good() && !seek && size > 0 && unchanged(`past) && n <= len && n <= |old(Rest())|
      ensures Rest() == Drop(old(Rest()), n) && pos == old(pos) + n
      ensures (input == old(input) && out == old(out)) || (fresh(input) && fresh(out))
      ensures ended ==> n == 0 && Rest() == [] && have == 0
      ensures n > 0 ==> have < 2 * size
      ensures !ended && n == 0 ==> old(have) == 0 && (have > 0 || (!old(eof) && eof))
      ensures how == old(how) || how == old(Looked())
      ensures Owed(false, len - n) == old(Owed(false, len))
    {
      hide Drop, Kept, Magic;
      n, ended := 0, false;
      if have > 0 {
        n := if have > len then len else have;
        KeptTake(false, how, want, have, |Rest()| - have, n, len);
        Consume(n);
      } else if eof && availIn == 0 {
        Ended();
        ended := true;
      } else {
        FetchFor(false, len);
      }
    }

    /** gz_skip: len bytes further, or to the end of the input. */
    method Skip(len0: nat)
      requires Good() && !seek && len0 > 0 && have == 0
      modifies this, input, out
      ensures Good() && !seek && size > 0 && unchanged(`past) && Rest() == Drop(old(Rest()), len0)
      ensures pos == old(pos) + Min(len0, |old(Rest())|) && have < 2 * size && have == old(Owed(false, len0))
      ensures how == old(how) || how == old(Looked())
      ensures (input == old(input) && out == old(out)) || (fresh(input) && fresh(out))
    {
      hide Drop, Magic, Rest, Kept;
      var len: nat, ended := len0, false;
      ghost var rest, from := Rest(), pos;
      while len > 0 && !ended
        invariant Good() && !seek && unchanged(`past) && len <= len0
        invariant how == old(how) || how == old(Looked())
        invariant (input == old(input) && out == old(out)) || (fresh(input) && fresh(out))
        invariant len0 - len <= |rest| && Rest() == Drop(rest, len0 - len) && pos == from + (len0 - len)
        invariant size > 0 || (len == len0 && !ended && !eof)
        invariant ended ==> Rest() == [] && have == 0
        invariant len == 0 ==> have < 2 * size
        invariant Owed(false, len) == old(Owed(false, len0))
        decreases !ended, len, have == 0, !eof
      {
        var n: nat;
        n, ended := SkipTurn(len);
        DropDrop(rest, len0 - len, n);
        len := len - n;
      }
      KeptAtEnd(false, len);
    }

    lemma KeptAtEnd(direct: bool, n: nat)
      requires Buffers() && (n == 0 || (have == 0 && Rest() == []))
      ensures Owed(direct, n) == have
    {
    }

    /** The skip request check that opens reads and push-backs. */
    method Settle()
      requires Good()
      modifies this, input, out
      ensures Good() && !seek && unchanged(`past) && Rest() == old(View())
      ensures pos == old(pos) + Min(if old(seek) then old(skip) else 0, |old(Rest())|)
      ensures (input == old(input) && out == old(out)) || (fresh(input) && fresh(out))
      ensures old(seek) ==> size > 0 && have < 2 * size
      ensures !old(seek) ==> unchanged(this) && unchanged(out)
      ensures old(seek) ==> have == old(Owed(false, skip))
      ensures how == old(how) || how == old(Looked())
    {
      if seek {
        seek := false;
        Skip(skip);
      }
    }

    /** The bytes that are already in the output buffer, for the caller. */
    method CopyOut(buf: array<Byte>, off: nat, n: nat)
      requires Good() && n <= have && off + n <= buf.Length && buf != out
      modifies buf
      ensures buf[..] == Splice(old(buf[..]), off, Take(Rest(), n))
    {
      hide Take, Drop;
      TakeFromFront(Buffered(), Drop(file, fdPos), n);
      ghost var chunk := Buffered()[..n];
      forall i | 0 <= i < n {
        buf[off + i] := out[next + i];
      }
      assert buf[..] == Splice(old(buf[..]), off, chunk);
    }

    /** The direct read of gz_read: a long request bypasses the buffer. */
    method ReadDirect(buf: array<Byte>, off: nat, asked: nat) returns (n: nat)
      requires Good() && !seek && have == 0 && how == COPY && 0 < asked && off + asked <= buf.Length
      requires buf != input && buf != out
      modifies this`fdPos, this`eof, this`pos, buf
      ensures Good() && n == |Take(old(Rest()), asked)| && Rest() == Drop(old(Rest()), n)
      ensures buf[..] == Splice(old(buf[..]), off, Take(old(Rest()), asked))
      ensures pos == old(pos) + n && (n == 0 ==> eof)
      ensures asked >= 2 * want ==> Owed(true, asked - n) == old(Owed(true, asked))
    {
      hide Drop, Take, Splice, Magic;
      ghost var rest, from := Drop(file, fdPos), fdPos;
      assert Rest() == rest;
      n := Load(buf, off, asked);
      DropDrop(file, from, n);
      pos := pos + n;
      assert Rest() == Drop(file, fdPos);
      if asked >= 2 * want {
        KeptDirect(how, want, |rest|, asked, n);
      }
    }

    /** n buffered bytes for the caller, on the way to len. */
    method TakeBuffered(buf: array<Byte>, off: nat, n: nat, ghost len: nat)
      requires Good() && !seek && 0 < n <= have && n <= len && off + n <= buf.Length && buf != out
      modifies this`have, this`next, this`pos, buf
      ensures Good() && Rest() == Drop(old(Rest()), n) && have == old(have) - n && pos == old(pos) + n
      ensures buf[..] == Splice(old(buf[..]), off, Take(old(Rest()), n))
      ensures have < 2 * size && Owed(true, len - n) == old(Owed(true, len))
    {
      hide Drop, Take, Splice, Magic, Kept;
      KeptTake(true, how, want, have, |Rest()| - have, n, len);
      CopyOut(buf, off, n);
      Consume(n);
    }

    /** One turn of the gz_read loop: bytes for the caller, or progress towards some. */
    method ReadTurn(buf: array<Byte>, off: nat, len: nat) returns (n: nat, ended: bool)
      requires Good() && !seek && 0 < len && off + len <= buf.Length && buf != input && buf != out
      requires size > 0 || !eof
      modifies this, input, out, buf
      ensures Good() && !seek && n <= len && size > 0
      ensures (input == old(input) && out == old(out)) || (fresh(input) && fresh(out))
      ensures n <= |old(Rest())| && Rest() == Drop(old(Rest()), n) && pos == old(pos) + n
      ensures buf[..] == Splice(old(buf[..]), off, Take(old(Rest()), n))
      ensures ended ==> n == 0 && Rest() == [] && past && have == 0
      ensures !ended ==> past == old(past)
      ensures !ended && n == 0 ==> old(have) == 0 && (have > 0 || (!old(eof) && eof))
      ensures how == old(how) || how == old(Looked())
      ensures old(have) > 0 ==> how == old(how) && size == old(size) && n > 0 && have == old(have) - n
      ensures n > 0 || ended ==> have < 2 * size
      ensures len < TWO_32 ==> Owed(true, len - n) == old(Owed(true, len))
    {
      hide Drop, Take, Splice, Magic, Kept;
      n, ended := Min(TWO_32 - 1, len), false;
      SpliceNothing(buf[..], off);
      if have > 0 {
        if have < n {
          n := have;
        }
        TakeBuffered(buf, off, n, len);
      } else if eof && availIn == 0 {
        past := true;
        n, ended := 0, true;
      } else if how == LOOK || n < 2 * size {
        FetchFor(true, n);
        n := 0;
      } else {
        n := ReadDirect(buf, off, n);
      }
    }

    /** After a read of len bytes: the reader has looked at its input unless it did not have to, and
        bytes that were buffered were taken from the buffer alone. */
    predicate Moved(oldHow: How, looked: How, oldSeek: bool, oldSize: nat, oldHave: nat, len: nat)
      reads `how, `size, `have
    {
      && (how == oldHow || how == looked)
      && (!oldSeek && len <= oldHave ==> how == oldHow && size == oldSize && have == oldHave - len)
    }

    /** gz_read */
    method ReadBytes(buf: array<Byte>, len: nat) returns (got: nat)
      requires Good() && len <= buf.Length && buf != input && buf != out
      modifies this, input, out, buf
      ensures Good() && got == Min(len, |old(View())|)
      ensures (input == old(input) && out == old(out)) || (fresh(input) && fresh(out))
      ensures buf[..] == Splice(old(buf[..]), 0, Take(old(View()), len))
      ensures View() == Drop(old(View()), got)
      ensures len == 0 ==> unchanged(this) && unchanged(out)
      ensures len > 0 ==> !seek && size > 0 && pos == old(pos) + Min(old(if seek then skip else 0), |old(Rest())|) + got
      ensures got < len ==> past
      ensures Moved(old(how), old(Looked()), old(seek), old(size), old(have), len)
      ensures len > 0 ==> have < 2 * size && (len < TWO_32 ==> have == old(ReadOwed(len)))
    {
      hide Drop, Take, Splice, Magic, Kept;
      if len == 0 {
        SpliceNothing(buf[..], 0);
        return 0;
      }
      ghost var was, pending, all := how, if seek then skip else 0, |Rest()|;
      Settle();
      SettledOwes(was, pending, all, len);
      got := ReadLoop(buf, len);
    }

    /** What a read owes is the same before and after the pending skip. */
    lemma SettledOwes(was: How, pending: nat, all: nat, n: nat)
      requires Good() && !seek && |Rest()| == Less(all, pending) && n > 0
      requires how == LOOK && pending > 0 ==> was == LOOK && pos == Min(pending, all)
      ensures pending > 0 ==> Owed(true, n) == Kept(true, COPY, want, have, Less(Less(all, pending), have), n)
    {
    }

    /** The loop of gz_read. */
    method ReadLoop(buf: array<Byte>, len: nat) returns (got: nat)
      requires Good() && !seek && 0 < len <= buf.Length && buf != input && buf != out
      requires size > 0 || !eof
      modifies this, input, out, buf
      ensures Good() && !seek && size > 0 && got == Min(len, |old(Rest())|)
      ensures (input == old(input) && out == old(out)) || (fresh(input) && fresh(out))
      ensures buf[..] == Splice(old(buf[..]), 0, Take(old(Rest()), len))
      ensures Rest() == Drop(old(Rest()), got) && pos == old(pos) + got
      ensures got < len ==> past
      ensures how == old(how) || how == old(Looked())
      ensures len <= old(have) ==> how == old(how) && size == old(size) && have == old(have) - len
      ensures have < 2 * size && (len < TWO_32 ==> have == old(Owed(true, len)))
    {
      hide Drop, Take, Splice, Rest, Magic, Kept;
      got := 0;
      ghost var view, before, from := Rest(), buf[..], pos;
      SpliceNothing(before, 0);
      var left: nat, ended := len, false;
      while left > 0 && !ended
        invariant Good() && !seek && got + left == len && got <= |view|
        invariant how == old(how) || how == old(Looked())
        invariant len <= old(have) ==> how == old(how) && size == old(size) && have == old(have) - got && !ended
        invariant size > 0 || !eof
        invariant ended || left == 0 ==> size > 0
        invariant (input == old(input) && out == old(out)) || (fresh(input) && fresh(out))
        invariant Rest() == Drop(view, got) && pos == from + got
        invariant buf[..] == Splice(before, 0, Take(view, got))
        invariant ended ==> Rest() == [] && past && have == 0
        invariant ended || left == 0 ==> have < 2 * size
        invariant len < TWO_32 ==> Owed(true, left) == old(Owed(true, len))
        decreases !ended, left, have == 0, !eof
      {
        var n: nat;
        n, ended := ReadTurn(buf, got, left);
        DropDrop(view, got, n);
        TakeTake(view, got, n);
        SpliceSplice(before, 0, Take(view, got), Take(Drop(view, got), n));
        left := left - n;
        got := got + n;
      }
      assert Take(view, len) == Take(view, got);
      KeptAtEnd(true, left);
    }

    /** gzread: a length that does not fit a signed int is an error. */
    method Gzread(buf: array<Byte>, len: nat) returns (r: int)
      requires (err == Z_OK ==> Good()) && len <= buf.Length && buf != input && buf != out
      modifies this, input, out, buf
      ensures err == Z_OK ==> Good()
      ensures old(err) != Z_OK || len >= INT_LIMIT ==> r == -1 && err != Z_OK && unchanged(buf)
      ensures old(err) == Z_OK && len < INT_LIMIT ==>
                && err == Z_OK && r == Min(len, |old(View())|)
                && buf[..] == Splice(old(buf[..]), 0, Take(old(View()), len))
                && View() == Drop(old(View()), r)
                && (r < len ==> past)
      ensures old(err == Z_OK && Clean()) && err == Z_OK ==>
                && Clean()
                && (old(Tell()) <= |At(0)| || len == 0 ==> Tell() == old(Tell()) + r)
      ensures old(err) == Z_OK && len < INT_LIMIT ==>
                Moved(old(how), old(Looked()), old(seek), old(size), old(have), len)
      ensures len == 0 ==> unchanged(this) && unchanged(out)
      ensures old(err) == Z_OK && 0 < len < INT_LIMIT ==>
                && !seek && size > 0 && pos == old(pos) + Min(old(if seek then skip else 0), |old(Rest())|) + r
                && have < 2 * size && have == old(ReadOwed(len))
      ensures (input == old(input) && out == old(out)) || (fresh(input) && fresh(out))
    {
      hide Drop, Take, Splice, Magic;
      if err != Z_OK {
        return -1;
      }
      if len >= INT_LIMIT {
        have := 0;
        err := Z_STREAM_ERROR;
        return -1;
      }
      ghost var clean, rest, skipped := Clean(), Rest(), if seek then skip else 0;
      r := ReadBytes(buf, len);
      if clean && len > 0 {
        DropDrop(file, start + old(pos), Min(skipped, |rest|));
        DropDrop(file, start + old(pos) + Min(skipped, |rest|), r);
        assert Drop(rest, skipped) == Drop(rest, Min(skipped, |rest|));
        assert Rest() == View();
      }
    }

    /** gzgetc; a pending skip means an empty buffer, so the fast path needs no check for one. */
    method Gzgetc() returns (r: int)
      requires Good()
      modifies this, input, out
      ensures Good() && View() == Drop(old(View()), 1)
      ensures r == if old(View()) == [] then -1 else old(View())[0]
      ensures Moved(old(how), old(Looked()), old(seek), old(size), old(have), 1)
      ensures have < 2 * size && have == old(ReadOwed(1))
      ensures !seek && size > 0 && pos == old(pos) + Min(old(if seek then skip else 0), |old(Rest())|)
                                              + Min(1, |old(View())|)
      ensures (input == old(input) && out == old(out)) || (fresh(input) && fresh(out))
    {
      hide Drop, Take, Splice, Magic, Kept, Looked;
      if have > 0 {
        r := GetBuffered();
        return;
      }
      var buf := new Byte[1];
      ghost var before, view := buf[..], View();
      var n := ReadBytes(buf, 1);
      if view != [] {
        SpliceFirst(before, view, 1);
        assert buf[..][0] == view[0];
      }
      r := if n < 1 then -1 else buf[0];
    }

    /** The fast path of gzgetc. */
    method GetBuffered() returns (r: Byte)
      requires Good() && have > 0
      modifies this`have, this`next, this`pos
      ensures Good() && !seek && View() == Drop(old(View()), 1) && old(View()) != [] && r == old(View())[0]
      ensures Moved(old(how), old(Looked()), old(seek), old(size), old(have), 1)
      ensures have < 2 * size && have == old(ReadOwed(1))
      ensures pos == old(pos) + Min(old(if seek then skip else 0), |old(Rest())|) + 1
    {
      hide Drop, Take, Splice, Magic;
      r := out[next];
      assert Rest()[0] == Buffered()[0];
      Consume(1);
    }

    /** The slide of gzungetc: the buffered bytes move to the end of the buffer, last byte first
        because source and target may overlap. */
    method Slide()
      requires Good() && 0 < have < out.Length && next == 0
      modifies this`next, out
      ensures Good() && next == out.Length - have && Buffered() == old(Buffered())
    {
      hide Drop;
      ghost var buffered := out[..have];
      next := SlideBytes(have);
      assert out[next..next + have] == buffered;
    }

    method SlideBytes(n: nat) returns (dest: nat)
      requires 0 < n <= out.Length
      modifies out
      ensures dest == out.Length - n && out[dest..] == old(out[..n])
    {
      var src: nat := n;
      dest := out.Length;
      ghost var buffered := out[..n];
      assert buffered[n..] == [] && out[dest..] == [];
      while src > 0
        invariant src <= n && dest - src == out.Length - n
        invariant out[..src] == buffered[..src]
        invariant out[dest..] == buffered[src..]
      {
        dest := dest - 1;
        src := src - 1;
        assert out[src] == out[..src + 1][src] == buffered[src];
        out[dest] := out[src];
        assert out[dest..] == [buffered[src]] + buffered[src + 1..];
        assert out[..src] == buffered[..src];
      }
    }

    /** The byte goes right before the buffered ones, or at the very end of an empty buffer. */
    method PutFront(c: Byte)
      requires Good() && !seek && size > 0 && (if have > 0 then next > 0 else next == out.Length)
      modifies this`have, this`next, this`pos, this`past, out
      ensures Good() && !past && Buffered() == [c] + old(Buffered()) && pos == old(pos) - 1
      ensures have == old(have) + 1
    {
      hide Drop, Magic;
      ghost var before := out[next..next + have];
      have := have + 1;
      next := next - 1;
      out[next] := c;
      pos := pos - 1;
      past := false;
      assert out[next..next + have] == [c] + before;
    }

    /** The push itself, with room for it. */
    method PushByte(c: Byte)
      requires Good() && !seek && size > 0 && have < 2 * size
      modifies this`have, this`next, this`pos, this`past, out
      ensures Good() && !past && Rest() == [c] + old(Rest())
      ensures have == old(have) + 1 && pos == old(pos) - 1
    {
      hide Drop, Buffered;
      ghost var before, tail := Buffered(), Drop(file, fdPos);
      if have == 0 {
        next := 2 * size;
      } else if next == 0 {
        Slide();
      }
      PutFront(c);
      Regroup([c], before, tail);
    }

    /** gzungetc. Without buffers there is no memory to push into, so some read or skip must have
        come first. A push into a full buffer is an error and empties the buffer. */
    method Gzungetc(c: int) returns (r: int)
      requires Good() && (c >= 0 ==> size > 0 || seek)
      modifies this, input, out
      ensures (input == old(input) && out == old(out)) || (old(seek) && fresh(input) && fresh(out))
      ensures c < 0 ==> r == -1 && Good() && View() == old(View())
      ensures c >= 0 && (old(seek) || old(have < 2 * size)) ==>
                r == c && Good() && !seek && !past && View() == [c % 256] + old(View())
      ensures c >= 0 && !old(seek) ==>
                && (r == c <==> old(have < 2 * size))
                && (r == c ==> have == old(have) + 1 && size == old(size))
      ensures c >= 0 && r != c ==> r == -1 && err == Z_DATA_ERROR && have == 0
      ensures r == c && c >= 0 ==> pos == old(pos) + Min(old(if seek then skip else 0), |old(Rest())|) - 1 && have >= 1
      ensures c < 0 ==> !seek && pos == old(pos) + Min(old(if seek then skip else 0), |old(Rest())|)
      ensures c < 0 && !old(seek) ==> unchanged(this) && unchanged(out)
      ensures how == old(how) || (old(seek) && how == old(Looked()))
      ensures old(seek) ==> size > 0
      ensures old(seek) && c >= 0 ==> have == old(Owed(false, skip)) + 1
      ensures old(seek) && c < 0 ==> have == old(Owed(false, skip))
    {
      hide Drop, Rest;
      Settle();
      if c < 0 {
        return -1;
      }
      if have == 2 * size {
        have := 0;
        err := Z_DATA_ERROR;
        return -1;
      }
      PushByte(c % 256);
      r := c;
    }

    /** gzrewind and gz_reset */
    method Gzrewind() returns (r: int)
      requires Good()
      modifies this
      ensures r == 0 && Good() && Clean() && Tell() == 0 && View() == At(0)
      ensures !seek && !eof && !past && how == LOOK && have == 0 && pos == 0
      ensures input == old(input) && out == old(out) && size == old(size)
    {
      hide Drop, Magic;
      fdPos := start;
      have, eof, past, how, seek, err, pos, availIn := 0, false, false, LOOK, false, Z_OK, 0, 0;
      assert Buffered() == [];
      r := 0;
    }

    /** gzseek64 on a reader. The new position is the target for every target that is not behind the
        start; a refused seek has already dropped the pending one. */
    method Gzseek(offsetIn: int, whence: int) returns (r: int)
      requires Good()
      modifies this
      ensures Good() && input == old(input) && out == old(out) && size == old(size)
      ensures whence != SEEK_SET && whence != SEEK_CUR ==> r == -1 && unchanged(this)
      ensures whence == SEEK_SET || whence == SEEK_CUR ==>
                var target := if whence == SEEK_SET then offsetIn else old(Tell()) + offsetIn;
                && (target >= 0 ==> r == target == Tell())
                && (target >= 0 && old(Clean()) ==> Clean() && View() == At(target))
                && (target >= old(pos) && old(how) == LOOK ==> View() == Drop(old(Rest()), target - old(pos)))
                && (target >= 0 && old(how) == COPY ==> !seek && View() == At(target) && have == 0)
                && (target < 0 && target < old(pos) ==> r == -1 && !seek && pos == old(pos) && Rest() == old(Rest()))
      ensures whence == SEEK_SET || whence == SEEK_CUR ==>
                var target := if whence == SEEK_SET then offsetIn else old(Tell()) + offsetIn;
                && (target >= old(pos) && (target < 0 || old(how) == LOOK) ==>
                      && r == target == Tell() && View() == Drop(old(Rest()), target - old(pos))
                      && (target - old(pos) <= old(have) ==> !seek && have == old(have) - (target - old(pos))))
                && (target < 0 && target < old(pos) ==> have == old(have))
      ensures how == old(how)
      ensures old(Clean()) ==> Clean()
    {
      hide Drop, Rest, Magic;
      if whence != SEEK_SET && whence != SEEK_CUR {
        return -1;
      }
      var offset := offsetIn;
      if whence == SEEK_SET {
        offset := offset - pos;
      } else if seek {
        offset := offset + skip;
      }
      seek := false;
      ghost var rest := Rest();
      if how == COPY && pos + offset >= 0 {
        SeekNow(offset);
        CleanView();
        return pos;
      }
      if offset < 0 {
        offset := offset + pos;
        if offset < 0 {
          return -1;
        }
        // only a decompressing reader has to rewind here; a raw one is past its first byte only
        // in COPY mode, where the descriptor has moved already
        assert false;
      }
      r := SeekForward(offset);
      if Clean() {
        CleanView();
      }
    }

    /** The raw case of gzseek64: the descriptor itself moves. */
    method SeekNow(offset: int)
      requires Good() && !seek && how == COPY && pos + offset >= 0
      modifies this
      ensures Good() && Clean() && !seek && how == COPY && pos == old(pos) + offset && have == 0
      ensures input == old(input) && out == old(out) && size == old(size)
    {
      hide Drop, Magic;
      fdPos := fdPos + offset - have;
      have, eof, past, seek, err, availIn := 0, false, false, false, Z_OK, 0;
      pos := pos + offset;
    }

    /** The end of gzseek64: a forward distance, first through the buffer, the rest on request. */
    method SeekForward(distance: nat) returns (r: int)
      requires Good() && !seek
      modifies this`have, this`next, this`pos, this`seek, this`skip
      ensures Good() && r == Tell() == old(pos) + distance && View() == Drop(old(Rest()), distance)
      ensures distance <= old(have) ==> !seek && have == old(have) - distance
      ensures old(Clean()) ==> Clean()
    {
      hide Drop, Rest, Magic;
      var n := if have > distance then distance else have;
      var offset := distance - n;
      DropDrop(Rest(), n, offset);
      if Clean() {
        DropDrop(file, start + pos, n);
      }
      Consume(n);
      if offset != 0 {
        seek := true;
        skip := offset;
      }
      r := pos + offset;
    }

    /** gztell64 */
    method Gztell() returns (r: int)
      ensures r == Tell()
    {
      r := pos + (if seek then skip else 0);
    }

    /** Push back a whole text, last byte first: any number up to the free room of the buffer, and
        the text comes back in front of everything that would have been read before. */
    method PushBack(text: seq<Byte>)
      requires Good() && !seek && size > 0 && have + |text| <= 2 * size
      modifies this, input, out
      ensures Good() && !seek && View() == text + old(View()) && pos == old(pos) - |text|
      ensures input == old(input) && out == old(out) && size == old(size)
    {
      hide View, Rest, Drop;
      var i := |text|;
      assert text[|text|..] == [];
      while i > 0
        invariant 0 <= i <= |text| && Good() && !seek && size == old(size)
        invariant input == old(input) && out == old(out)
        invariant have == old(have) + |text| - i && pos == old(pos) - (|text| - i)
        invariant View() == text[i..] + old(View())
      {
        i := i - 1;
        var r := Gzungetc(text[i]);
        assert text[i..] == [text[i]] + text[i + 1..];
      }
      assert text[0..] == text;
    }
  }

  // ---------------------------------------------------------------- the reference cursor

  /** A cursor over one byte stream with a stack of pushed-back bytes, in the two states a raw reader
      has: nothing of the stream taken yet, with perhaps a seek to apply first, or standing at a
      position, with so many of the stream's bytes buffered. `made` says that the buffer exists. */
  datatype Cursor =
    | Unread(pushed: seq<Byte>, skip: nat, made: bool)
    | Placed(pushed: seq<Byte>, at: nat, buffered: nat)

  /** What gztell64 reports. */
  function TellOf(c: Cursor): int {
    match c
    case Unread(pushed, skip, _) => skip - |pushed|
    case Placed(pushed, at, _) => at - |pushed|
  }

  datatype Op = Read(n: nat) | Getc | Ungetc(c: int) | Seek(offset: int, whence: int) | Rewind

  /** `LeftOut`: the caller does not push back onto a reader that has no room made yet. */
  datatype Outcome = Outcome(result: int, bytes: seq<Byte>) | LeftOut

  /** What fills the buffer: the pushed-back bytes and then bytes of the stream. */
  function HaveOf(c: Cursor): nat {
    |c.pushed| + if c.Placed? then c.buffered else 0
  }

  /** How many bytes stay in the buffer when n are taken, with the file's bytes behind it. */
  function Owe(stream: seq<Byte>, want: Want, c: Cursor, direct: bool, n: nat): nat {
    match c
    case Unread(_, _, _) => Kept(direct, LOOK, want, HaveOf(c), |stream|, n)
    case Placed(_, at, buffered) => Kept(direct, COPY, want, HaveOf(c), Less(|Drop(stream, at)|, buffered), n)
  }

  /** A pending seek applied: it stops at the end of the stream. */
  function Applied(stream: seq<Byte>, want: Want, c: Cursor): Cursor {
    if c.Placed? || c.skip == 0 then c
    else if stream == [] then Unread([], 0, true)
    else Placed([], Min(c.skip, |stream|), Kept(false, LOOK, want, 0, |stream|, c.skip))
  }

  /** What there is to read. */
  function Ahead(stream: seq<Byte>, c: Cursor): seq<Byte> {
    match c
    case Unread(pushed, skip, _) => if skip == 0 then pushed + stream else Drop(stream, skip)
    case Placed(pushed, at, _) => pushed + Drop(stream, at)
  }

  function AfterRead(stream: seq<Byte>, want: Want, c: Cursor, n: nat): Cursor {
    if n == 0 then c
    else
      var got, a := |Take(Ahead(stream, c), n)|, Applied(stream, want, c);
      var left := Owe(stream, want, a, true, n);
      match a
      case Unread(pushed, _, made) =>
        if n <= |pushed| then Unread(Drop(pushed, n), 0, made)
        else if stream == [] then Unread([], 0, true)
        else Placed([], Less(got, |pushed|), left)
      case Placed(pushed, at, _) =>
        Placed(Drop(pushed, n), at + Less(got, |pushed|), Less(left, |Drop(pushed, n)|))
  }

  function Target(c: Cursor, offset: int, whence: int): int {
    if whence == SEEK_SET then offset else TellOf(c) + offset
  }

  /** The first position that is not refused: as far back as the pushed-back bytes go. */
  function Base(c: Cursor): int {
    match c
    case Unread(pushed, _, _) => -|pushed|
    case Placed(pushed, at, _) => at - |pushed|
  }

  /** A bad whence changes nothing; a refused target drops the pending seek; a negative target inside
      the pushed-back bytes drops some of them; any other target is where the cursor then stands. */
  function AfterSeek(c: Cursor, offset: int, whence: int): Cursor {
    var target := Target(c, offset, whence);
    if whence != SEEK_SET && whence != SEEK_CUR then c
    else if target < 0 && target < Base(c) then
      if c.Unread? then c.(skip := 0) else c
    else
      match c
      case Unread(pushed, _, made) =>
        Unread(Drop(pushed, target + |pushed|), if target > 0 then target else 0, made)
      case Placed(pushed, at, buffered) =>
        if target >= 0 then Placed([], target, 0) else Placed(Drop(pushed, target - Base(c)), at, buffered)
  }

  /** There is a buffer to push back into, or a pending seek will make one. */
  predicate HasBuffer(c: Cursor) {
    c.Placed? || c.made || c.skip > 0
  }

  /** A push-back finds the buffer full. */
  predicate Full(stream: seq<Byte>, want: Want, c: Cursor) {
    HasBuffer(c) && HaveOf(Applied(stream, want, c)) == 2 * want
  }

  function Pushed(c: Cursor, front: seq<Byte>): Cursor {
    match c
    case Unread(pushed, skip, made) => Unread(front + pushed, skip, made)
    case Placed(pushed, at, buffered) => Placed(front + pushed, at, buffered)
  }

  function AfterOp(stream: seq<Byte>, want: Want, c: Cursor, op: Op): Cursor {
    match op
    case Read(n) => AfterRead(stream, want, c, n)
    case Getc => AfterRead(stream, want, c, 1)
    case Ungetc(b) =>
      var a := Applied(stream, want, c);
      if b < 0 then a
      else if !HasBuffer(c) then c
      else Pushed(a, [b % 256])
    case Seek(offset, whence) => AfterSeek(c, offset, whence)
    case Rewind => Unread([], 0, c.Placed? || c.made)
  }

  /** What the call returns, and the bytes it hands over. */
  function Answer(stream: seq<Byte>, c: Cursor, op: Op): Outcome {
    match op
    case Read(n) =>
      var bytes := Take(Ahead(stream, c), n);
      Outcome(|bytes|, bytes)
    case Getc => Outcome(if Ahead(stream, c) == [] then -1 else Ahead(stream, c)[0], [])
    case Ungetc(b) => if b >= 0 && !HasBuffer(c) then LeftOut else Outcome(if b < 0 then -1 else b, [])
    case Seek(offset, whence) =>
      var target := Target(c, offset, whence);
      Outcome(if (whence != SEEK_SET && whence != SEEK_CUR) || (target < 0 && target < Base(c)) then -1 else target, [])
    case Rewind => Outcome(0, [])
  }

  const NEW := Unread([], 0, false)

  /** Where the cursor stands after these calls on a new reader. */
  function AfterOps(stream: seq<Byte>, want: Want, ops: seq<Op>): Cursor {
    if ops == [] then NEW else AfterOp(stream, want, AfterOps(stream, want, ops[..|ops| - 1]), ops[|ops| - 1])
  }

  /** Call i is a push-back that finds the buffer full. */
  predicate Refused(stream: seq<Byte>, want: Want, ops: seq<Op>, i: nat)
    requires i < |ops|
  {
    ops[i].Ungetc? && ops[i].c >= 0 && Full(stream, want, AfterOps(stream, want, ops[..i]))
  }

  /** Calls that take bytes. */
  predicate Reads(op: Op) {
    op.Getc? || (op.Read? && op.n > 0)
  }

  // What makes it a cursor.

  /** A read returns the next min(n, remaining) bytes of what is ahead, pushed-back bytes first, takes
      exactly those away, and moves the position over them. Without push-backs what is ahead is the
      stream from the reported position on; a read from past the end finds nothing, and if the way
      there was still pending the position goes back to the end. */
  lemma CursorReads(stream: seq<Byte>, want: Want, c: Cursor, n: nat)
    requires c.Unread? && c.skip > 0 ==> c.pushed == []
    ensures var d, bytes := AfterRead(stream, want, c, n), Take(Ahead(stream, c), n);
            && Answer(stream, c, Read(n)) == Outcome(|bytes|, bytes)
            && Ahead(stream, d) == Drop(Ahead(stream, c), n)
            && TellOf(d) == (if n > 0 then Base(Applied(stream, want, c)) else TellOf(c)) + |bytes|
    ensures Base(Applied(stream, want, c)) == if c.Unread? && c.skip > 0 then Min(c.skip, |stream|) else TellOf(c)
    ensures c.pushed == [] ==> TellOf(c) >= 0 && Ahead(stream, c) == Drop(stream, TellOf(c))
  {
    hide AfterRead, Drop, Take;
    var a := Applied(stream, want, c);
    AppliedAhead(stream, want, c);
    if n == 0 {
      NothingRead(stream, want, c);
    } else {
      match a
      case Unread(_, _, _) => ReadsFromStart(stream, want, c, n);
      case Placed(_, _, _) => ReadsFromPlace(stream, want, c, n);
    }
  }

  lemma ReadsFromStart(stream: seq<Byte>, want: Want, c: Cursor, n: nat)
    requires n > 0 && Applied(stream, want, c).Unread?
    ensures var a, d := Applied(stream, want, c), AfterRead(stream, want, c, n);
            && Ahead(stream, d) == Drop(Ahead(stream, c), n)
            && TellOf(d) == Base(a) + |Take(Ahead(stream, c), n)|
  {
    hide Drop, Take, Kept;
    var pushed := Applied(stream, want, c).pushed;
    AppliedAhead(stream, want, c);
    DropPushed(pushed, stream, n);
    TakenCounts(pushed, stream, n);
    DropAll(Ahead(stream, c), n);
  }

  lemma ReadsFromPlace(stream: seq<Byte>, want: Want, c: Cursor, n: nat)
    requires n > 0 && Applied(stream, want, c).Placed?
    ensures var a, d := Applied(stream, want, c), AfterRead(stream, want, c, n);
            && Ahead(stream, d) == Drop(Ahead(stream, c), n)
            && TellOf(d) == Base(a) + |Take(Ahead(stream, c), n)|
  {
    hide Drop, Take, Kept;
    var a := Applied(stream, want, c);
    AppliedAhead(stream, want, c);
    DropPushed(a.pushed, Drop(stream, a.at), n);
    TakenCounts(a.pushed, Drop(stream, a.at), n);
    DropAll(Ahead(stream, c), n);
    DropDrop(stream, a.at, Less(|Take(Ahead(stream, c), n)|, |a.pushed|));
  }

  lemma AppliedAhead(stream: seq<Byte>, want: Want, c: Cursor)
    ensures Ahead(stream, Applied(stream, want, c)) == Ahead(stream, c)
  {
    if c.Unread? && c.skip > 0 && stream != [] {
      assert Drop(stream, Min(c.skip, |stream|)) == Drop(stream, c.skip);
    }
  }

  lemma DropAll(s: seq<Byte>, n: nat)
    ensures Drop(s, |Take(s, n)|) == Drop(s, n)
  {
  }

  /** A call that takes bytes leaves room for at least one push-back. */
  lemma RoomAfterRead(stream: seq<Byte>, want: Want, c: Cursor, n: nat)
    requires n > 0 && HaveOf(c) <= 2 * want
    ensures HaveOf(AfterRead(stream, want, c, n)) < 2 * want && !Full(stream, want, AfterRead(stream, want, c, n))
  {
    var a := Applied(stream, want, c);
    if c.Unread? && c.skip > 0 {
      AfterEmptyHasRoom(false, LOOK, want, |stream|, c.skip);
    }
    if n > HaveOf(a) {
      AfterEmptyHasRoom(true, if a.Unread? then LOOK else COPY, want,
                        if a.Unread? then |stream| else Less(|Drop(stream, a.at)|, a.buffered), n - HaveOf(a));
    }
  }

  /** A pushed-back byte comes first, then what would have come; the position goes back by one. */
  lemma CursorPushes(stream: seq<Byte>, want: Want, c: Cursor, b: int)
    requires HasBuffer(c) && b >= 0
    ensures Ahead(stream, AfterOp(stream, want, c, Ungetc(b))) == [b % 256] + Ahead(stream, c)
    ensures TellOf(AfterOp(stream, want, c, Ungetc(b))) == Base(Applied(stream, want, c)) - 1
    ensures HaveOf(AfterOp(stream, want, c, Ungetc(b))) == HaveOf(Applied(stream, want, c)) + 1
  {
    var a := Applied(stream, want, c);
    AppliedAhead(stream, want, c);
    Regroup([b % 256], a.pushed, if a.Placed? then Drop(stream, a.at) else stream);
  }

  /** A seek to a position of the stream goes there, whatever was pushed back or pending. */
  lemma CursorSeeks(stream: seq<Byte>, c: Cursor, offset: int, whence: int)
    requires (whence == SEEK_SET || whence == SEEK_CUR) && Target(c, offset, whence) >= 0
    requires c.Unread? && c.skip > 0 ==> c.pushed == []
    ensures var d, target := AfterSeek(c, offset, whence), Target(c, offset, whence);
            && Answer(stream, c, Seek(offset, whence)) == Outcome(target, [])
            && d.pushed == [] && TellOf(d) == target && Ahead(stream, d) == Drop(stream, target)
  {
    var target := Target(c, offset, whence);
  }

  /** The reader stands where the cursor does. */
  ghost predicate Stands(g: GzReader, c: Cursor)
    reads g, g.out
  {
    && g.Good()
    && match c
       case Unread(pushed, skip, made) =>
         g.how == LOOK && g.Buffered() == pushed && (made <==> g.size > 0) && (skip == if g.seek then g.skip else 0)
       case Placed(pushed, at, _) =>
         && g.how == COPY && !g.seek && g.have == HaveOf(c)
         && g.pos == at - |pushed| && g.Rest() == pushed + g.At(at)
  }

  lemma SpliceGives(s: seq<Byte>, text: seq<Byte>)
    requires |text| <= |s|
    ensures Splice(s, 0, text)[..|text|] == text
  {
  }

  lemma Fresh(g: GzReader)
    requires g.Good() && g.size == 0 && g.pos == 0 && !g.seek
    ensures Stands(g, NEW)
  {
  }

  lemma TellsTruly(g: GzReader, c: Cursor)
    requires Stands(g, c)
    ensures g.Tell() == TellOf(c)
  {
  }

  lemma BufferHolds(g: GzReader, c: Cursor)
    requires Stands(g, c)
    ensures HaveOf(c) <= 2 * g.want
  {
    BeforeCall(g, c);
  }

  lemma RoomAfter(stream: seq<Byte>, want: Want, c: Cursor, op: Op)
    requires HaveOf(c) <= 2 * want
    ensures Reads(op) ==> !Full(stream, want, AfterOp(stream, want, c, op))
  {
    hide Full, AfterRead, HaveOf;
    if Reads(op) {
      RoomAfterRead(stream, want, c, if op.Getc? then 1 else op.n);
    }
  }

  lemma OneOpMore(stream: seq<Byte>, want: Want, ops: seq<Op>, i: nat)
    requires i < |ops|
    ensures AfterOps(stream, want, ops[..i + 1]) == AfterOp(stream, want, AfterOps(stream, want, ops[..i]), ops[i])
  {
    assert ops[..i + 1][..i] == ops[..i];
  }

  lemma NoOps(stream: seq<Byte>, want: Want, ops: seq<Op>)
    ensures AfterOps(stream, want, ops[..0]) == NEW && TellOf(NEW) == 0
  {
  }

  /** What the cursor says about the reader before a call. */
  lemma BeforeCall(g: GzReader, c: Cursor)
    requires Stands(g, c)
    ensures g.View() == Ahead(g.At(0), c) && g.Tell() == TellOf(c) && g.pos == Base(c)
    ensures g.pos + Min(if g.seek then g.skip else 0, |g.Rest()|) == Base(Applied(g.At(0), g.want, c))
    ensures HasBuffer(c) <==> g.size > 0 || g.seek
    ensures g.Looked() == if c.Unread? && g.At(0) == [] then LOOK else COPY
    ensures !g.seek ==> g.Rest() == Ahead(g.At(0), c)
    ensures c.Unread? && c.skip > 0 ==> c.pushed == []
    ensures (g.how == LOOK <==> c.Unread?) && g.have == HaveOf(c) <= 2 * g.want
    ensures forall direct, n :: g.Owed(direct, n) == Owe(g.At(0), g.want, c, direct, n)
    ensures forall n :: n > 0 ==> g.ReadOwed(n) == Owe(g.At(0), g.want, Applied(g.At(0), g.want, c), true, n)
    ensures g.seek <==> c.Unread? && c.skip > 0
    ensures c.Unread? && |c.pushed| > 0 ==> c.made
  {
    hide Drop;
    DropDrop(g.file, g.start, if c.Placed? then c.at else 0);
    if c.Unread? {
      UnreadRest(g, c);
    }
  }

  lemma UnreadRest(g: GzReader, c: Cursor)
    requires Stands(g, c) && c.Unread?
    ensures g.Rest() == c.pushed + g.At(0) && |c.pushed| == g.have && g.pos == -|c.pushed|
    ensures g.View() == Ahead(g.At(0), c)
  {
    var stream := g.At(0);
    assert g.Rest() == c.pushed + stream;
    if c.skip > 0 {
      assert c.pushed + stream == stream;
    }
  }

  /** Where a read of n > 0 bytes, `got` of them given, leaves the reader. */
  ghost predicate Read0(g: GzReader, c: Cursor, n: nat, got: nat)
    reads g, g.out
  {
    && g.Good() && !g.seek && g.size > 0 && n > 0
    && got == |Take(Ahead(g.At(0), c), n)| && g.Rest() == Drop(Ahead(g.At(0), c), got)
    && g.pos == Base(Applied(g.At(0), g.want, c)) + got
    && (if c.Placed? then g.how == COPY else g.how == LOOK || g.how == if g.At(0) == [] then LOOK else COPY)
    && (c.Unread? && c.skip > 0 ==> c.pushed == [])
    && ((c.Placed? || c.skip == 0) && n <= |c.pushed| ==>
          g.how == (if c.Placed? then COPY else LOOK))
    && (c.Unread? && n <= |c.pushed| ==> c.made)
    && g.have == Owe(g.At(0), g.want, Applied(g.At(0), g.want, c), true, n)
  }

  lemma ReadLands(g: GzReader, c: Cursor, n: nat, got: nat)
    requires Read0(g, c, n, got)
    ensures Stands(g, AfterRead(g.At(0), g.want, c, n))
  {
    match Applied(g.At(0), g.want, c)
    case Placed(_, _, _) => ReadFromPlace(g, c, n, got);
    case Unread(_, _, _) => ReadFromStart(g, c, n, got);
  }

  lemma ReadFromPlace(g: GzReader, c: Cursor, n: nat, got: nat)
    requires Read0(g, c, n, got) && Applied(g.At(0), g.want, c).Placed?
    ensures Stands(g, AfterRead(g.At(0), g.want, c, n))
  {
    hide Drop, Take;
    var stream, a := g.At(0), Applied(g.At(0), g.want, c);
    var k := Less(got, |a.pushed|);
    DropDrop(stream, a.at, k);
    DropDrop(g.file, g.start, a.at + k);
    DropPushed(a.pushed, Drop(stream, a.at), n);
    assert g.how == COPY by { LeftStart(g); }
    assert g.Rest() == Drop(a.pushed, n) + g.At(a.at + k);
    TakenCounts(a.pushed, Drop(stream, a.at), n);
  }

  /** A reader that has not looked at its input stands at or before its start. */
  lemma LeftStart(g: GzReader)
    requires g.Good()
    ensures g.how == LOOK ==> g.pos == 0 - g.have && g.Rest() == g.Buffered() + g.At(0)
  {
  }

  lemma TakenCounts(pushed: seq<Byte>, behind: seq<Byte>, n: nat)
    ensures |Take(pushed + behind, n)| == Min(n, |pushed| + |behind|)
    ensures |Drop(pushed, n)| == Less(|pushed|, n)
  {
  }

  lemma ReadFromStart(g: GzReader, c: Cursor, n: nat, got: nat)
    requires Read0(g, c, n, got) && Applied(g.At(0), g.want, c).Unread?
    ensures Stands(g, AfterRead(g.At(0), g.want, c, n))
  {
    hide Drop, Take;
    var stream, a := g.At(0), Applied(g.At(0), g.want, c);
    DropPushed(a.pushed, stream, n);
    TakenCounts(a.pushed, stream, n);
    LeftStart(g);
    DropDrop(g.file, g.start, Less(got, |a.pushed|));
    if g.how == LOOK {
      assert g.Buffered() + stream == Drop(a.pushed, n) + Drop(stream, Less(got, |a.pushed|));
      if n <= |a.pushed| {
        SameFront(g.Buffered(), Drop(a.pushed, n), stream);
      }
    }
  }

  lemma SameFront(a: seq<Byte>, b: seq<Byte>, tail: seq<Byte>)
    requires a + tail == b + tail
    ensures a == b
  {
    assert |a| == |b|;
    assert a == (a + tail)[..|a|] && b == (b + tail)[..|b|];
  }

  lemma DropPushed(pushed: seq<Byte>, behind: seq<Byte>, n: nat)
    ensures var got := |Take(pushed + behind, n)|;
            Drop(pushed + behind, got) == Drop(pushed, n) + Drop(behind, Less(got, |pushed|))
  {
  }

  method ReadOne(g: GzReader, ghost c: Cursor, n: nat) returns (o: Outcome)
    requires Stands(g, c) && n < INT_LIMIT
    modifies g, g.input, g.out
    ensures Stands(g, AfterRead(g.At(0), g.want, c, n)) && o == Answer(g.At(0), c, Read(n))
    ensures (g.input == old(g.input) && g.out == old(g.out)) || (fresh(g.input) && fresh(g.out))
  {
    hide Drop, Take, Splice, Applied, Ahead, Stands, AfterRead, Base, TellOf, HasBuffer, Magic;
    hide GzReader.Good, GzReader.Rest, GzReader.Looked, GzReader.Clean, GzReader.ReadOwed;
    BeforeCall(g, c);
    IsGood(g, c);
    ghost var view := g.View();
    var buf := new Byte[n];
    ghost var before := buf[..];
    var r := g.Gzread(buf, n);
    SpliceGives(before, Take(view, n));
    var bytes := buf[..];
    o := Outcome(r, bytes[..r]);
    if n > 0 {
      ReadLands(g, c, n, r);
    } else {
      NothingRead(g.At(0), g.want, c);
    }
  }

  lemma NothingRead(stream: seq<Byte>, want: Want, c: Cursor)
    ensures AfterRead(stream, want, c, 0) == c
  {
  }

  method GetOne(g: GzReader, ghost c: Cursor) returns (o: Outcome)
    requires Stands(g, c)
    modifies g, g.input, g.out
    ensures Stands(g, AfterRead(g.At(0), g.want, c, 1)) && o == Answer(g.At(0), c, Getc)
    ensures (g.input == old(g.input) && g.out == old(g.out)) || (fresh(g.input) && fresh(g.out))
  {
    hide Drop, Splice, Applied, Ahead;
    BeforeCall(g, c);
    ghost var view := g.View();
    var r := g.Gzgetc();
    o := Outcome(r, []);
    assert |Take(view, 1)| == Min(1, |view|);
    if view == [] {
      assert Drop(view, 0) == Drop(view, 1);
    }
    ReadLands(g, c, 1, Min(1, |view|));
  }

  /** A reader with the cursor's pending seek applied and `front` pushed back. */
  ghost predicate Push0(g: GzReader, c: Cursor, front: seq<Byte>)
    reads g, g.out
  {
    && g.Good() && !g.seek && g.size > 0
    && g.Rest() == front + Ahead(g.At(0), c) && g.pos == Base(Applied(g.At(0), g.want, c)) - |front|
    && (if c.Placed? then g.how == COPY
        else g.how == LOOK || (c.skip > 0 && g.how == if g.At(0) == [] then LOOK else COPY))
    && (c.Unread? ==> if c.skip > 0 then c.pushed == [] else c.made)
    && g.have == |front| + HaveOf(Applied(g.At(0), g.want, c))
  }

  lemma PushLands(g: GzReader, c: Cursor, front: seq<Byte>)
    requires Push0(g, c, front)
    ensures Stands(g, Pushed(Applied(g.At(0), g.want, c), front))
  {
    match Applied(g.At(0), g.want, c)
    case Unread(_, _, _) => PushAtStart(g, c, front);
    case Placed(_, _, _) => PushInPlace(g, c, front);
  }

  lemma PushAtStart(g: GzReader, c: Cursor, front: seq<Byte>)
    requires Push0(g, c, front) && Applied(g.At(0), g.want, c).Unread?
    ensures Stands(g, Pushed(Applied(g.At(0), g.want, c), front))
  {
    hide Drop;
    LeftStart(g);
    var pushed := Applied(g.At(0), g.want, c).pushed;
    assert g.Buffered() + g.At(0) == (front + pushed) + g.At(0) by {
      Regroup(front, pushed, g.At(0));
    }
    SameFront(g.Buffered(), front + pushed, g.At(0));
  }

  lemma PushInPlace(g: GzReader, c: Cursor, front: seq<Byte>)
    requires Push0(g, c, front) && Applied(g.At(0), g.want, c).Placed?
    ensures Stands(g, Pushed(Applied(g.At(0), g.want, c), front))
  {
    hide Drop;
    var a := Applied(g.At(0), g.want, c);
    LeftStart(g);
    DropDrop(g.file, g.start, a.at);
    Regroup(front, a.pushed, g.At(a.at));
  }

  method UngetOne(g: GzReader, ghost c: Cursor, b: int) returns (full: bool, o: Outcome)
    requires Stands(g, c)
    modifies g, g.input, g.out
    ensures full <==> b >= 0 && Full(g.At(0), g.want, c)
    ensures !full ==> Stands(g, AfterOp(g.At(0), g.want, c, Ungetc(b))) && o == Answer(g.At(0), c, Ungetc(b))
    ensures (g.input == old(g.input) && g.out == old(g.out)) || (fresh(g.input) && fresh(g.out))
  {
    hide Drop, Ahead, Stands;
    BeforeCall(g, c);
    IsGood(g, c);
    if b >= 0 && g.size == 0 && !g.seek {
      return false, LeftOut;
    }
    var r := g.Gzungetc(b);
    full, o := b >= 0 && r != b, Outcome(r, []);
    if b >= 0 && !full {
      PushLands(g, c, [b % 256]);
      assert AfterOp(g.At(0), g.want, c, Ungetc(b)) == Pushed(Applied(g.At(0), g.want, c), [b % 256]);
    } else if b < 0 && c.Unread? && c.skip > 0 {
      PushLands(g, c, []);
      assert AfterOp(g.At(0), g.want, c, Ungetc(b)) == Pushed(Applied(g.At(0), g.want, c), []);
    } else if b < 0 {
      assert AfterOp(g.At(0), g.want, c, Ungetc(b)) == c;
    }
  }

  lemma IsGood(g: GzReader, c: Cursor)
    requires Stands(g, c)
    ensures g.Good()
    ensures c.Unread? ==> c.made == (g.size > 0) && c.skip == if g.seek then g.skip else 0
    ensures (g.how == LOOK <==> c.Unread?) && (g.how != LOOK ==> g.size > 0)
  {
  }

  /** Where a seek leaves a reader that has taken nothing of its stream. */
  lemma SeekLandsAtStart(g: GzReader, c: Cursor, offset: int, whence: int)
    requires c.Unread? && (c.skip > 0 ==> c.pushed == []) && (whence == SEEK_SET || whence == SEEK_CUR)
    requires g.Good() && g.how == LOOK && (c.made <==> g.size > 0)
    requires var target := Target(c, offset, whence);
             if target < Base(c) then !g.seek && g.have == |c.pushed| && g.Rest() == c.pushed + g.At(0)
             else
               && g.Tell() == target && g.View() == Drop(c.pushed + g.At(0), target - Base(c))
               && (target - Base(c) <= |c.pushed| ==> !g.seek && g.have == |c.pushed| - (target - Base(c)))
    ensures Stands(g, AfterSeek(c, offset, whence))
  {
    hide Drop;
    var target := Target(c, offset, whence);
    var stream := g.At(0);
    LeftStart(g);
    if target < Base(c) {
      SameFront(g.Buffered(), c.pushed, stream);
    } else if target <= 0 {
      DropPushed(c.pushed, stream, target + |c.pushed|);
      TakenCounts(c.pushed, stream, target + |c.pushed|);
      SameFront(g.Buffered(), Drop(c.pushed, target + |c.pushed|), stream);
    } else {
      TakenCounts(c.pushed, stream, target + |c.pushed|);
    }
  }

  /** Where a seek leaves a reader that stands at a position. */
  lemma SeekLandsInPlace(g: GzReader, c: Cursor, offset: int, whence: int)
    requires c.Placed? && (whence == SEEK_SET || whence == SEEK_CUR)
    requires g.Good() && g.how == COPY && !g.seek
    requires var target := Target(c, offset, whence);
             if target < 0 && target < Base(c) then
               g.pos == Base(c) && g.have == HaveOf(c) && g.Rest() == c.pushed + g.At(c.at)
             else if target >= 0 then g.pos == target && g.have == 0 && g.Rest() == g.At(target)
             else
               && g.pos == target && g.have == HaveOf(c) - (target - Base(c))
               && g.Rest() == Drop(c.pushed + g.At(c.at), target - Base(c))
    ensures Stands(g, AfterSeek(c, offset, whence))
  {
    hide Drop;
    var target := Target(c, offset, whence);
    if target < 0 && target >= Base(c) {
      DropPushed(c.pushed, g.At(c.at), target - Base(c));
      TakenCounts(c.pushed, g.At(c.at), target - Base(c));
    }
  }

  method SeekAtStart(g: GzReader, ghost c: Cursor, offset: int, whence: int) returns (o: Outcome)
    requires Stands(g, c) && c.Unread? && (whence == SEEK_SET || whence == SEEK_CUR)
    modifies g, g.input, g.out
    ensures Stands(g, AfterSeek(c, offset, whence)) && o == Answer(g.At(0), c, Seek(offset, whence))
    ensures g.input == old(g.input) && g.out == old(g.out)
  {
    hide Drop, Ahead, AfterSeek, Stands, Applied, TellOf, Base, HasBuffer, Magic, GzReader.Looked;
    BeforeCall(g, c);
    IsGood(g, c);
    RestOf(g, c);
    var r := g.Gzseek(offset, whence);
    o := Outcome(r, []);
    SeekLandsAtStart(g, c, offset, whence);
  }

  method SeekInPlace(g: GzReader, ghost c: Cursor, offset: int, whence: int) returns (o: Outcome)
    requires Stands(g, c) && c.Placed? && (whence == SEEK_SET || whence == SEEK_CUR)
    modifies g, g.input, g.out
    ensures Stands(g, AfterSeek(c, offset, whence)) && o == Answer(g.At(0), c, Seek(offset, whence))
    ensures g.input == old(g.input) && g.out == old(g.out)
  {
    hide Drop, Ahead, AfterSeek, Stands, Applied, TellOf, Base, HasBuffer, Magic, GzReader.Looked;
    BeforeCall(g, c);
    IsGood(g, c);
    RestOf(g, c);
    var r := g.Gzseek(offset, whence);
    o := Outcome(r, []);
    SeekLandsInPlace(g, c, offset, whence);
  }

  method SeekOne(g: GzReader, ghost c: Cursor, offset: int, whence: int) returns (o: Outcome)
    requires Stands(g, c)
    modifies g, g.input, g.out
    ensures Stands(g, AfterSeek(c, offset, whence)) && o == Answer(g.At(0), c, Seek(offset, whence))
    ensures g.input == old(g.input) && g.out == old(g.out)
  {
    hide Drop, AfterSeek, Stands, Magic;
    IsGood(g, c);
    if whence != SEEK_SET && whence != SEEK_CUR {
      var r := g.Gzseek(offset, whence);
      o := Outcome(r, []);
      BadWhence(c, offset, whence);
    } else if g.how == LOOK {
      o := SeekAtStart(g, c, offset, whence);
    } else {
      o := SeekInPlace(g, c, offset, whence);
    }
  }

  lemma BadWhence(c: Cursor, offset: int, whence: int)
    requires whence != SEEK_SET && whence != SEEK_CUR
    ensures AfterSeek(c, offset, whence) == c
  {
  }

  lemma RestOf(g: GzReader, c: Cursor)
    requires Stands(g, c)
    ensures g.Rest() == c.pushed + (if c.Placed? then g.At(c.at) else g.At(0))
  {
    hide Drop;
    if c.Unread? {
      LeftStart(g);
    }
  }

  method RewindOne(g: GzReader, ghost c: Cursor) returns (o: Outcome)
    requires Stands(g, c)
    modifies g, g.input, g.out
    ensures Stands(g, AfterOp(g.At(0), g.want, c, Rewind)) && o == Answer(g.At(0), c, Rewind)
    ensures g.input == old(g.input) && g.out == old(g.out)
  {
    hide Drop;
    var r := g.Gzrewind();
    o := Outcome(r, []);
  }

  /** One call, on the reader and on the cursor. */
  method RunOne(g: GzReader, ghost c: Cursor, op: Op) returns (full: bool, o: Outcome)
    requires Stands(g, c) && (op.Read? ==> op.n < INT_LIMIT)
    modifies g, g.input, g.out
    ensures full <==> op.Ungetc? && op.c >= 0 && Full(g.At(0), g.want, c)
    ensures !full ==> Stands(g, AfterOp(g.At(0), g.want, c, op)) && o == Answer(g.At(0), c, op)
    ensures (g.input == old(g.input) && g.out == old(g.out)) || (fresh(g.input) && fresh(g.out))
  {
    hide Stands, AfterRead, AfterSeek, Applied, Ahead, Drop, Take;
    full := false;
    match op
    case Read(n) => o := ReadOne(g, c, n);
    case Getc => o := GetOne(g, c);
    case Ungetc(b) => full, o := UngetOne(g, c, b);
    case Seek(offset, whence) => o := SeekOne(g, c, offset, whence);
    case Rewind => o := RewindOne(g, c);
  }

  /** The reader is its cursor, over whole runs: whatever reads, single-byte reads, push-backs, seeks
      and rewinds came before, and however the descriptor cuts its reads, each call returns what the
      reference cursor says and gztell64 reports where it stands. A run ends early exactly at a
      push-back that finds the buffer full, and never right after a call that took bytes. */
  method Run(file: seq<Byte>, start: nat, want: Want, ops: seq<Op>) returns (tells: seq<int>, outs: seq<Outcome>)
    requires !Magic(Drop(file, start))
    requires forall i :: 0 <= i < |ops| && ops[i].Read? ==> ops[i].n < INT_LIMIT
    ensures |outs| <= |ops| && |tells| == |outs| + 1
    ensures forall i :: 0 <= i <= |outs| && i < |ops| ==>
              (i == |outs| <==> Refused(Drop(file, start), want, ops, i))
    ensures 0 < |outs| < |ops| ==> !Reads(ops[|outs| - 1])
    ensures forall i :: 0 <= i < |outs| ==>
              outs[i] == Answer(Drop(file, start), AfterOps(Drop(file, start), want, ops[..i]), ops[i])
    ensures forall i :: 0 <= i <= |outs| ==> tells[i] == TellOf(AfterOps(Drop(file, start), want, ops[..i]))
    ensures var stream := if start <= |file| then file[start..] else [];
            && (forall i: nat :: i < |outs| ==> Told(stream, ops, i, tells[i], tells[i + 1], outs[i]))
            && (forall i: nat :: i + 1 < |outs| ==> PushTold(stream, ops, i, tells[i], outs[i], outs[i + 1]))
    ensures forall i, j :: 0 <= j < i < |outs| && Reads(ops[j]) ==> outs[i] != LeftOut
  {
    tells, outs := Go(file, start, want, ops);
    hide Told, PushTold, Answer, AfterOps, TellOf, Magic, Refused, Reads, Drop;
    var stream := Drop(file, start);
    assert stream == if start <= |file| then file[start..] else [] by { DropIs(file, start); }
    forall i: nat | i < |outs| ensures Told(stream, ops, i, tells[i], tells[i + 1], outs[i]) {
      CallTold(stream, want, ops, i);
    }
    forall i: nat | i + 1 < |outs| ensures PushTold(stream, ops, i, tells[i], outs[i], outs[i + 1]) {
      PushIsTold(stream, want, ops, i);
    }
    forall i, j | 0 <= j < i < |outs| && Reads(ops[j]) ensures outs[i] != LeftOut {
      NotLeftOut(stream, want, ops, j, i);
    }
  }

  lemma NotLeftOut(stream: seq<Byte>, want: Want, ops: seq<Op>, j: nat, i: nat)
    requires j < i < |ops| && Reads(ops[j])
    ensures Answer(stream, AfterOps(stream, want, ops[..i]), ops[i]) != LeftOut
  {
    hide AfterOps, Take, Reads;
    ReadsMakeRoom(stream, want, ops[..i]);
    assert Reads(ops[..i][j]);
  }

  lemma DropIs(s: seq<Byte>, n: nat)
    ensures Drop(s, n) == if n <= |s| then s[n..] else []
  {
  }

  /** The run call by call, against the cursor. */
  method Go(file: seq<Byte>, start: nat, want: Want, ops: seq<Op>) returns (tells: seq<int>, outs: seq<Outcome>)
    requires !Magic(Drop(file, start))
    requires forall i :: 0 <= i < |ops| && ops[i].Read? ==> ops[i].n < INT_LIMIT
    ensures |outs| <= |ops| && |tells| == |outs| + 1
    ensures forall i :: 0 <= i <= |outs| && i < |ops| ==>
              (i == |outs| <==> Refused(Drop(file, start), want, ops, i))
    ensures 0 < |outs| < |ops| ==> !Reads(ops[|outs| - 1])
    ensures forall i :: 0 <= i < |outs| ==>
              outs[i] == Answer(Drop(file, start), AfterOps(Drop(file, start), want, ops[..i]), ops[i])
    ensures forall i :: 0 <= i <= |outs| ==> tells[i] == TellOf(AfterOps(Drop(file, start), want, ops[..i]))
  {
    hide Drop, Take, Splice, Magic, Stands, Answer, AfterOp, AfterOps, TellOf, Full, Reads;
    var g := new GzReader(file, start, want);
    ghost var stream, c, room := Drop(file, start), NEW, false;
    Fresh(g);
    NoOps(stream, want, ops);
    tells, outs := [0], [];
    for i := 0 to |ops|
      invariant Stands(g, c) && fresh(g) && fresh(g.input) && fresh(g.out)
      invariant g.file == file && g.start == start && g.want == want
      invariant c == AfterOps(stream, want, ops[..i])
      invariant i > 0 && Reads(ops[i - 1]) ==> !Full(stream, want, c)
      invariant |tells| == i + 1 && |outs| == i
      invariant forall j :: 0 <= j < i ==> !Refused(stream, want, ops, j)
      invariant forall j :: 0 <= j < i ==> outs[j] == Answer(stream, AfterOps(stream, want, ops[..j]), ops[j])
      invariant forall j :: 0 <= j <= i ==> tells[j] == TellOf(AfterOps(stream, want, ops[..j]))
    {
      BufferHolds(g, c);
      RoomAfter(stream, want, c, ops[i]);
      var full, o := RunOne(g, c, ops[i]);
      if full {
        return;
      }
      OneOpMore(stream, want, ops, i);
      c := AfterOp(stream, want, c, ops[i]);
      var after := g.Gztell();
      TellsTruly(g, c);
      tells, outs := tells + [after], outs + [o];
    }
  }

  // ---------------------------------------------------------------- the run told by bytes and positions

  /** At most so many pushed-back bytes are still to come after these calls. */
  function Outstanding(ops: seq<Op>): nat {
    if ops == [] then 0
    else
      var before := Outstanding(ops[..|ops| - 1]);
      match ops[|ops| - 1]
      case Read(n) => Less(before, n)
      case Getc => Less(before, 1)
      case Ungetc(c) => if c >= 0 then before + 1 else before
      case Seek(offset, whence) => if whence == SEEK_SET && offset >= 0 then 0 else before
      case Rewind => 0
  }

  lemma {:induction false} PushedIsOutstanding(stream: seq<Byte>, want: Want, ops: seq<Op>)
    ensures var c := AfterOps(stream, want, ops);
            |c.pushed| <= Outstanding(ops) && (c.Unread? && c.skip > 0 ==> c.pushed == [])
  {
    hide Take, Kept;
    if ops == [] {
    } else {
      PushedIsOutstanding(stream, want, ops[..|ops| - 1]);
    }
  }

  /** What call i does, told by the stream's bytes, the reported positions t before and t' after it, and
      its outcome o. Without pushed-back bytes to come, a read gives the bytes from position t on, as
      many as asked for or there are. A seek goes to its target, a rewind to the start. */
  predicate Told(stream: seq<Byte>, ops: seq<Op>, i: nat, t: int, t': int, o: Outcome)
    requires i < |ops|
  {
    match ops[i]
    case Read(n) => Outstanding(ops[..i]) == 0 ==> ReadTold(stream, n, t, t', o)
    case Getc => Outstanding(ops[..i]) == 0 ==> GetTold(stream, t, t', o)
    case Seek(offset, whence) =>
      var target := if whence == SEEK_SET then offset else t + offset;
      if whence != SEEK_SET && whence != SEEK_CUR then o == Outcome(-1, []) && t' == t
      else if target >= 0 then o == Outcome(target, []) && t' == target
      else Outstanding(ops[..i]) == 0 ==> o == Outcome(-1, [])
    case Rewind => o == Outcome(0, []) && t' == 0
    case Ungetc(b) => o == (if b < 0 then Outcome(-1, []) else if o.LeftOut? then LeftOut else Outcome(b, []))
  }

  predicate ReadTold(stream: seq<Byte>, n: nat, t: int, t': int, o: Outcome) {
    && t >= 0 && o.Outcome? && o.result == |o.bytes|
    && (t <= |stream| ==> t' == t + |o.bytes| && o.bytes == stream[t..if t + n <= |stream| then t + n else |stream|])
    && (t > |stream| ==> o.bytes == [])
  }

  predicate GetTold(stream: seq<Byte>, t: int, t': int, o: Outcome) {
    && t >= 0 && o == Outcome(if t < |stream| then stream[t] else -1, [])
    && (t < |stream| ==> t' == t + 1)
  }

  /** A push-back of b that is taken, followed by a read: b comes first, and then, if nothing else was
      pushed back, what lay at the position before. */
  predicate PushTold(stream: seq<Byte>, ops: seq<Op>, i: nat, t: int, o: Outcome, o': Outcome)
    requires i + 1 < |ops|
  {
    ops[i].Ungetc? && ops[i].c >= 0 && o.Outcome? ==>
      && (ops[i + 1].Getc? ==> o' == Outcome(ops[i].c % 256, []))
      && (ops[i + 1].Read? && ops[i + 1].n > 0 ==>
            && o'.Outcome? && o'.bytes != [] && o'.result == |o'.bytes| && o'.bytes[0] == ops[i].c % 256
            && (Outstanding(ops[..i]) == 0 && 0 <= t <= |stream| ==>
                  var end := t + ops[i + 1].n - 1;
                  o'.bytes == [ops[i].c % 256] + stream[t..if end <= |stream| then end else |stream|]))
  }

  lemma CallTold(stream: seq<Byte>, want: Want, ops: seq<Op>, i: nat)
    requires i < |ops|
    ensures var c, c' := AfterOps(stream, want, ops[..i]), AfterOps(stream, want, ops[..i + 1]);
            Told(stream, ops, i, TellOf(c), TellOf(c'), Answer(stream, c, ops[i]))
  {
    hide Kept, AfterRead, AfterOps, Drop, Take, ReadTold, GetTold, Outstanding;
    var c, c' := AfterOps(stream, want, ops[..i]), AfterOps(stream, want, ops[..i + 1]);
    PushedIsOutstanding(stream, want, ops[..i]);
    OneOpMore(stream, want, ops, i);
    if c.pushed == [] && (ops[i].Read? || ops[i].Getc?) {
      ReadIsTold(stream, want, c, if ops[i].Getc? then 1 else ops[i].n);
    }
    if ops[i].Seek? {
      SeekIsTold(stream, c, ops[i].offset, ops[i].whence);
    }
  }

  lemma ReadIsTold(stream: seq<Byte>, want: Want, c: Cursor, n: nat)
    requires c.pushed == []
    ensures ReadTold(stream, n, TellOf(c), TellOf(AfterRead(stream, want, c, n)), Answer(stream, c, Read(n)))
    ensures n == 1 ==> GetTold(stream, TellOf(c), TellOf(AfterRead(stream, want, c, n)), Answer(stream, c, Getc))
  {
    hide AfterRead, Applied, Base, Ahead, Take, Drop;
    CursorReads(stream, want, c, n);
    var t := TellOf(c);
    FirstOfDrop(stream, t);
    if t <= |stream| {
      TakeOfDrop(stream, t, n);
    } else {
      NothingBehind(stream, t, n);
    }
  }

  lemma FirstOfDrop(s: seq<Byte>, t: nat)
    ensures if t < |s| then Drop(s, t) != [] && Drop(s, t)[0] == s[t] else Drop(s, t) == []
  {
  }

  lemma NothingBehind(s: seq<Byte>, t: nat, n: nat)
    requires t > |s|
    ensures Drop(s, t) == [] == Take(Drop(s, t), n)
  {
  }

  lemma SeekIsTold(stream: seq<Byte>, c: Cursor, offset: int, whence: int)
    requires c.Unread? && c.skip > 0 ==> c.pushed == []
    ensures var o, target := Answer(stream, c, Seek(offset, whence)), Target(c, offset, whence);
            var t' := TellOf(AfterSeek(c, offset, whence));
            if whence != SEEK_SET && whence != SEEK_CUR then o == Outcome(-1, []) && t' == TellOf(c)
            else if target >= 0 then o == Outcome(target, []) && t' == target
            else c.pushed == [] ==> o == Outcome(-1, [])
  {
    if (whence == SEEK_SET || whence == SEEK_CUR) && Target(c, offset, whence) >= 0 {
      CursorSeeks(stream, c, offset, whence);
    }
  }

  lemma PushIsTold(stream: seq<Byte>, want: Want, ops: seq<Op>, i: nat)
    requires i + 1 < |ops|
    ensures var c, c' := AfterOps(stream, want, ops[..i]), AfterOps(stream, want, ops[..i + 1]);
            PushTold(stream, ops, i, TellOf(c), Answer(stream, c, ops[i]), Answer(stream, c', ops[i + 1]))
  {
    hide Kept, AfterRead, AfterOps, Outstanding, Applied;
    var c := AfterOps(stream, want, ops[..i]);
    PushedIsOutstanding(stream, want, ops[..i]);
    OneOpMore(stream, want, ops, i);
    if ops[i].Ungetc? && ops[i].c >= 0 && HasBuffer(c) && (ops[i + 1].Read? ==> ops[i + 1].n > 0) {
      PushThenTake(stream, want, c, ops[i].c, if ops[i + 1].Read? then ops[i + 1].n else 1);
    }
  }

  lemma PushThenTake(stream: seq<Byte>, want: Want, c: Cursor, b: int, n: nat)
    requires HasBuffer(c) && b >= 0 && n > 0
    ensures var c' := AfterOp(stream, want, c, Ungetc(b));
            var o := Answer(stream, c', Read(n));
            && Answer(stream, c', Getc) == Outcome(b % 256, [])
            && o.bytes != [] && o == Outcome(|o.bytes|, o.bytes) && o.bytes[0] == b % 256
            && (c.pushed == [] && TellOf(c) <= |stream| ==>
                  var end := TellOf(c) + n - 1;
                  o.bytes == [b % 256] + stream[TellOf(c)..if end <= |stream| then end else |stream|])
  {
    hide Kept, AfterRead, Applied, AfterOp, Ahead, Take, Drop, TellOf;
    CursorPushes(stream, want, c, b);
    if c.pushed == [] {
      CursorReads(stream, want, c, 0);
    }
    FirstOfTake(b % 256, Ahead(stream, c), n);
    if c.pushed == [] && TellOf(c) <= |stream| {
      TakeOfDrop(stream, TellOf(c), n - 1);
    }
  }

  lemma FirstOfTake(b: Byte, s: seq<Byte>, n: nat)
    requires n > 0
    ensures Take([b] + s, n) == [b] + Take(s, n - 1)
  {
  }

  lemma TakeOfDrop(s: seq<Byte>, t: nat, n: nat)
    requires t <= |s|
    ensures Take(Drop(s, t), n) == s[t..if t + n <= |s| then t + n else |s|]
  {
  }

  /** A call that takes bytes makes the buffer for good. */
  lemma {:induction false} ReadsMakeRoom(stream: seq<Byte>, want: Want, ops: seq<Op>)
    ensures var c := AfterOps(stream, want, ops);
            && (c.pushed == [] || c.Placed? || c.made)
            && ((exists j :: 0 <= j < |ops| && Reads(ops[j])) ==> c.Placed? || c.made)
  {
    hide AfterOp;
    if ops == [] {
    } else {
      var n := |ops| - 1;
      ReadsMakeRoom(stream, want, ops[..n]);
      RoomStays(stream, want, AfterOps(stream, want, ops[..n]), ops[n]);
      assert forall j :: 0 <= j < n ==> ops[..n][j] == ops[j];
    }
  }

  lemma RoomStays(stream: seq<Byte>, want: Want, c: Cursor, op: Op)
    requires c.pushed == [] || c.Placed? || c.made
    ensures var c' := AfterOp(stream, want, c, op);
            && (c'.pushed == [] || c'.Placed? || c'.made)
            && (c.Placed? || c.made || Reads(op) ==> c'.Placed? || c'.made)
  {
    hide Take, Drop, Kept, Ahead;
  }

  /** What is pushed back comes first, then exactly what would have been read before, also at the end
      of the file and whatever the length of the read. */
  method PushBackThenRead(g: GzReader, text: seq<Byte>, n: nat) returns (bytes: seq<Byte>)
    requires g.Good() && !g.seek && g.size > 0 && g.have + |text| <= 2 * g.size && n < INT_LIMIT
    modifies g, g.input, g.out
    ensures g.Good() && bytes == Take(text + old(g.View()), n)
    ensures g.View() == Drop(text + old(g.View()), |bytes|)
  {
    hide Drop, Take, Splice;
    ghost var all := text + g.View();
    g.PushBack(text);
    var buf := new Byte[n];
    ghost var before := buf[..];
    var r := g.Gzread(buf, n);
    SpliceGives(before, Take(all, n));
    var read := buf[..];
    bytes := read[..r];
  }
}
