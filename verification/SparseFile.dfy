/** The sparse file writer of contrib/zstd/programs/fileio.c: zero runs become forward seeks,
    and the result must be the file a plain writer produces. */
module SparseFile {
  import opened Bytes

  const KB: nat := 1024
  const GB: nat := 0x4000_0000
  const WORD: nat := 8
  const SEGMENT_WORDS: nat := 32 * 1024 / 8

  /** FIO_prefs_t, the two fields the writer reads. */
  datatype Prefs = Prefs(testMode: bool, sparseFileSupport: bool)

  function PadTo(s: seq<Byte>, n: nat): (r: seq<Byte>)
    ensures |r| == (if |s| < n then n else |s|) && s <= r && forall i :: |s| <= i < |r| ==> r[i] == 0
  {
    if |s| < n then s + Zeros(n - |s|) else s
  }

  /** A stdio stream. Seeking past the end is allowed; a later write fills the gap with zeros. */
  class File {
    var data: seq<Byte>
    var pos: nat

    constructor (data: seq<Byte>)
      ensures this.data == data && pos == |data|
    {
      this.data, pos := data, |data|;
    }

    method Seek(n: nat)
      modifies this
      ensures pos == old(pos) + n && data == old(data)
    {
      pos := pos + n;
    }

    method Write(bytes: seq<Byte>)
      modifies this
      ensures pos == old(pos) + |bytes|
      ensures bytes == [] ==> data == old(data)
      ensures bytes != [] ==> data == PadTo(old(data), old(pos))[..old(pos)] + bytes
                                      + (if pos < |old(data)| then old(data)[pos..] else [])
    {
      if bytes != [] {
        data := PadTo(data, pos)[..pos] + bytes + (if pos + |bytes| < |data| then data[pos + |bytes|..] else []);
        pos := pos + |bytes|;
      }
    }
  }

  /** The bytes the caller has handed over: what is on disk, the gap up to the file position, and
      the zeros still owed. */
  function Logical(data: seq<Byte>, pos: nat, storedSkips: nat): seq<Byte> {
    PadTo(data, pos) + Zeros(storedSkips)
  }

  /** At or past the end of the file, and past it only while zeros are owed, so that the closing
      zero byte always fixes the length. */
  predicate AtEnd(data: seq<Byte>, pos: nat, storedSkips: nat) {
    pos >= |data| && (pos > |data| ==> storedSkips > 0)
  }

  lemma OweMore(data: seq<Byte>, pos: nat, storedSkips: nat, k: nat)
    ensures Logical(data, pos, storedSkips + k) == Logical(data, pos, storedSkips) + Zeros(k)
  {
  }

  lemma SeekPays(data: seq<Byte>, pos: nat, storedSkips: nat, k: nat)
    requires pos >= |data| && k <= storedSkips
    ensures Logical(data, pos + k, storedSkips - k) == Logical(data, pos, storedSkips)
  {
  }

  lemma Landed(data: seq<Byte>)
    ensures Logical(data, |data|, 0) == data
  {
  }

  /** Zeros read from the buffer are owed. */
  lemma OweSlice(data: seq<Byte>, pos: nat, storedSkips: nat, logical: seq<Byte>, buffer: seq<Byte>, from: nat, to: nat)
    requires from <= to <= |buffer| && buffer[from..to] == Zeros(to - from)
    requires Logical(data, pos, storedSkips) == logical + buffer[..from]
    ensures Logical(data, pos, storedSkips + (to - from)) == logical + buffer[..to]
  {
    OweMore(data, pos, storedSkips, to - from);
    Regroup(logical, buffer[..from], buffer[from..to]);
    assert buffer[..from] + buffer[from..to] == buffer[..to];
  }

  /** Bytes written after what was owed: nothing is owed any more. */
  lemma WroteSlice(data: seq<Byte>, logical: seq<Byte>, buffer: seq<Byte>, from: nat, to: nat)
    requires from <= to <= |buffer|
    requires data == (logical + buffer[..from]) + buffer[from..to]
    ensures Logical(data, |data|, 0) == logical + buffer[..to]
  {
    Landed(data);
    Regroup(logical, buffer[..from], buffer[from..to]);
    assert buffer[..from] + buffer[from..to] == buffer[..to];
  }

  predicate ZeroWord(buffer: seq<Byte>, w: nat)
    requires (w + 1) * WORD <= |buffer|
  {
    forall i :: w * WORD <= i < (w + 1) * WORD ==> buffer[i] == 0
  }

  /** The counter after the "avoid int overflow" step. */
  function AfterGbSkip(storedSkips: nat): nat {
    if storedSkips > GB then storedSkips - GB else storedSkips
  }

  /** Seek over the zeros owed, then write: the owed zeros and the bytes are on disk. */
  method SkipAndWrite(file: File, storedSkips: nat, bytes: seq<Byte>)
    requires file.pos >= |file.data| && bytes != []
    modifies file
    ensures file.data == Logical(old(file.data), old(file.pos), storedSkips) + bytes
    ensures file.pos == |file.data|
  {
    ghost var data, pos := file.data, file.pos;
    file.Seek(storedSkips);
    file.Write(bytes);
    SeekPays(data, pos, storedSkips, storedSkips);
    assert PadTo(data, pos + storedSkips)[..pos + storedSkips] == Logical(data, pos + storedSkips, 0);
  }

  method CountZeroWords(buffer: seq<Byte>, start: nat, size: nat) returns (nb0T: nat)
    requires (start + size) * WORD <= |buffer|
    ensures nb0T <= size
    ensures buffer[start * WORD..(start + nb0T) * WORD] == Zeros(nb0T * WORD)
    ensures nb0T < size ==> !ZeroWord(buffer, start + nb0T)
  {
    nb0T := 0;
    while nb0T < size && ZeroWord(buffer, start + nb0T)
      invariant nb0T <= size
      invariant forall i :: start * WORD <= i < (start + nb0T) * WORD ==> buffer[i] == 0
    {
      nb0T := nb0T + 1;
    }
    AllZero(buffer[start * WORD..(start + nb0T) * WORD]);
  }

  /** One segment of at most 32 KB: its leading zero words are owed, the rest is written. */
  method WriteSegment(file: File, buffer: seq<Byte>, ptrT: nat, seg0SizeT: nat, skipsIn: nat, ghost logical: seq<Byte>)
    returns (storedSkips: nat)
    requires (ptrT + seg0SizeT) * WORD <= |buffer| && skipsIn + seg0SizeT * WORD < TWO_32
    requires AtEnd(file.data, file.pos, skipsIn)
    requires Logical(file.data, file.pos, skipsIn) == logical + buffer[..ptrT * WORD]
    modifies file
    ensures AtEnd(file.data, file.pos, storedSkips)
    ensures Logical(file.data, file.pos, storedSkips) == logical + buffer[..(ptrT + seg0SizeT) * WORD]
    ensures storedSkips <= skipsIn + seg0SizeT * WORD
  {
    hide Logical, ZeroWord, PadTo, Zeros;
    var nb0T := CountZeroWords(buffer, ptrT, seg0SizeT);
    OweSlice(file.data, file.pos, skipsIn, logical, buffer, ptrT * WORD, (ptrT + nb0T) * WORD);
    storedSkips := (skipsIn + nb0T * WORD) % TWO_32;
    if nb0T != seg0SizeT {
      SkipAndWrite(file, storedSkips, buffer[(ptrT + nb0T) * WORD..(ptrT + seg0SizeT) * WORD]);
      storedSkips := 0;
      WroteSlice(file.data, logical, buffer, (ptrT + nb0T) * WORD, (ptrT + seg0SizeT) * WORD);
    }
  }

  /** FIO_fwriteSparse. The counter is a 32-bit unsigned; the last precondition is what keeps its
      sums from wrapping, and CounterStaysSmall shows that buffers up to 1 GB always meet it. */
  method FwriteSparse(file: File, buffer: seq<Byte>, prefs: Prefs, skipsIn: nat) returns (storedSkips: nat)
    requires prefs.testMode || !prefs.sparseFileSupport ==> skipsIn == 0
    requires AtEnd(file.data, file.pos, skipsIn)
    requires skipsIn < TWO_32 && AfterGbSkip(skipsIn) + |buffer| < TWO_32
    modifies file
    ensures AtEnd(file.data, file.pos, storedSkips)
    ensures prefs.testMode ==> storedSkips == 0 && file.data == old(file.data) && file.pos == old(file.pos)
    ensures !prefs.testMode ==>
              Logical(file.data, file.pos, storedSkips) == Logical(old(file.data), old(file.pos), skipsIn) + buffer
    ensures storedSkips <= AfterGbSkip(skipsIn) + |buffer|
    ensures !prefs.sparseFileSupport ==> storedSkips == 0
  {
    storedSkips := skipsIn;
    if prefs.testMode {
      return 0;
    }
    ghost var logical := Logical(file.data, file.pos, skipsIn);
    if !prefs.sparseFileSupport {
      if buffer != [] {
        SkipAndWrite(file, 0, buffer);
      }
      Landed(file.data);
      return 0;
    }

    if storedSkips > GB {
      SeekPays(file.data, file.pos, storedSkips, GB);
      file.Seek(GB);
      storedSkips := storedSkips - GB;
    }

    var bufferSizeT: nat := |buffer| / WORD;
    var bufferTEnd := bufferSizeT;
    var ptrT: nat := 0;
    assert buffer[..0] == [];
    while ptrT < bufferTEnd
      invariant ptrT + bufferSizeT == bufferTEnd == |buffer| / WORD
      invariant AtEnd(file.data, file.pos, storedSkips)
      invariant Logical(file.data, file.pos, storedSkips) == logical + buffer[..ptrT * WORD]
      invariant storedSkips <= AfterGbSkip(skipsIn) + ptrT * WORD
    {
      var seg0SizeT := if SEGMENT_WORDS > bufferSizeT then bufferSizeT else SEGMENT_WORDS;
      bufferSizeT := bufferSizeT - seg0SizeT;
      storedSkips := WriteSegment(file, buffer, ptrT, seg0SizeT, storedSkips, logical);
      ptrT := ptrT + seg0SizeT;
    }

    if |buffer| % WORD != 0 {
      storedSkips := WriteTail(file, buffer, bufferTEnd * WORD, storedSkips, logical);
    } else {
      assert buffer[..ptrT * WORD] == buffer;
    }
  }

  /** The bytes after the last whole word. */
  method WriteTail(file: File, buffer: seq<Byte>, restStart: nat, skipsIn: nat, ghost logical: seq<Byte>)
    returns (storedSkips: nat)
    requires restStart < |buffer| && skipsIn + (|buffer| - restStart) < TWO_32
    requires AtEnd(file.data, file.pos, skipsIn)
    requires Logical(file.data, file.pos, skipsIn) == logical + buffer[..restStart]
    modifies file
    ensures AtEnd(file.data, file.pos, storedSkips)
    ensures Logical(file.data, file.pos, storedSkips) == logical + buffer
    ensures storedSkips <= skipsIn + (|buffer| - restStart)
  {
    hide Logical, PadTo, Zeros;
    var restPtr := restStart;
    while restPtr < |buffer| && buffer[restPtr] == 0
      invariant restStart <= restPtr <= |buffer|
      invariant forall i :: restStart <= i < restPtr ==> buffer[i] == 0
    {
      restPtr := restPtr + 1;
    }
    AllZero(buffer[restStart..restPtr]);
    OweSlice(file.data, file.pos, skipsIn, logical, buffer, restStart, restPtr);
    storedSkips := (skipsIn + (restPtr - restStart)) % TWO_32;
    if restPtr != |buffer| {
      SkipAndWrite(file, storedSkips, buffer[restPtr..|buffer|]);
      storedSkips := 0;
      WroteSlice(file.data, logical, buffer, restPtr, |buffer|);
    }
    assert buffer[..|buffer|] == buffer;
  }

  /** FIO_fwriteSparseEnd: everything owed is on disk and the file ends at the position. */
  method FwriteSparseEnd(file: File, prefs: Prefs, storedSkips: nat)
    requires prefs.testMode ==> storedSkips == 0
    requires AtEnd(file.data, file.pos, storedSkips)
    modifies file
    ensures file.data == Logical(old(file.data), old(file.pos), storedSkips)
    ensures file.pos == |file.data|
  {
    if storedSkips > 0 {
      var lastZeroByte: seq<Byte> := [0];
      OweMore(file.data, file.pos, storedSkips - 1, 1);
      assert Zeros(1) == lastZeroByte;
      SkipAndWrite(file, storedSkips - 1, lastZeroByte);
    } else {
      Landed(file.data);
    }
  }

  /** Calls with buffers of at most B <= 1 GB keep the counter at most 1 GB + B, so no call's
      32-bit sums wrap. */
  lemma CounterStaysSmall(skipsIn: nat, size: nat, b: nat)
    requires skipsIn <= GB + b && size <= b <= GB
    ensures AfterGbSkip(skipsIn) + size <= GB + b < TWO_32
  {
  }

  /** Any sequence of calls and the closing call: the file is the old content followed by all the
      buffers, and the outcome does not depend on whether sparse support is on. In test mode nothing
      is written. */
  method WriteBlocks(file: File, blocks: seq<seq<Byte>>, prefs: Prefs, ghost b: nat)
    requires file.pos == |file.data|
    requires b <= GB && forall i :: 0 <= i < |blocks| ==> |blocks[i]| <= b
    modifies file
    ensures file.data == old(file.data) + if prefs.testMode then [] else Concat(blocks)
    ensures file.pos == |file.data|
  {
    var storedSkips: nat := 0;
    Landed(file.data);
    for i := 0 to |blocks|
      invariant storedSkips <= GB + b
      invariant prefs.testMode || !prefs.sparseFileSupport ==> storedSkips == 0
      invariant AtEnd(file.data, file.pos, storedSkips)
      invariant Logical(file.data, file.pos, storedSkips)
             == old(file.data) + if prefs.testMode then [] else Concat(blocks[..i])
    {
      CounterStaysSmall(storedSkips, |blocks[i]|, b);
      storedSkips := FwriteSparse(file, blocks[i], prefs, storedSkips);
      ConcatLast(blocks[..i], blocks[i]);
      assert blocks[..i + 1] == blocks[..i] + [blocks[i]];
      Regroup(old(file.data), Concat(blocks[..i]), blocks[i]);
    }
    assert blocks[..|blocks|] == blocks;
    FwriteSparseEnd(file, prefs, storedSkips);
  }

  /** FIO_passThrough: the loaded bytes, which go out in test mode too, and the rest of the input,
      unchanged. A buffer of size zero would make the loop run for ever: every read returns the block
      size. */
  method PassThrough(foutput: File, input: seq<Byte>, loaded: seq<Byte>, bufferSize: nat, prefs: Prefs)
    requires foutput.pos == |foutput.data| && bufferSize > 0
    modifies foutput
    ensures foutput.data == old(foutput.data) + loaded + if prefs.testMode then [] else input
  {
    var blockSize := Min(64 * KB, bufferSize);
    if loaded != [] {
      SkipAndWrite(foutput, 0, loaded);
    }
    Landed(foutput.data);
    Landed(old(foutput.data));
    ghost var written := foutput.data;
    var storedSkips: nat, at := 0, 0;
    var readFromInput := blockSize;
    while readFromInput == blockSize
      invariant at <= |input| && readFromInput <= blockSize
      invariant readFromInput < blockSize ==> at == |input|
      invariant storedSkips <= GB + 64 * KB
      invariant prefs.testMode || !prefs.sparseFileSupport ==> storedSkips == 0
      invariant AtEnd(foutput.data, foutput.pos, storedSkips)
      invariant Logical(foutput.data, foutput.pos, storedSkips) == written + if prefs.testMode then [] else input[..at]
      decreases |input| - at, readFromInput
    {
      readFromInput := Min(blockSize, |input| - at);
      CounterStaysSmall(storedSkips, readFromInput, 64 * KB);
      storedSkips := FwriteSparse(foutput, input[at..at + readFromInput], prefs, storedSkips);
      assert input[..at] + input[at..at + readFromInput] == input[..at + readFromInput];
      Regroup(written, input[..at], input[at..at + readFromInput]);
      at := at + readFromInput;
    }
    assert input[..at] == input;
    FwriteSparseEnd(foutput, prefs, storedSkips);
  }
}
