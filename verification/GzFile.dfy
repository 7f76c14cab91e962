/** What the gz reader and the gz writer share (contrib/zstd/zlibWrapper/gzguts.h, gzlib.c). */
module GzFile {
  /** Lengths from here on do not fit a signed int. */
  const INT_LIMIT: nat := 0x8000_0000

  /** The most that one read() or write() is asked for. */
  const MAX_IO: nat := 0x4000_0000

  const SEEK_SET: int := 0
  const SEEK_CUR: int := 1
}
