/** The source image opened for reading (`open(src, 'rb')`): its contents never
    change, only the cursor that `seek` and `read` move. */
module Cursor {
  import opened Bytes

  class SourceFile {
    const data: seq<byte>
    var pos: nat

    constructor Open(contents: seq<byte>)
      ensures data == contents && pos == 0
    {
      data := contents;
      pos := 0;
    }

    /** `seek(p)`: absolute positioning; any position at or after 0 is legal. */
    method Seek(p: nat)
      modifies this`pos
      ensures pos == p
    {
      pos := p;
    }

    /** `seek(delta, 1)`: relative positioning; moving before the start of the
        file fails and leaves the cursor where it was. */
    method SeekRelative(delta: int) returns (ok: bool)
      modifies this`pos
      ensures ok <==> old(pos) + delta >= 0
      ensures pos == if ok then old(pos) + delta else old(pos)
    {
      ok := pos + delta >= 0;
      if ok {
        pos := pos + delta;
      }
    }

    /** `read(n)` for n >= -1: returns what `ReadAt` describes and advances
        the cursor past the bytes returned. */
    method Read(n: int) returns (chunk: seq<byte>)
      requires n >= -1
      modifies this`pos
      ensures chunk == ReadAt(data, old(pos), n)
      ensures pos == old(pos) + |chunk|
    {
      chunk := ReadAt(data, pos, n);
      pos := pos + |chunk|;
    }
  }
}
