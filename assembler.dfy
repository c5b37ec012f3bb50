/** Assembly of the flashable image: exactly 0x1000000 bytes taken from the
    payload offset on, with the UID slot either copied, overwritten by the
    contents of a UID file, or blanked with 0xFF. The tool moves one file
    cursor with `seek` and `read` and concatenates what it reads. */
module Assembler {
  import opened Bytes
  import opened Cursor
  import opened UidLocator

  /** The size of the serial NOR flash the image is written to. */
  const FlashSize: nat := 0x1000000

  /** The UID handling asked for: the contents of a UID file to inject
      (`-i`, or the file just generated), and whether to remove (`-r`). */
  datatype UidRequest = UidRequest(inject: Option<seq<byte>>, remove: bool)

  /** A request that touches the UID slot needs a located block; without one
      the tool stops with a TypeError. */
  predicate Serviceable(block: Option<UidBlock>, req: UidRequest) {
    req.inject.Some? || req.remove ==> block.Some?
  }

  /** The UID file contents right-padded with 0xFF up to the slot size. A
      longer file is kept whole: nothing is ever cut off. */
  function Padded(uid: seq<byte>, size: int): (r: seq<byte>)
    ensures |r| >= |uid| && r[..|uid|] == uid
    ensures |r| == if size > |uid| then size else |uid|
    ensures forall i :: |uid| <= i < |r| ==> r[i] == 0xFF
  {
    if size > |uid| then uid + Fill(size - |uid|) else uid
  }

  /** The final size check of the tool. */
  function Checked(image: seq<byte>): (r: Result<seq<byte>>)
    ensures r.Ok? <==> |image| == FlashSize
    ensures r.Ok? ==> r.value == image
  {
    if |image| == FlashSize then Ok(image) else Err(SizeMismatch(|image|))
  }

  /** The bytes the tool assembles from `data`, read as Python 3 reads a
      binary file: short reads at the end, `read(-1)` to the end of file, a
      ValueError for any smaller count, an OSError for a relative seek before
      the start. Injection is chosen only when the block starts at or after
      the payload offset; otherwise the request falls through to removal or
      to a raw copy. */
  function Assemble(data: seq<byte>, off: nat, block: Option<UidBlock>, req: UidRequest): (r: Result<seq<byte>>)
    requires Serviceable(block, req)
    ensures r.Ok? ==> |r.value| == FlashSize
  {
    if req.inject.Some? && block.value.start >= off then
      var u := block.value;
      var payload := Padded(req.inject.value, SlotSize(u));
      var front := ReadAt(data, off, u.start - off);
      var head := front + payload;
      if |head| > FlashSize then Err(InjectOversized(|head|))
      else Checked(head + ReadAt(data, off + |front| + |payload|, FlashSize - |head|))
    else if req.remove then
      var u := block.value;
      if u.start - off < -1 then Err(BadReadLength(u.start - off))
      else
        var front := ReadAt(data, off, u.start - off);
        var head := front + Fill(if SlotSize(u) > 0 then SlotSize(u) else 0);
        var pos := off + |front| + SlotSize(u);
        if pos < 0 then Err(NegativeSeek(pos))
        else if FlashSize - |head| < -1 then Err(BadReadLength(FlashSize - |head|))
        else Checked(head + ReadAt(data, pos, FlashSize - |head|))
    else Checked(ReadAt(data, off, FlashSize))
  }

  /** The assembly steps of the tool on the open source file. Where the
      cursor ends is left unspecified: the tool closes the file next. */
  method AssembleImage(f: SourceFile, off: nat, block: Option<UidBlock>, req: UidRequest)
    returns (r: Result<seq<byte>>)
    requires Serviceable(block, req)
    modifies f`pos
    ensures r == Assemble(f.data, off, block, req)
  {
    if req.inject.Some? && block.value.start >= off {
      r := InjectImage(f, off, block.value, req);
    } else if req.remove {
      r := RemoveImage(f, off, block.value, req);
    } else {
      f.Seek(off);
      var image := f.Read(FlashSize);
      r := Checked(image);
    }
  }

  /** Injection: the payload up to the slot, the UID file padded to the slot
      size, then, after a relative seek over the padded file, the rest. */
  method InjectImage(f: SourceFile, off: nat, u: UidBlock, req: UidRequest)
    returns (r: Result<seq<byte>>)
    requires req.inject.Some? && u.start >= off
    modifies f`pos
    ensures r == Assemble(f.data, off, Some(u), req)
  {
    f.Seek(off);
    var payload := req.inject.value;
    if SlotSize(u) > |payload| {
      payload := payload + Fill(SlotSize(u) - |payload|);
    }
    var front := f.Read(u.start - off);
    var image := front + payload;
    var _ := f.SeekRelative(|payload|);
    if FlashSize >= |image| {
      var rest := f.Read(FlashSize - |image|);
      image := image + rest;
    } else {
      return Err(InjectOversized(|image|));
    }
    r := Checked(image);
  }

  /** Removal: the payload up to the slot, 0xFF over the slot, then, after a
      relative seek by the slot size, the rest. */
  method RemoveImage(f: SourceFile, off: nat, u: UidBlock, req: UidRequest)
    returns (r: Result<seq<byte>>)
    requires req.remove && !(req.inject.Some? && u.start >= off)
    modifies f`pos
    ensures r == Assemble(f.data, off, Some(u), req)
  {
    f.Seek(off);
    if u.start - off < -1 {
      return Err(BadReadLength(u.start - off));
    }
    var front := f.Read(u.start - off);
    assert front == ReadAt(f.data, off, u.start - off) && f.pos == off + |front|;
    var image := front + Fill(if SlotSize(u) > 0 then SlotSize(u) else 0);
    var ok := f.SeekRelative(SlotSize(u));
    if !ok {
      return Err(NegativeSeek(f.pos + SlotSize(u)));
    }
    assert f.pos == off + |front| + SlotSize(u);
    if FlashSize - |image| < -1 {
      return Err(BadReadLength(FlashSize - |image|));
    }
    var rest := f.Read(FlashSize - |image|);
    assert rest == ReadAt(f.data, off + |front| + SlotSize(u), FlashSize - |image|);
    image := image + rest;
    r := Checked(image);
  }

  // ------------------------------------------------------------ properties

  /** Injection into a block at or after the payload succeeds exactly when
      the bytes before the slot plus the padded UID fit in the flash and the
      source holds enough bytes to fill the rest; a UID longer than its slot
      is not rejected for that alone. */
  lemma {:induction false} InjectOutcome(data: seq<byte>, off: nat, u: UidBlock, uid: seq<byte>)
    requires u.start + 4 <= |data| && u.start >= off
    ensures var head := u.start - off + |Padded(uid, SlotSize(u))|;
            var r := Assemble(data, off, Some(u), UidRequest(Some(uid), false));
            && (head > FlashSize ==> r == Err(InjectOversized(head)))
            && (r.Ok? <==> head <= FlashSize && (head == FlashSize || off + FlashSize <= |data|))
  {
    var payload := Padded(uid, SlotSize(u));
    var front := ReadAt(data, off, u.start - off);
    assert |front| == u.start - off;
  }

  /** A successful injection keeps every byte outside the UID window: the
      image is the payload up to the slot, the padded UID, then the payload
      bytes that follow the UID's end. */
  lemma {:induction false} InjectLayout(data: seq<byte>, off: nat, u: UidBlock, uid: seq<byte>)
    requires u.start >= off
    requires u.start - off + |Padded(uid, SlotSize(u))| <= FlashSize
    requires off + FlashSize <= |data|
    ensures var p := Padded(uid, SlotSize(u));
            Assemble(data, off, Some(u), UidRequest(Some(uid), false)) ==
            Ok(data[off..u.start] + p + data[u.start + |p|..off + FlashSize])
  {
    var p := Padded(uid, SlotSize(u));
    var front := ReadAt(data, off, u.start - off);
    assert front == data[off..u.start];
    var rest := ReadAt(data, off + |front| + |p|, FlashSize - (|front| + |p|));
    assert rest == data[u.start + |p|..off + FlashSize];
  }

  /** Removing the UID of a block with a sentinel blanks the slot with 0xFF
      and changes nothing else. */
  lemma {:induction false} RemoveLayout(data: seq<byte>, off: nat, u: UidBlock, s: nat)
    requires u.sentinel == Some(s) && u.start >= off
    requires u.start - off + s <= FlashSize
    requires off + FlashSize <= |data|
    ensures var r := Assemble(data, off, Some(u), UidRequest(None, true));
            && r == Ok(data[off..u.start] + Fill(s) + data[u.start + s..off + FlashSize])
            && forall k :: 0 <= k < FlashSize ==>
                 r.value[k] == if u.start - off <= k < u.start - off + s then 0xFF else data[off + k]
  {
    var front := ReadAt(data, off, u.start - off);
    assert front == data[off..u.start];
    var rest := ReadAt(data, u.start + s, FlashSize - (|front| + s));
    assert rest == data[u.start + s..off + FlashSize];
    var image := data[off..u.start] + Fill(s) + data[u.start + s..off + FlashSize];
    forall k | 0 <= k < FlashSize
      ensures image[k] == if u.start - off <= k < u.start - off + s then 0xFF else data[off + k]
    {
      if k < u.start - off {
        assert image[k] == data[off..u.start][k];
      } else if k >= u.start - off + s {
        assert image[k] == data[u.start + s..off + FlashSize][k - (u.start - off + s)];
      }
    }
  }

  /** Removing a block that has no sentinel blanks nothing, and the relative
      seek by -1 makes the byte just before the anchor appear twice: every
      byte after it is shifted by one. */
  lemma {:induction false} RemoveWithoutSentinel(data: seq<byte>, off: nat, u: UidBlock)
    requires u.sentinel.None? && off < u.start < off + FlashSize
    requires off + FlashSize <= |data|
    ensures Assemble(data, off, Some(u), UidRequest(None, true)) ==
            Ok(data[off..u.start] + data[u.start - 1..off + FlashSize - 1])
  {
    var front := ReadAt(data, off, u.start - off);
    assert front == data[off..u.start];
    assert SlotSize(u) == -1 && front + Fill(0) == front;
    var rest := ReadAt(data, u.start - 1, FlashSize - |front|);
    assert rest == data[u.start - 1..off + FlashSize - 1];
  }

  /** Without UID handling, or when the block lies before the payload offset
      and no removal is asked for, the image is the 0x1000000 bytes from the
      payload offset, and it exists exactly when the source has them. */
  lemma RawCopy(data: seq<byte>, off: nat, block: Option<UidBlock>, req: UidRequest)
    requires Serviceable(block, req) && !req.remove
    requires req.inject.Some? ==> block.value.start < off
    ensures Assemble(data, off, block, req).Ok? <==> off + FlashSize <= |data|
    ensures off + FlashSize <= |data| ==>
              Assemble(data, off, block, req) == Ok(data[off..off + FlashSize])
  {
  }
}
