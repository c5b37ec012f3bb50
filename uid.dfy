/** The identity block (UID) of an image: it starts at the first `$DMI` and
    runs up to, not including, the first run of four 0xFF bytes after it. */
module UidLocator {
  import opened Bytes

  const UidAnchor: seq<byte> := Ascii("$DMI")

  /** The end-of-data marker: four consecutive 0xFF bytes. */
  const Sentinel: seq<byte> := Fill(4)

  /** The tool's `bios_uid_offset`, the position of the sentinel relative to
      it (absent where Python's `find` answers -1) and `bios_uid`. */
  datatype UidBlock = UidBlock(start: nat, sentinel: Option<nat>, bytes: seq<byte>)

  /** `bios_uid_size` as the tool holds it: -1 when there is no sentinel. */
  function SlotSize(u: UidBlock): int
  {
    match u.sentinel
    case Some(n) => n
    case None => -1
  }

  /** The anchor holds no 0xFF byte, so no sentinel begins inside it. */
  lemma NoSentinelInAnchor(data: seq<byte>, s: nat, j: nat)
    requires OccursAt(data, UidAnchor, s) && j < 4
    ensures !OccursAt(data[s..], Sentinel, j)
  {
    assert data[s + j] == data[s..s + 4][j] == UidAnchor[j] != 0xFF;
    assert s + j + 4 <= |data| ==> data[s + j..s + j + 4][0] == data[s + j] != Sentinel[0];
    OccursInSuffix(data, Sentinel, s, j);
  }

  /** Finds the block: the first `$DMI`, and the bytes from it up to the
      first sentinel, or to the end of the file when there is none. */
  function LocateUid(data: seq<byte>): (r: Option<UidBlock>)
    ensures r.None? ==> forall j :: !OccursAt(data, UidAnchor, j)
    ensures r.Some? ==> OccursAt(data, UidAnchor, r.value.start)
    ensures r.Some? ==> forall j :: 0 <= j < r.value.start ==> !OccursAt(data, UidAnchor, j)
    ensures r.Some? ==> r.value.start + |r.value.bytes| <= |data|
    ensures r.Some? ==> r.value.bytes == data[r.value.start..r.value.start + |r.value.bytes|]
    ensures r.Some? ==> |r.value.bytes| >= 4 && r.value.bytes[..4] == UidAnchor
    ensures r.Some? ==> forall j :: 0 <= j < |r.value.bytes| ==> !OccursAt(data[r.value.start..], Sentinel, j)
    ensures r.Some? && r.value.sentinel.Some? ==>
              r.value.sentinel.value == |r.value.bytes| &&
              OccursAt(data, Sentinel, r.value.start + |r.value.bytes|)
    ensures r.Some? && r.value.sentinel.None? ==>
              r.value.start + |r.value.bytes| == |data| &&
              forall j :: !OccursAt(data[r.value.start..], Sentinel, j)
  {
    match Find(data, UidAnchor)
    case None => None
    case Some(s) =>
      var size := Find(data[s..], Sentinel);
      var n := match size case Some(n) => n case None => -1;
      assert size.Some? ==> size.value >= 4 by {
        if size.Some? && size.value < 4 {
          NoSentinelInAnchor(data, s, size.value);
        }
      }
      assert size.Some? ==> OccursAt(data, Sentinel, s + size.value) by {
        if size.Some? {
          OccursInSuffix(data, Sentinel, s, size.value);
        }
      }
      Some(UidBlock(s, size, ReadAt(data, s, n)))
  }

  /** A block that holds nothing but its anchor is null: unprogrammed. */
  predicate IsNull(u: UidBlock) {
    |u.bytes| == 0 || u.bytes == UidAnchor
  }

  /** A located block is null exactly when it is four bytes long, that is when
      the sentinel, or the end of the file, follows the anchor directly. */
  lemma NullIffBare(data: seq<byte>)
    requires LocateUid(data).Some?
    ensures IsNull(LocateUid(data).value) <==> |LocateUid(data).value.bytes| == 4
  {
    var u := LocateUid(data).value;
    if |u.bytes| == 4 {
      assert u.bytes == u.bytes[..4];
    }
  }

  /** No four-byte 0xFF run lies inside a located block, so runs of one to
      three 0xFF bytes never end it early. */
  lemma BlockSentinelFree(data: seq<byte>)
    requires LocateUid(data).Some?
    ensures forall j :: !OccursAt(LocateUid(data).value.bytes, Sentinel, j)
  {
    var u := LocateUid(data).value;
    var tail := data[u.start..];
    assert u.bytes == tail[..|u.bytes|];
    forall j | OccursAt(u.bytes, Sentinel, j)
      ensures false
    {
      assert u.bytes[j..j + 4] == tail[j..j + 4];
      assert OccursAt(tail, Sentinel, j);
    }
  }
}
