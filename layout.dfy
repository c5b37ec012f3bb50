/** Where the flashable payload starts: the image is classified by its leading
    bytes (release executable, trimmed image of one of the two boards, or
    unknown), and when no board header is found at the front, the payload
    offset is resolved from the `$_IFLASH_BIOSIMG` anchor or, failing that,
    by probing the known offsets for a board header. */
module Layout {
  import opened Bytes

  // --------------------------------------------------------- classification

  datatype Variant = F7A | F7G

  /** An untrimmed release image is a PE executable. */
  const ReleaseMagic: seq<byte> := Ascii("MZ")

  /** The leading bytes of a trimmed image of each board. */
  function Header(v: Variant): seq<byte>
  {
    match v
    case F7A => [0x02, 0x02, 0x00, 0x02, 0x28]
    case F7G => [0x02]
  }

  /** Headers in the order they are tested: the five-byte F7A header first,
      since every F7A header also starts with the one-byte F7G header. */
  const HeaderOrder: seq<Variant> := [F7A, F7G]

  /** `magic` sits at `pos`. */
  predicate HeaderAt(data: seq<byte>, pos: nat, magic: seq<byte>) {
    OccursAt(data, magic, pos)
  }

  /** The tool's test, `seek(pos); read(len(magic)) == magic`, is exactly
      this: a read that comes up short at the end of the file never equals a
      non-empty header. */
  lemma HeaderRead(data: seq<byte>, pos: nat, magic: seq<byte>)
    requires |magic| > 0
    ensures HeaderAt(data, pos, magic) <==> ReadAt(data, pos, |magic|) == magic
  {
  }

  /** The first variant of `order` whose header sits at `pos`. */
  function FirstHeaderAt(data: seq<byte>, pos: nat, order: seq<Variant>): (r: Option<Variant>)
    ensures r.Some? ==> r.value in order && HeaderAt(data, pos, Header(r.value))
    ensures r.Some? ==> exists k :: 0 <= k < |order| && order[k] == r.value &&
                          forall j :: 0 <= j < k ==> !HeaderAt(data, pos, Header(order[j]))
    ensures r.None? ==> forall v :: v in order ==> !HeaderAt(data, pos, Header(v))
  {
    if order == [] then None
    else if HeaderAt(data, pos, Header(order[0])) then Some(order[0])
    else
      var r := FirstHeaderAt(data, pos, order[1..]);
      if r.Some? then FirstAfterMiss(data, pos, order, r.value); r else r
  }

  /** A variant that is first to match in `order[1..]` is first to match in
      `order` when the head of `order` does not match. */
  lemma FirstAfterMiss(data: seq<byte>, pos: nat, order: seq<Variant>, v: Variant)
    requires order != [] && !HeaderAt(data, pos, Header(order[0]))
    requires exists k :: 0 <= k < |order[1..]| && order[1..][k] == v &&
               forall j :: 0 <= j < k ==> !HeaderAt(data, pos, Header(order[1..][j]))
    ensures exists k :: 0 <= k < |order| && order[k] == v &&
              forall j :: 0 <= j < k ==> !HeaderAt(data, pos, Header(order[j]))
  {
    var k :| 0 <= k < |order[1..]| && order[1..][k] == v &&
             forall j :: 0 <= j < k ==> !HeaderAt(data, pos, Header(order[1..][j]));
    assert order[k + 1] == v;
    forall j | 0 <= j < k + 1
      ensures !HeaderAt(data, pos, Header(order[j]))
    {
      if j > 0 {
        assert order[j] == order[1..][j - 1];
      }
    }
  }

  /** Some board header sits at `pos`. */
  predicate AnyHeaderAt(data: seq<byte>, pos: nat) {
    FirstHeaderAt(data, pos, HeaderOrder).Some?
  }

  datatype Class = Release | Trimmed(variant: Variant) | Unknown

  /** The classification: `MZ` first, then the board headers in order. */
  function Classify(data: seq<byte>): Class
  {
    if HeaderAt(data, 0, ReleaseMagic) then Release
    else match FirstHeaderAt(data, 0, HeaderOrder)
      case Some(v) => Trimmed(v)
      case None => Unknown
  }

  /** The header loop of the tool. Besides the class it returns whether the
      last header read equals the last header tried, the test by which the
      tool later decides to resolve the offset: that is so exactly for a
      trimmed image, never for a release image. */
  method ClassifyHeader(data: seq<byte>) returns (c: Class, matched: bool)
    ensures c == Classify(data)
    ensures matched <==> c.Trimmed?
  {
    c := Unknown;
    var magic := Header(HeaderOrder[0]);
    var head := ReadAt(data, 0, |magic|);
    var k := 0;
    while k < |HeaderOrder|
      invariant k <= |HeaderOrder|
      invariant c == Unknown
      invariant 0 < k ==> !HeaderAt(data, 0, ReleaseMagic)
      invariant 0 < k ==> magic == Header(HeaderOrder[k - 1]) && head == ReadAt(data, 0, |magic|)
      invariant forall j :: 0 <= j < k ==> !HeaderAt(data, 0, Header(HeaderOrder[j]))
    {
      magic := Header(HeaderOrder[k]);
      head := ReadAt(data, 0, |magic|);
      if HeaderAt(data, 0, ReleaseMagic) {
        c := Release;
        break;
      }
      if head == magic {
        c := Trimmed(HeaderOrder[k]);
        break;
      }
      k := k + 1;
    }
    matched := head == magic;
    if c == Release {
      assert k == 0 && head[0] == data[0];
    }
  }

  /** An F7A image also carries the F7G header byte, and is still classified
      as F7A because the longer header is tested first. */
  lemma SpecificHeaderFirst(data: seq<byte>)
    requires HeaderAt(data, 0, Header(F7A))
    ensures HeaderAt(data, 0, Header(F7G))
    ensures Classify(data) == Trimmed(F7A)
  {
    var head := ReadAt(data, 0, 5);
    assert head[0] == data[0] == 0x02;
    assert ReadAt(data, 0, 1) == [data[0]];
    assert !HeaderAt(data, 0, ReleaseMagic) by {
      assert ReadAt(data, 0, 2)[0] == data[0];
    }
  }

  // -------------------------------------------------------- offset resolution

  const OffsetAnchor: seq<byte> := Ascii("$_IFLASH_BIOSIMG")
  const OffsetDelta: nat := 0x18

  datatype KnownOffset = KnownOffset(offset: nat, releases: string)

  /** Known payload offsets of release images, used to describe a resolved offset
      and as the fallback probe list, in this order. */
  const KnownOffsets: seq<KnownOffset> := [
    KnownOffset(0xe8c70, "F7A0102-F7A0119(-???????) (F7A0102+) or F7G0005-F7G0105(-???????) (F7G0005+)"),
    KnownOffset(0x17d050, "F7A0101 and lower (F7A0101-)")
  ]

  /** The offset assumed before anything is detected. */
  const DefaultOffset: nat := KnownOffsets[0].offset

  /** The tool's `bios_offset`, `detect_rel_bios_ver` and `invalid`. */
  datatype Resolution = Resolution(offset: nat, releases: Option<string>, invalid: bool)

  /** Index of the first entry of `table` with the given offset. */
  function IndexOfOffset(off: nat, table: seq<KnownOffset>): (r: Option<nat>)
    ensures r.Some? ==> r.value < |table| && table[r.value].offset == off
    ensures r.Some? ==> forall j :: 0 <= j < r.value ==> table[j].offset != off
    ensures r.None? ==> forall j :: 0 <= j < |table| ==> table[j].offset != off
  {
    if table == [] then None
    else if table[0].offset == off then Some(0)
    else match IndexOfOffset(off, table[1..])
      case Some(k) => Some(k + 1)
      case None => None
  }

  /** The release description of a resolved offset, if it is a known one. */
  function ReleasesFor(off: nat): Option<string>
  {
    match IndexOfOffset(off, KnownOffsets)
    case Some(k) => Some(KnownOffsets[k].releases)
    case None => None
  }

  /** Index of the first entry of `table`, from `from` on, at whose offset a
      board header sits. */
  function FirstProbe(data: seq<byte>, table: seq<KnownOffset>, from: nat): (r: Option<nat>)
    decreases |table| - from
    ensures r.Some? ==> from <= r.value < |table| && AnyHeaderAt(data, table[r.value].offset)
    ensures r.Some? ==> forall j :: from <= j < r.value ==> !AnyHeaderAt(data, table[j].offset)
    ensures r.None? ==> forall j :: from <= j < |table| ==> !AnyHeaderAt(data, table[j].offset)
  {
    if from >= |table| then None
    else if AnyHeaderAt(data, table[from].offset) then Some(from)
    else FirstProbe(data, table, from + 1)
  }

  /** Offset resolution for an image without a board header at the front. */
  function Resolve(data: seq<byte>): Resolution
  {
    match Find(data, OffsetAnchor)
    case Some(i) => Resolution(i + OffsetDelta, ReleasesFor(i + OffsetDelta), false)
    case None =>
      match FirstProbe(data, KnownOffsets, 0)
      case Some(k) => Resolution(KnownOffsets[k].offset, None, false)
      case None => Resolution(DefaultOffset, None, true)
  }

  /** The loop that looks a resolved offset up among the known offsets. */
  method DescribeOffset(offset: nat) returns (releases: Option<string>)
    ensures releases == ReleasesFor(offset)
  {
    releases := None;
    var k := 0;
    while k < |KnownOffsets|
      invariant k <= |KnownOffsets|
      invariant releases == None
      invariant forall j :: 0 <= j < k ==> KnownOffsets[j].offset != offset
    {
      if offset == KnownOffsets[k].offset {
        releases := Some(KnownOffsets[k].releases);
        break;
      }
      releases := None;
      k := k + 1;
    }
  }

  /** The fallback loop over the known offsets and, inside it, over the
      board headers: the first offset carrying a header is taken and clears
      `invalid`; otherwise the default offset stays, flagged invalid. */
  method ProbeOffsets(data: seq<byte>) returns (offset: nat, invalid: bool)
    ensures FirstProbe(data, KnownOffsets, 0).Some? ==>
              offset == KnownOffsets[FirstProbe(data, KnownOffsets, 0).value].offset && !invalid
    ensures FirstProbe(data, KnownOffsets, 0).None? ==> offset == DefaultOffset && invalid
  {
    offset := DefaultOffset;
    invalid := true;
    var k := 0;
    while k < |KnownOffsets|
      invariant k <= |KnownOffsets|
      invariant invalid && offset == DefaultOffset
      invariant forall j :: 0 <= j < k ==> !AnyHeaderAt(data, KnownOffsets[j].offset)
    {
      var entry := KnownOffsets[k];
      var h := 0;
      while h < |HeaderOrder|
        invariant h <= |HeaderOrder|
        invariant invalid && offset == DefaultOffset
        invariant forall g :: 0 <= g < h ==> !HeaderAt(data, entry.offset, Header(HeaderOrder[g]))
      {
        var magic := Header(HeaderOrder[h]);
        if ReadAt(data, entry.offset, |magic|) == magic {
          offset := entry.offset;
          invalid := false;
          break;
        }
        h := h + 1;
      }
      if !invalid {
        assert AnyHeaderAt(data, entry.offset);
        assert FirstProbe(data, KnownOffsets, 0) == Some(k);
        break;
      }
      assert forall v :: v in HeaderOrder ==> !HeaderAt(data, entry.offset, Header(v));
      k := k + 1;
    }
  }

  /** The offset detection of the tool for an image without a board header
      at the front. The tool's guard against a negative offset has no
      counterpart: an index plus 0x18 is never negative. */
  method ResolveOffset(data: seq<byte>) returns (res: Resolution)
    ensures res == Resolve(data)
  {
    var found := Find(data, OffsetAnchor);
    if found.Some? {
      var offset := found.value + OffsetDelta;
      var releases := DescribeOffset(offset);
      res := Resolution(offset, releases, false);
    } else {
      var offset, invalid := ProbeOffsets(data);
      res := Resolution(offset, None, invalid);
    }
  }

  /** The anchor gives the offset 0x18 past its first occurrence, never
      flagged invalid, and described exactly when it is one of the known
      offsets. */
  lemma AnchoredOffset(data: seq<byte>, i: nat)
    requires Find(data, OffsetAnchor) == Some(i)
    ensures Resolve(data).offset == i + 0x18 >= 0x18
    ensures !Resolve(data).invalid
    ensures Resolve(data).releases ==
            if i + 0x18 == 0xe8c70 then Some(KnownOffsets[0].releases)
            else if i + 0x18 == 0x17d050 then Some(KnownOffsets[1].releases)
            else None
  {
    var off := i + 0x18;
    if off == 0xe8c70 {
      assert IndexOfOffset(off, KnownOffsets) == Some(0);
    } else if off == 0x17d050 {
      assert IndexOfOffset(off, KnownOffsets) == Some(1);
    } else {
      assert IndexOfOffset(off, KnownOffsets).None?;
    }
  }

  /** Without the anchor, the first known offset carrying a board header is
      taken and `invalid` is cleared; when neither does, the default offset
      0xe8c70 stays and the image is flagged invalid. */
  lemma FallbackOffset(data: seq<byte>)
    requires Find(data, OffsetAnchor).None?
    ensures Resolve(data).offset ==
            if AnyHeaderAt(data, 0xe8c70) then 0xe8c70
            else if AnyHeaderAt(data, 0x17d050) then 0x17d050
            else 0xe8c70
    ensures Resolve(data).invalid <==> !AnyHeaderAt(data, 0xe8c70) && !AnyHeaderAt(data, 0x17d050)
    ensures Resolve(data).releases.None?
  {
    var probe := FirstProbe(data, KnownOffsets, 0);
    if AnyHeaderAt(data, 0xe8c70) {
      assert probe == Some(0);
    } else if AnyHeaderAt(data, 0x17d050) {
      assert probe == Some(1);
    } else {
      assert probe.None?;
    }
  }

  // ---------------------------------------------------------- payload offset

  /** Where the payload starts, as the tool settles it: at 0 for a trimmed
      image, whose board header sits at the front, and at the resolved offset
      for a release or unknown image. `invalid` and the release description
      keep their initial unset values for a trimmed image. */
  function PayloadOffset(data: seq<byte>): Resolution
  {
    if Classify(data).Trimmed? then Resolution(0, None, false) else Resolve(data)
  }

  /** The header loop, then offset detection, which runs only when the loop's
      last read did not match the last header it tried. */
  method DetectPayloadOffset(data: seq<byte>) returns (c: Class, res: Resolution)
    ensures c == Classify(data)
    ensures res == PayloadOffset(data)
  {
    var matched;
    c, matched := ClassifyHeader(data);
    if matched {
      res := Resolution(0, None, false);
    } else {
      res := ResolveOffset(data);
    }
  }

  /** An image is trimmed exactly when a board header, and not `MZ`, sits at
      the front; it is then taken from offset 0, valid and undescribed. Any
      other image goes through offset resolution, and is flagged invalid only
      when it has no offset anchor and no known offset carries a header. */
  lemma TrimmedAtZero(data: seq<byte>)
    ensures Classify(data).Trimmed? <==> AnyHeaderAt(data, 0) && !HeaderAt(data, 0, ReleaseMagic)
    ensures Classify(data).Trimmed? ==> PayloadOffset(data) == Resolution(0, None, false)
    ensures !Classify(data).Trimmed? ==> PayloadOffset(data) == Resolve(data)
    ensures PayloadOffset(data).invalid <==>
              && !Classify(data).Trimmed? && Find(data, OffsetAnchor).None?
              && forall k :: 0 <= k < |KnownOffsets| ==> !AnyHeaderAt(data, KnownOffsets[k].offset)
  {
    if !Classify(data).Trimmed? && Find(data, OffsetAnchor).None? {
      FallbackOffset(data);
      assert KnownOffsets[0].offset == 0xe8c70 && KnownOffsets[1].offset == 0x17d050;
    }
  }
}
