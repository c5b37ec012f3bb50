/** Injecting a UID file and locating the UID block of the assembled image
    again. The tool pads a short UID file with 0xFF to the slot size, so the
    located block ends where the file ends exactly when the file has no run of
    four 0xFF bytes and does not itself end in 0xFF. */
module Reinject {
  import opened Bytes
  import opened UidLocator
  import opened Assembler

  /** A UID file the locator recovers whole after a padded injection. */
  predicate Recoverable(uid: seq<byte>) {
    && |uid| >= 4 && uid[..4] == UidAnchor
    && (forall j :: 0 <= j < |uid| ==> !OccursAt(uid, Sentinel, j))
    && uid[|uid| - 1] != 0xFF
  }

  /** A block that begins with the anchor, placed after bytes holding no
      anchor, is where the first anchor is: no anchor straddles the seam,
      since no proper suffix of `$DMI` begins it. */
  lemma {:induction false} AnchorAfter(x: seq<byte>, p: seq<byte>, y: seq<byte>)
    requires forall j :: 0 <= j && j + 4 <= |x| ==> !OccursAt(x, UidAnchor, j)
    requires |p| >= 4 && p[..4] == UidAnchor
    ensures OccursAt(x + p + y, UidAnchor, |x|)
    ensures forall j :: 0 <= j < |x| ==> !OccursAt(x + p + y, UidAnchor, j)
  {
    var image := x + p + y;
    assert image[|x|..|x| + 4] == p[..4];
    forall j | 0 <= j < |x|
      ensures !OccursAt(image, UidAnchor, j)
    {
      if j + 4 <= |x| {
        assert image[j..j + 4] == x[j..j + 4];
        assert !OccursAt(x, UidAnchor, j);
      } else {
        assert image[|x|] == p[0] == 0x24;
        assert image[j..j + 4][|x| - j] == image[|x|];
        assert UidAnchor[|x| - j] != 0x24;
      }
    }
  }

  /** Bytes that begin with a recoverable UID followed by four 0xFF bytes
      have their first sentinel right after the UID. */
  lemma {:induction false} SentinelAfter(t: seq<byte>, uid: seq<byte>)
    requires Recoverable(uid)
    requires |uid| + 4 <= |t| && t[..|uid|] == uid
    requires forall i :: |uid| <= i < |uid| + 4 ==> t[i] == 0xFF
    ensures OccursAt(t, Sentinel, |uid|)
    ensures forall j :: 0 <= j < |uid| ==> !OccursAt(t, Sentinel, j)
  {
    assert t[|uid|..|uid| + 4] == Sentinel;
    forall j | 0 <= j < |uid|
      ensures !OccursAt(t, Sentinel, j)
    {
      if j + 4 <= |uid| {
        assert t[j..j + 4] == uid[j..j + 4];
        assert !OccursAt(uid, Sentinel, j);
      } else {
        assert t[|uid| - 1] == uid[|uid| - 1] != 0xFF;
        assert t[j..j + 4][|uid| - 1 - j] == t[|uid| - 1];
      }
    }
  }

  /** An image whose first anchor is at `a` and which holds a recoverable
      UID there, followed by four 0xFF bytes, locates to exactly that UID. */
  lemma {:induction false} LocateRecoverable(image: seq<byte>, a: nat, uid: seq<byte>)
    requires OccursAt(image, UidAnchor, a)
    requires forall j :: 0 <= j < a ==> !OccursAt(image, UidAnchor, j)
    requires Recoverable(uid) && a + |uid| + 4 <= |image| && image[a..a + |uid|] == uid
    requires forall i :: a + |uid| <= i < a + |uid| + 4 ==> image[i] == 0xFF
    ensures LocateUid(image) == Some(UidBlock(a, Some(|uid|), uid))
  {
    var t := image[a..];
    assert t[..|uid|] == uid;
    SentinelAfter(t, uid);
    var r := LocateUid(image);
    assert r.Some?;
    var b := r.value;
    assert b.start == a;
    assert OccursAt(t, Sentinel, |uid|);
    assert b.sentinel.Some?;
    OccursInSuffix(image, Sentinel, a, |b.bytes|);
    assert OccursAt(t, Sentinel, |b.bytes|);
    assert |b.bytes| == |uid|;
    assert b.bytes == image[a..a + |uid|];
  }

  /** Injecting a recoverable UID file that fits its slot, into an image
      whose slot and sentinel lie inside the flash window, gives an image
      whose located block is exactly that file, ended by a sentinel, at the
      slot's position relative to the payload offset. */
  lemma {:induction false} InjectThenLocate(data: seq<byte>, off: nat, u: UidBlock, s: nat, uid: seq<byte>)
    requires LocateUid(data) == Some(u) && u.sentinel == Some(s)
    requires off <= u.start && u.start - off + s + 4 <= FlashSize && off + FlashSize <= |data|
    requires Recoverable(uid) && |uid| <= s
    ensures var r := Assemble(data, off, Some(u), UidRequest(Some(uid), false));
            && r.Ok?
            && LocateUid(r.value) == Some(UidBlock(u.start - off, Some(|uid|), uid))
  {
    assert forall j :: 0 <= j < u.start ==> !OccursAt(data, UidAnchor, j);
    assert OccursAt(data, Sentinel, u.start + s);
    InjectAtSlot(data, off, u, s, uid);
  }

  /** The same, from the facts about the source that locating its block
      established: no anchor before the slot, a sentinel right after it. */
  lemma {:induction false} InjectAtSlot(data: seq<byte>, off: nat, u: UidBlock, s: nat, uid: seq<byte>)
    requires u.sentinel == Some(s)
    requires forall j :: 0 <= j < u.start ==> !OccursAt(data, UidAnchor, j)
    requires OccursAt(data, Sentinel, u.start + s)
    requires off <= u.start && u.start - off + s + 4 <= FlashSize && off + FlashSize <= |data|
    requires Recoverable(uid) && |uid| <= s
    ensures var image := data[off..u.start] + Padded(uid, s) + data[u.start + s..off + FlashSize];
            && Assemble(data, off, Some(u), UidRequest(Some(uid), false)) == Ok(image)
            && LocateUid(image) == Some(UidBlock(u.start - off, Some(|uid|), uid))
  {
    InjectedImageLocates(data, off, u.start, s, uid);
    InjectFits(data, off, u, s, uid);
  }

  /** The image a padded injection assembles, from the facts about the
      source that locating its block established. */
  lemma {:induction false} InjectedImageLocates(data: seq<byte>, off: nat, start: nat, s: nat, uid: seq<byte>)
    requires forall j :: 0 <= j < start ==> !OccursAt(data, UidAnchor, j)
    requires OccursAt(data, Sentinel, start + s)
    requires off <= start && start - off + s + 4 <= FlashSize && off + FlashSize <= |data|
    requires Recoverable(uid) && |uid| <= s
    ensures LocateUid(data[off..start] + Padded(uid, s) + data[start + s..off + FlashSize]) ==
            Some(UidBlock(start - off, Some(|uid|), uid))
  {
    var p := Padded(uid, s);
    var x := data[off..start];
    var y := data[start + s..off + FlashSize];
    NoAnchorBefore(data, off, start);
    AnchorAfter(x, p, y);
    PaddedThenSentinel(data, start + s, uid, s, p, x, y);
    LocateRecoverable(x + p + y, |x|, uid);
  }

  /** A UID file no longer than a slot that ends inside the flash window is
      injected as the bytes before the slot, the padded file, then the bytes
      after the slot. */
  lemma {:induction false} InjectFits(data: seq<byte>, off: nat, u: UidBlock, s: nat, uid: seq<byte>)
    requires u.sentinel == Some(s) && |uid| <= s
    requires off <= u.start && u.start - off + s <= FlashSize && off + FlashSize <= |data|
    ensures Assemble(data, off, Some(u), UidRequest(Some(uid), false)) ==
            Ok(data[off..u.start] + Padded(uid, s) + data[u.start + s..off + FlashSize])
  {
    assert |Padded(uid, SlotSize(u))| == s;
    InjectLayout(data, off, u, uid);
  }

  /** The bytes of the payload before the slot hold no anchor. */
  lemma {:induction false} NoAnchorBefore(data: seq<byte>, off: nat, start: nat)
    requires forall j :: 0 <= j < start ==> !OccursAt(data, UidAnchor, j)
    requires off <= start <= |data|
    ensures forall j :: 0 <= j && j + 4 <= |data[off..start]| ==> !OccursAt(data[off..start], UidAnchor, j)
  {
    var x := data[off..start];
    forall j | 0 <= j && j + 4 <= |x|
      ensures !OccursAt(x, UidAnchor, j)
    {
      assert off + j < start;
      var w, v := x[j..j + 4], data[off + j..off + j + 4];
      forall i | 0 <= i < 4
        ensures w[i] == v[i]
      {
        assert x[j + i] == data[off + j + i];
      }
      assert w == v;
      assert !OccursAt(data, UidAnchor, off + j);
    }
  }

  /** After a padded injection the UID file is followed by four 0xFF bytes:
      padding, the sentinel that ended the slot, or both. */
  lemma {:induction false} PaddedThenSentinel(data: seq<byte>, e: nat, uid: seq<byte>, s: nat,
                           p: seq<byte>, x: seq<byte>, y: seq<byte>)
    requires OccursAt(data, Sentinel, e)
    requires |uid| <= s && p == Padded(uid, s)
    requires |y| >= 4 && e + |y| <= |data| && y == data[e..e + |y|]
    ensures var image := x + p + y;
            && |x| + |uid| + 4 <= |image| && image[|x|..|x| + |uid|] == uid
            && forall i :: |x| + |uid| <= i < |x| + |uid| + 4 ==> image[i] == 0xFF
  {
    var image := x + p + y;
    assert |p| == s;
    assert image[|x|..|x| + |uid|] == p[..|uid|];
    forall i | |x| + |uid| <= i < |x| + |uid| + 4
      ensures image[i] == 0xFF
    {
      if i >= |x| + s {
        assert image[i] == y[i - |x| - s] == data[e + (i - |x| - s)];
        assert data[e..e + 4][i - |x| - s] == Sentinel[i - |x| - s];
      } else {
        assert image[i] == p[i - |x|];
      }
    }
  }
}

/** The round trip for the UID files the generator writes. */
module ReinjectGenerated {
  import opened Bytes
  import opened Layout
  import opened UidLocator
  import opened Assembler
  import opened UidGen
  import opened UidFormat
  import opened Reinject

  /** A generated UID file injected into a slot at least as long as its
      variant's record is located again whole, and parses back into the
      sub-records it was generated from. */
  lemma {:induction false} GeneratedInjectThenLocate(data: seq<byte>, off: nat, u: UidBlock, s: nat,
                                  o: Options, ov: Overrides, d: Draws)
    requires ValidDraws(o, d) && Fits(ov)
    requires LocateUid(data) == Some(u) && u.sentinel == Some(s)
    requires s >= (if o.variant == F7G then 0x10c else 0x174)
    requires off <= u.start && u.start - off + s + 4 <= FlashSize && off + FlashSize <= |data|
    ensures var uid := UidRecord(o, ov, d);
            var r := Assemble(data, off, Some(u), UidRequest(Some(uid), false));
            && r.Ok?
            && LocateUid(r.value) == Some(UidBlock(u.start - off, Some(|uid|), uid))
            && ParseUid(LocateUid(r.value).value.bytes) == Some(Records(o, ov, d))
  {
    var uid := UidRecord(o, ov, d);
    RecordLength(o, ov, d);
    GeneratedUidSentinelFree(o, ov, d);
    assert uid[..4] == UidAnchor;
    InjectThenLocate(data, off, u, s, uid);
    GeneratedUidParses(o, ov, d);
  }
}
