/** Descriptive fields read out of an image by signature: the BIOS version,
    the EC revision and date, and the BIOS build date. Each is found by
    locating an anchor with `find`, adding a signed delta and reading a fixed
    number of bytes from there; none of them influences how the image is cut. */
module Scanner {
  import opened Bytes

  // ---------------------------------------------------------------- version

  /** Version anchors in the order they are tried: F7G boards, then F7A. */
  const VersionAnchors: seq<seq<byte>> := [Ascii("$Chachani-SPH"), Ascii("$CHACHANI-VANGOGH")]
  const VersionDelta: int := -0x18
  const VersionSize: nat := 7
  const VersionSuffixSize: nat := 3

  datatype Version = Version(offset: nat, text: seq<byte>)

  /** The version field belonging to an anchor found at `i`: seven bytes
      0x18 before it, plus the next three when they are alphanumeric. */
  function VersionAt(data: seq<byte>, i: nat): Result<Version>
  {
    if i + VersionDelta < 0 then Err(NegativeSeek(i + VersionDelta))
    else
      var off := i + VersionDelta;
      var base := ReadAt(data, off, VersionSize);
      var suffix := ReadAt(data, off + |base|, VersionSuffixSize);
      Ok(Version(off, if AllAlnum(suffix) then base + suffix else base))
  }

  /** The first anchor of `anchors` that occurs decides the version; later
      anchors are not consulted even when the field it gives is odd. */
  function VersionScan(data: seq<byte>, anchors: seq<seq<byte>>): Result<Option<Version>>
  {
    if anchors == [] then Ok(None)
    else match Find(data, anchors[0])
      case Some(i) => (var v :- VersionAt(data, i); Ok(Some(v)))
      case None => VersionScan(data, anchors[1..])
  }

  /** The version loop of the tool: stop at the first anchor present. */
  method DetectVersion(data: seq<byte>) returns (r: Result<Option<Version>>)
    ensures r == VersionScan(data, VersionAnchors)
  {
    var k := 0;
    while k < |VersionAnchors|
      invariant k <= |VersionAnchors|
      invariant VersionScan(data, VersionAnchors[k..]) == VersionScan(data, VersionAnchors)
    {
      var found := Find(data, VersionAnchors[k]);
      if found.Some? {
        var v := VersionAt(data, found.value);
        r := if v.Ok? then Ok(Some(v.value)) else Err(v.fault);
        return;
      }
      k := k + 1;
    }
    r := Ok(None);
  }

  /** For an anchor at `i` (at least 0x18 into the image) the version is the
      seven bytes at i - 0x18, extended by the following three bytes exactly
      when those are all letters or digits. */
  lemma VersionField(data: seq<byte>, i: nat)
    requires 0x18 <= i <= |data|
    ensures var base := data[i - 0x18..i - 0x11];
            var suffix := data[i - 0x11..i - 0x0e];
            VersionAt(data, i) == Ok(Version(i - 0x18, if AllAlnum(suffix) then base + suffix else base))
    ensures VersionAt(data, i).Ok? && |VersionAt(data, i).value.text| in {7, 10}
  {
    var base := ReadAt(data, i - 0x18, VersionSize);
    assert base == data[i - 0x18..i - 0x11];
    var suffix := ReadAt(data, i - 0x18 + |base|, VersionSuffixSize);
    assert suffix == data[i - 0x11..i - 0x0e];
  }

  /** An F7G anchor wins over an F7A anchor wherever each of them occurs. */
  lemma VersionPrefersF7G(data: seq<byte>)
    requires Find(data, VersionAnchors[0]).Some?
    ensures VersionScan(data, VersionAnchors) ==
            (var v :- VersionAt(data, Find(data, VersionAnchors[0]).value); Ok(Some(v)))
  {
  }

  /** Without an F7G anchor, an F7A anchor decides the version. */
  lemma VersionFallsBackToF7A(data: seq<byte>)
    requires Find(data, VersionAnchors[0]).None? && Find(data, VersionAnchors[1]).Some?
    ensures VersionScan(data, VersionAnchors) ==
            (var v :- VersionAt(data, Find(data, VersionAnchors[1]).value); Ok(Some(v)))
  {
    assert VersionAnchors[1..][0] == VersionAnchors[1];
  }

  /** Only an image containing neither anchor has no version. */
  lemma NoVersionWithoutAnchors(data: seq<byte>)
    ensures VersionScan(data, VersionAnchors) == Ok(None) <==>
            Find(data, VersionAnchors[0]).None? && Find(data, VersionAnchors[1]).None?
  {
    var rest := VersionAnchors[1..];
    assert rest[0] == VersionAnchors[1] && rest[1..] == [];
    assert VersionScan(data, rest[1..]) == Ok(None);
  }

  // ------------------------------------------------------- EC revision/date

  /** Where the EC revision and date sit relative to an anchor. */
  datatype EcPattern = EcPattern(anchor: seq<byte>, revDelta: int, revSize: nat,
                                 dateDelta: int, dateSize: nat)

  /** The EC patterns in the order they are tried (newest layout first). */
  const EcPatterns: seq<EcPattern> := [
    // F7G0020 and later: date and time
    EcPattern(Ascii("F7G") + [0x00] + Ascii("ITE-81302"), -0x18, 6, -0x10, 0xf),
    // F7G0014T20
    EcPattern(Ascii("F7G") + [0x00] + Ascii("ITE-81302"), -0x14, 6, -0xc, 0xa),
    // F7G0005 to F7G0013
    EcPattern(Ascii("F7G ITE-81302"), -0x12, 6, -0xb, 0xa),
    // F7A
    EcPattern(Ascii("F7A Jupiter") + [0x00] + Ascii("ITE 5570"), -0x19, 6, -0xb, 0xa)
  ]

  /** The values the tool holds in `ec_rev` and `ec_date`. */
  datatype EcInfo = EcInfo(rev: Option<seq<byte>>, date: Option<seq<byte>>)

  /** `d[:4]`, `d[5:7]` and `d[8:10]` are all digit strings. */
  predicate DateShaped(d: seq<byte>) {
    AllDigits(Slice(d, 0, 4)) && AllDigits(Slice(d, 5, 7)) && AllDigits(Slice(d, 8, 10))
  }

  function RevField(data: seq<byte>, p: EcPattern, i: nat): seq<byte>
    requires i + p.revDelta >= 0
  {
    ReadAt(data, i + p.revDelta, p.revSize)
  }

  function DateField(data: seq<byte>, p: EcPattern, i: nat): seq<byte>
    requires i + p.dateDelta >= 0
  {
    ReadAt(data, i + p.dateDelta, p.dateSize)
  }

  /** The pattern's anchor is present and both its fields validate. */
  predicate Accepted(data: seq<byte>, p: EcPattern) {
    match Find(data, p.anchor)
    case None => false
    case Some(i) =>
      && i + p.revDelta >= 0 && AllAlnum(RevField(data, p, i))
      && i + p.dateDelta >= 0 && DateShaped(DateField(data, p, i))
  }

  /** The pattern is skipped without a fault: its anchor is absent, or one of
      its fields fails validation. */
  predicate Rejected(data: seq<byte>, p: EcPattern) {
    match Find(data, p.anchor)
    case None => true
    case Some(i) =>
      && i + p.revDelta >= 0
      && (!AllAlnum(RevField(data, p, i)) ||
          (i + p.dateDelta >= 0 && !DateShaped(DateField(data, p, i))))
  }

  /** The EC loop from state `acc`: a rejected revision clears `ec_rev`, a
      rejected date clears `ec_date` but leaves the revision just read. */
  function EcScan(data: seq<byte>, pats: seq<EcPattern>, acc: EcInfo): Result<EcInfo>
  {
    if pats == [] then Ok(acc)
    else
      var p := pats[0];
      match Find(data, p.anchor)
      case None => EcScan(data, pats[1..], acc)
      case Some(i) =>
        if i + p.revDelta < 0 then Err(NegativeSeek(i + p.revDelta))
        else if !AllAlnum(RevField(data, p, i)) then EcScan(data, pats[1..], EcInfo(None, acc.date))
        else if i + p.dateDelta < 0 then Err(NegativeSeek(i + p.dateDelta))
        else if !DateShaped(DateField(data, p, i)) then
          EcScan(data, pats[1..], EcInfo(Some(RevField(data, p, i)), None))
        else Ok(EcInfo(Some(RevField(data, p, i)), Some(DateField(data, p, i))))
  }

  /** The EC loop of the tool, with its `continue` and `break`. */
  method DetectEc(data: seq<byte>) returns (r: Result<EcInfo>)
    ensures r == EcScan(data, EcPatterns, EcInfo(None, None))
  {
    var rev: Option<seq<byte>> := None;
    var date: Option<seq<byte>> := None;
    var k := 0;
    while k < |EcPatterns|
      invariant k <= |EcPatterns|
      invariant EcScan(data, EcPatterns[k..], EcInfo(rev, date)) == EcScan(data, EcPatterns, EcInfo(None, None))
    {
      var p := EcPatterns[k];
      ghost var pats, acc := EcPatterns[k..], EcInfo(rev, date);
      assert pats[0] == p && pats[1..] == EcPatterns[k + 1..];
      var found := Find(data, p.anchor);
      if found.Some? {
        var i := found.value;
        if i + p.revDelta < 0 {
          return Err(NegativeSeek(i + p.revDelta));
        }
        rev := Some(ReadAt(data, i + p.revDelta, p.revSize));
        if !AllAlnum(rev.value) {
          rev := None;
          assert EcScan(data, pats, acc) == EcScan(data, EcPatterns[k + 1..], EcInfo(rev, date));
          k := k + 1;
          continue;
        }
        if i + p.dateDelta < 0 {
          return Err(NegativeSeek(i + p.dateDelta));
        }
        date := Some(ReadAt(data, i + p.dateDelta, p.dateSize));
        if !DateShaped(date.value) {
          date := None;
          assert EcScan(data, pats, acc) == EcScan(data, EcPatterns[k + 1..], EcInfo(rev, date));
          k := k + 1;
          continue;
        }
        return Ok(EcInfo(rev, date));
      }
      assert EcScan(data, pats, acc) == EcScan(data, EcPatterns[k + 1..], acc);
      k := k + 1;
    }
    r := Ok(EcInfo(rev, date));
  }

  /** The first accepted pattern supplies both fields, whatever the patterns
      before it left behind. */
  lemma {:induction false} EcFirstAcceptedWins(data: seq<byte>, pats: seq<EcPattern>, k: nat, acc: EcInfo)
    requires k < |pats|
    requires forall j :: 0 <= j < k ==> Rejected(data, pats[j])
    requires Accepted(data, pats[k])
    ensures var i := Find(data, pats[k].anchor).value;
            EcScan(data, pats, acc) ==
            Ok(EcInfo(Some(RevField(data, pats[k], i)), Some(DateField(data, pats[k], i))))
  {
    if k > 0 {
      assert Rejected(data, pats[0]);
      var next := match Find(data, pats[0].anchor)
        case None => acc
        case Some(i) =>
          if !AllAlnum(RevField(data, pats[0], i)) then EcInfo(None, acc.date)
          else EcInfo(Some(RevField(data, pats[0], i)), None);
      assert EcScan(data, pats, acc) == EcScan(data, pats[1..], next);
      EcFirstAcceptedWins(data, pats[1..], k - 1, next);
    }
  }

  /** With no pattern accepted and no fault, the EC date stays unset. */
  lemma {:induction false} EcNoneAccepted(data: seq<byte>, pats: seq<EcPattern>, acc: EcInfo)
    requires acc.date.None?
    requires forall j :: 0 <= j < |pats| ==> Rejected(data, pats[j])
    ensures EcScan(data, pats, acc).Ok? && EcScan(data, pats, acc).value.date.None?
  {
    if pats != [] {
      assert Rejected(data, pats[0]);
      var next := match Find(data, pats[0].anchor)
        case None => acc
        case Some(i) =>
          if !AllAlnum(RevField(data, pats[0], i)) then EcInfo(None, acc.date)
          else EcInfo(Some(RevField(data, pats[0], i)), None);
      assert EcScan(data, pats, acc) == EcScan(data, pats[1..], next);
      EcNoneAccepted(data, pats[1..], next);
    }
  }

  // -------------------------------------------------------------- BIOS date

  const DateAnchor: seq<byte> := Ascii("$RDATE")
  const DateSize: nat := 3

  function DigitChar(d: nat): (c: char)
    requires d < 10
    ensures '0' <= c <= '9'
  {
    ('0' as int + d) as char
  }

  /** `format(n, '02')` for n below 100. */
  function TwoDigits(n: nat): (s: string)
    requires n < 100
    ensures |s| == 2
  {
    [DigitChar(n / 10), DigitChar(n % 10)]
  }

  /** The decimal value a packed-BCD byte stands for. */
  function BcdValue(b: byte): int { (b as int / 16) * 10 + b as int % 16 }

  /** The packed-BCD byte for a two-digit decimal number. */
  function EncodeBcd(n: nat): byte
    requires n < 100
  {
    ((n / 10) * 16 + n % 10) as byte
  }

  /** `format(int(hex(b)[2:]), '02')`: the hex digits of `b` read back as a
      decimal number, which fails when one of them is a-f. */
  function BcdDigits(b: byte): Result<string>
  {
    if b as int / 16 > 9 || b as int % 16 > 9 then Err(DateNotDecimal(b))
    else Ok(TwoDigits(BcdValue(b)))
  }

  /** Date byte `k` of `bin`, indexed as Python would. */
  function DateByte(bin: seq<byte>, k: nat): Result<string>
  {
    if k < |bin| then BcdDigits(bin[k]) else Err(DateTruncated)
  }

  /** The BIOS date, `20YY/MM/DD`, from the three bytes after `$RDATE`. */
  function BiosDate(data: seq<byte>): (r: Result<Option<string>>)
    ensures r == Ok(None) <==> Find(data, DateAnchor).None?
    ensures r.Ok? && r.value.Some? ==>
              var d := r.value.value;
              && |d| == 10 && d[..2] == "20" && d[4] == '/' && d[7] == '/'
              && forall k :: 0 <= k < 10 && k != 4 && k != 7 ==> '0' <= d[k] <= '9'
    ensures r == Err(DateTruncated) ==> Find(data, DateAnchor).value + 9 > |data|
    ensures r.Err? ==> r.fault == DateTruncated ||
                       (r.fault.DateNotDecimal? && r.fault.digits in data[Find(data, DateAnchor).value + 6..])
    ensures r.Err? && r.fault.DateNotDecimal? ==> r.fault.digits as int / 16 > 9 || r.fault.digits as int % 16 > 9
  {
    match Find(data, DateAnchor)
    case None => Ok(None)
    case Some(i) =>
      var bin := ReadAt(data, i + |DateAnchor|, DateSize);
      var yy :- DateByte(bin, 0);
      var mm :- DateByte(bin, 1);
      var dd :- DateByte(bin, 2);
      Ok(Some("20" + yy + "/" + mm + "/" + dd))
  }

  /** The date bytes are rendered in the order YY, MM, DD: the first one that
      has a hex digit a-f is the fault. */
  lemma {:induction false} BiosDateNotDecimal(data: seq<byte>, i: nat, k: nat)
    requires Find(data, DateAnchor) == Some(i) && k < 3 && i + 6 + k < |data|
    requires forall j :: i + 6 <= j < i + 6 + k ==> BcdDigits(data[j]).Ok?
    requires BcdDigits(data[i + 6 + k]).Err?
    ensures BiosDate(data) == Err(DateNotDecimal(data[i + 6 + k]))
  {
    assert |DateAnchor| == 6;
    var bin := ReadAt(data, i + |DateAnchor|, DateSize);
    assert k < |bin| && bin[k] == data[i + 6 + k];
    assert DateByte(bin, k) == Err(DateNotDecimal(data[i + 6 + k]));
    if k >= 1 {
      assert DateByte(bin, 0) == BcdDigits(data[i + 6]);
    }
    if k >= 2 {
      assert DateByte(bin, 1) == BcdDigits(data[i + 7]);
    }
  }

  /** A file that ends after k < 3 decimal date bytes has no complete date. */
  lemma {:induction false} BiosDateTruncated(data: seq<byte>, i: nat, k: nat)
    requires Find(data, DateAnchor) == Some(i) && k < 3 && |data| == i + 6 + k
    requires forall j :: i + 6 <= j < i + 6 + k ==> BcdDigits(data[j]).Ok?
    ensures BiosDate(data) == Err(DateTruncated)
  {
    assert |DateAnchor| == 6;
    var bin := ReadAt(data, i + |DateAnchor|, DateSize);
    assert |bin| == k;
    assert DateByte(bin, k) == Err(DateTruncated);
    if k >= 1 {
      assert DateByte(bin, 0) == BcdDigits(data[i + 6]);
    }
    if k >= 2 {
      assert DateByte(bin, 1) == BcdDigits(data[i + 7]);
    }
  }

  /** Every two-digit number survives packing into BCD and rendering. */
  lemma BcdRoundTrip(n: nat)
    requires n < 100
    ensures BcdValue(EncodeBcd(n)) == n
    ensures BcdDigits(EncodeBcd(n)) == Ok(TwoDigits(n))
  {
    var b := EncodeBcd(n);
    assert b as int / 16 == n / 10 && b as int % 16 == n % 10;
  }

  /** Conversely, a byte that renders is the BCD encoding of what it renders. */
  lemma BcdDigitsDecode(b: byte)
    requires BcdDigits(b).Ok?
    ensures BcdValue(b) < 100 && EncodeBcd(BcdValue(b)) == b
    ensures BcdDigits(b).value == TwoDigits(BcdValue(b))
  {
    var v := BcdValue(b);
    assert v / 10 == b as int / 16 && v % 10 == b as int % 16;
  }

  /** An image whose first `$RDATE` is followed by the BCD bytes of YY, MM and
      DD reports the date `20YY/MM/DD`. */
  lemma BiosDateOfBcd(data: seq<byte>, i: nat, yy: nat, mm: nat, dd: nat)
    requires yy < 100 && mm < 100 && dd < 100
    requires Find(data, DateAnchor) == Some(i) && i + 9 <= |data|
    requires data[i + 6] == EncodeBcd(yy) && data[i + 7] == EncodeBcd(mm) && data[i + 8] == EncodeBcd(dd)
    ensures BiosDate(data) == Ok(Some("20" + TwoDigits(yy) + "/" + TwoDigits(mm) + "/" + TwoDigits(dd)))
  {
    var bin := ReadAt(data, i + |DateAnchor|, DateSize);
    assert bin == data[i + 6..i + 9];
    BcdRoundTrip(yy);
    BcdRoundTrip(mm);
    BcdRoundTrip(dd);
  }
}
