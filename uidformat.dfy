/** What a generated UID file is: its fields have the widths the slot sizes
    assume, it reads back as primary/mirror pairs with matching contents and
    declared lengths, and it holds no run of four 0xFF bytes, so the
    sentinel scan finds its end. */
module UidFormat {
  import opened Bytes
  import opened Layout
  import opened UidLocator
  import opened UidGen

  // ------------------------------------------------------- decimal numbers

  function Pow10(k: nat): (r: nat)
    ensures r >= 1
  {
    if k == 0 then 1 else 10 * Pow10(k - 1)
  }

  /** `str(n)` has at most `k` digits exactly when n < 10^k. */
  lemma {:induction false} DecimalLength(n: nat, k: nat)
    requires k >= 1
    ensures |Decimal(n)| <= k <==> n < Pow10(k)
  {
    if n < 10 {
      assert Pow10(k) >= 10 by { Pow10Grows(k); }
    } else if k == 1 {
      assert |Decimal(n)| == |Decimal(n / 10)| + 1;
    } else {
      DecimalLength(n / 10, k - 1);
    }
  }

  /** Proof helper for `DecimalLength`: a positive power of ten is at least 10. */
  lemma {:induction false} Pow10Grows(k: nat)
    requires k > 0
    ensures Pow10(k) >= 10
  {
    if k > 1 {
      Pow10Grows(k - 1);
    }
  }

  /** Reading the digits of `str(n)` gives back `n`. */
  lemma {:induction false} DecimalRoundTrip(n: nat)
    ensures DigitsValue(Decimal(n)) == n
  {
    var s := Decimal(n);
    if n >= 10 {
      assert s[..|s| - 1] == Decimal(n / 10);
      DecimalRoundTrip(n / 10);
    } else {
      assert s[..0] == [];
    }
  }

  /** Leading zeros do not change the number a digit string denotes. */
  lemma {:induction false} LeadingZeros(k: nat, s: seq<byte>)
    requires forall i :: 0 <= i < |s| ==> IsDigit(s[i])
    ensures forall i :: 0 <= i < |Zeros(k) + s| ==> IsDigit((Zeros(k) + s)[i])
    ensures DigitsValue(Zeros(k) + s) == DigitsValue(s)
  {
    var t := Zeros(k) + s;
    assert forall i :: 0 <= i < |t| ==> IsDigit(t[i]) by {
      forall i | 0 <= i < |t| ensures IsDigit(t[i]) {
        if i >= k { assert t[i] == s[i - k]; }
      }
    }
    if s == [] {
      assert t == Zeros(k);
      AllZeros(k);
    } else {
      assert t[..|t| - 1] == Zeros(k) + s[..|s| - 1];
      LeadingZeros(k, s[..|s| - 1]);
    }
  }

  lemma {:induction false} AllZeros(k: nat)
    ensures DigitsValue(Zeros(k)) == 0
  {
    if k > 0 {
      assert Zeros(k)[..k - 1] == Zeros(k - 1);
      AllZeros(k - 1);
    }
  }

  // ---------------------------------------------------------------- fields

  /** A chosen number from 0 to 99999999 is written as exactly eight decimal
      digits that denote it. */
  lemma NumberFieldValue(override: Option<int>, draw: int)
    requires 0 <= ChosenNumber(override, draw) <= 99999999
    ensures var r := NumberField(override, draw);
            && |r| == 8 && (forall i :: 0 <= i < 8 ==> IsDigit(r[i]))
            && DigitsValue(r) == ChosenNumber(override, draw)
  {
    PaddedDecimal(ChosenNumber(override, draw));
  }

  lemma PaddedDecimal(n: nat)
    requires n <= 99999999
    ensures var r := ZFill(Decimal(n), 8);
            |r| == 8 && (forall i :: 0 <= i < 8 ==> IsDigit(r[i])) && DigitsValue(r) == n
  {
    DecimalLength(n, 8);
    DecimalRoundTrip(n);
    var s := Decimal(n);
    if |s| < 8 {
      assert s[0] != Plus && s[0] != Minus by { assert IsDigit(s[0]); }
      assert ZFill(s, 8) == Zeros(8 - |s|) + s;
      LeadingZeros(8 - |s|, s);
    }
  }

  /** The alphanumeric form: eight upper-case letters or digits ending with
      the chosen characters, upper-cased, after any zeros padding them. */
  lemma CharsFieldShape(override: Option<seq<byte>>, draw: seq<byte>)
    requires |draw| == 8 && AllAlnum(draw)
    requires override.Some? ==> |override.value| <= 8
    ensures var s := ChosenChars(override, draw);
            var r := CharsField(override, draw);
            && |r| == 8
            && (forall i :: 0 <= i < 8 ==> IsAlnum(r[i]) && !(0x61 <= r[i] <= 0x7A))
            && (forall i :: 0 <= i < |s| ==> r[8 - |s| + i] == Upper(s[i]))
            && (forall i :: 0 <= i < 8 - |s| ==> r[i] == Digit0)
  {
    var s := ChosenChars(override, draw);
    assert AllAlnum(s) && |s| <= 8 by {
      if override.Some? && AllAlnum(override.value) {
        assert s == override.value;
      } else {
        assert s == draw;
      }
    }
    UpperZFill(s);
    assert CharsField(override, draw) == UpperAll(ZFill(s, 8));
  }

  /** Zero-filled to eight places and upper-cased, alphanumeric text keeps
      its characters, upper-cased, after the zeros. */
  lemma UpperZFill(s: seq<byte>)
    requires AllAlnum(s) && |s| <= 8
    ensures var r := UpperAll(ZFill(s, 8));
            && |r| == 8
            && (forall i :: 0 <= i < 8 ==> IsAlnum(r[i]) && !(0x61 <= r[i] <= 0x7A))
            && (forall i :: 0 <= i < |s| ==> r[8 - |s| + i] == Upper(s[i]))
            && (forall i :: 0 <= i < 8 - |s| ==> r[i] == Digit0)
  {
    var z := ZFill(s, 8);
    ZFillAlnum(s);
    var r := UpperAll(z);
    forall i | 0 <= i < 8
      ensures IsAlnum(r[i]) && !(0x61 <= r[i] <= 0x7A)
    {
      assert r[i] == Upper(z[i]) && IsAlnum(z[i]);
    }
    forall i | 0 <= i < |s|
      ensures r[8 - |s| + i] == Upper(s[i])
    {
      assert z[8 - |s| + i] == s[i];
    }
    forall i | 0 <= i < 8 - |s|
      ensures r[i] == Digit0
    {
      assert z[i] == Digit0;
    }
  }

  /** Zero-filling alphanumeric text to eight places puts zeros in front of
      it and nothing else. */
  lemma ZFillAlnum(s: seq<byte>)
    requires AllAlnum(s) && |s| <= 8
    ensures var z := ZFill(s, 8);
            && |z| == 8
            && (forall i :: 0 <= i < 8 - |s| ==> z[i] == Digit0)
            && (forall i :: 0 <= i < |s| ==> z[8 - |s| + i] == s[i])
            && (forall i :: 0 <= i < 8 ==> IsAlnum(z[i]))
  {
    var z := ZFill(s, 8);
    if |s| < 8 {
      assert s[0] != Plus && s[0] != Minus by { assert IsAlnum(s[0]); }
      assert z == Zeros(8 - |s|) + s;
    }
    forall i | 0 <= i < 8
      ensures IsAlnum(z[i])
    {
      if i >= 8 - |s| { assert z[i] == s[i - (8 - |s|)]; }
    }
  }

  /** A letter field is a capital letter: the first letter of an
      alphabetic override, upper-cased, or else the letter drawn. */
  lemma LetterChoice(override: Option<seq<byte>>, draw: byte)
    requires IsUpper(draw)
    ensures IsUpper(LetterField(override, draw))
    ensures override.Some? && AllLetters(override.value) ==>
              LetterField(override, draw) == Upper(override.value[0])
    ensures !(override.Some? && AllLetters(override.value)) ==> LetterField(override, draw) == draw
  {
  }

  /** An engineering-validation serial starts with the batch digits in the
      alphanumeric form always, and in the numeric form exactly when the
      drawn number has five digits: a smaller draw is zero-filled on the
      left, which pushes the batch digits off the front. */
  lemma BatchSerial(o: Options, ov: Overrides, d: Draws)
    requires ValidDraws(o, d) && BatchPrefix(o).Some?
    requires ov.serialNumber.None? && ov.serialChars.None?
    ensures var f := SerialNumber(o, ov, d);
            var p := BatchPrefix(o).value;
            && |f| == 12
            && (o.numeric ==> (f[4..7] == p <==> d.serialNumber >= 10000))
            && (!o.numeric ==> f[4..7] == p)
  {
    var p := BatchPrefix(o).value;
    var f := SerialNumber(o, ov, d);
    var head := [0x46 as byte, LetterField(ov.serialLetter, d.serialLetter)]
      + (if o.variant == F7A then Ascii("AA") else Ascii("ZZ"));
    if o.numeric {
      var z := ZFill(p + Decimal(d.serialNumber), 8);
      BatchDigits(p, d.serialNumber);
      assert f == head + z;
      assert f[4..7] == z[..3];
    } else {
      var z := UpperAll(ZFill(p + d.serialChars, 8));
      BatchChars(p, d.serialChars);
      assert f == head + z;
      assert f[4..7] == z[..3];
    }
  }

  /** Batch digits followed by a draw below 100000, zero-filled to eight:
      the batch digits lead exactly when the draw has five digits. */
  lemma BatchDigits(p: seq<byte>, n: nat)
    requires |p| == 3 && p[0] == 0x31 && n <= 99999
    ensures var z := ZFill(p + Decimal(n), 8);
            |z| == 8 && (z[..3] == p <==> n >= 10000)
  {
    DecimalLength(n, 5);
    DecimalLength(n, 4);
    var digits := p + Decimal(n);
    var z := ZFill(digits, 8);
    if n >= 10000 {
      assert z == digits;
      assert z[..3] == p;
    } else {
      assert z == Zeros(8 - |digits|) + digits;
      assert z[..3][0] == Digit0 != p[0];
    }
  }

  /** Batch digits followed by five drawn characters fill eight places
      exactly, and upper-casing leaves the digits in front. */
  lemma BatchChars(p: seq<byte>, c: seq<byte>)
    requires |p| == 3 && (forall i :: 0 <= i < 3 ==> IsDigit(p[i])) && |c| == 5
    ensures var z := UpperAll(ZFill(p + c, 8));
            |z| == 8 && z[..3] == p
  {
    var z := UpperAll(ZFill(p + c, 8));
    assert ZFill(p + c, 8) == p + c;
    forall i | 0 <= i < 3
      ensures z[i] == p[i]
    {
      assert z[i] == Upper((p + c)[i]) && (p + c)[i] == p[i];
    }
  }

  // --------------------------------------------------------------- lengths

  /** Overrides no wider than the eight characters the fields are made for. */
  predicate Fits(ov: Overrides) {
    && (ov.meNumber.Some? ==> -9999999 <= ov.meNumber.value <= 99999999)
    && (ov.serialNumber.Some? ==> -9999999 <= ov.serialNumber.value <= 99999999)
    && (ov.meChars.Some? ==> |ov.meChars.value| <= 8)
    && (ov.serialChars.Some? ==> |ov.serialChars.value| <= 8)
  }

  lemma StrWidth(n: int)
    requires -9999999 <= n <= 99999999
    ensures |Str(n)| <= 8
  {
    if n < 0 {
      DecimalLength(-n, 7);
    } else {
      DecimalLength(n, 8);
    }
  }

  /** With draws in range and overrides that fit, both tags are twelve bytes. */
  lemma TagWidths(o: Options, ov: Overrides, d: Draws)
    requires ValidDraws(o, d) && Fits(ov)
    ensures |AssetTag(o, ov, d)| == 12 && |SerialNumber(o, ov, d)| == 12
  {
    StrWidth(d.meNumber);
    StrWidth(d.serialNumber);
    if ov.meNumber.Some? { StrWidth(ov.meNumber.value); }
    if ov.serialNumber.Some? { StrWidth(ov.serialNumber.value); }
    if BatchPrefix(o).Some? {
      DecimalLength(d.serialNumber, 5);
    }
  }

  /** Every declared length counts the five header bytes and the contents. */
  predicate Declared(recs: seq<SubRecord>) {
    forall i :: 0 <= i < |recs| ==> recs[i].length as int == 5 + |recs[i].content|
  }

  lemma DeclaredLengths(o: Options, ov: Overrides, d: Draws)
    requires ValidDraws(o, d) && Fits(ov)
    ensures Declared(Records(o, ov, d))
  {
    TagWidths(o, ov, d);
  }

  lemma {:induction false} RenderLength(recs: seq<SubRecord>)
    requires Declared(recs)
    ensures |Render(recs)| == 2 * Total(recs)
  {
    if recs != [] {
      RenderLength(recs[1..]);
    }
  }

  /** The sum of the declared lengths. */
  function Total(recs: seq<SubRecord>): nat
  {
    if recs == [] then 0 else recs[0].length as nat + Total(recs[1..])
  }

  /** A generated UID file is 0x10c bytes for F7G and 0x174 bytes for F7A:
      the slot sizes of the two boards' images. */
  lemma RecordLength(o: Options, ov: Overrides, d: Draws)
    requires ValidDraws(o, d) && Fits(ov)
    ensures |UidRecord(o, ov, d)| == if o.variant == F7G then 0x10c else 0x174
  {
    var recs := Records(o, ov, d);
    DeclaredLengths(o, ov, d);
    RenderLength(recs);
    var r1 := recs[1..];
    var r2 := r1[1..];
    var r3 := r2[1..];
    var r4 := r3[1..];
    var r5 := r4[1..];
    if o.variant == F7A {
      assert r5 == [];
      assert Total(r4) == 0x40;
    } else {
      var r6 := r5[1..];
      assert r6 == [];
      assert Total(r5) == 0x1a;
      assert Total(r4) == 0x34;
    }
    assert Total(r3) == r3[0].length as nat + Total(r4);
    assert Total(r2) == r2[0].length as nat + Total(r3);
    assert Total(r1) == r1[0].length as nat + Total(r2);
  }

  // ---------------------------------------------------------------- parser

  /** Reads primary/mirror pairs back: a primary copy with its declared
      length, then a mirror copy with the same tags, length and contents. */
  function ParsePairs(s: seq<byte>): (r: Option<seq<SubRecord>>)
    decreases |s|
  {
    if s == [] then Some([])
    else if |s| < 5 || s[2] != PrimaryFlag || s[4] != 0x00 || s[3] < 5 || |s| < 2 * s[3] as int then None
    else
      var n := s[3] as int;
      var rec := SubRecord(s[0], s[1], s[3], s[5..n]);
      if s[n..2 * n] != Copy(rec, MirrorFlag) then None
      else match ParsePairs(s[2 * n..])
        case None => None
        case Some(rest) => Some([rec] + rest)
  }

  /** A UID file: the anchor, then pairs up to the end. */
  function ParseUid(s: seq<byte>): Option<seq<SubRecord>>
  {
    if |s| >= 4 && s[..4] == UidAnchor then ParsePairs(s[4..]) else None
  }

  /** Where the parser looks in a pair followed by more bytes. */
  lemma PairThen(rec: SubRecord, t: seq<byte>)
    requires rec.length as int == 5 + |rec.content|
    ensures var s := Pair(rec) + t;
            var n := rec.length as int;
            && |s| == 2 * n + |t|
            && s[0] == rec.kind && s[1] == rec.field && s[2] == PrimaryFlag
            && s[3] == rec.length && s[4] == 0x00
            && s[5..n] == rec.content && s[n..2 * n] == Copy(rec, MirrorFlag) && s[2 * n..] == t
  {
    var n := rec.length as int;
    var s := Pair(rec) + t;
    assert s == Copy(rec, PrimaryFlag) + (Copy(rec, MirrorFlag) + t);
    assert s[..n] == Copy(rec, PrimaryFlag);
    assert s[5..n] == Copy(rec, PrimaryFlag)[5..];
  }

  /** Rendering sub-records with honest lengths and reading them back gives
      the same sub-records. */
  lemma {:induction false} ParseRender(recs: seq<SubRecord>)
    requires Declared(recs)
    ensures ParsePairs(Render(recs)) == Some(recs)
  {
    if recs != [] {
      var rec := recs[0];
      var rest := recs[1..];
      assert Declared(rest) by {
        forall i | 0 <= i < |rest| ensures rest[i].length as int == 5 + |rest[i].content| {
          assert rest[i] == recs[i + 1];
        }
      }
      ParseRender(rest);
      PairThen(rec, Render(rest));
      assert [rec] + rest == recs;
    }
  }

  /** Whatever reads back as pairs is exactly their rendering, with honest
      lengths: each mirror copy repeats its primary byte for byte. */
  lemma {:induction false} RenderParse(s: seq<byte>)
    requires ParsePairs(s).Some?
    ensures Declared(ParsePairs(s).value)
    ensures Render(ParsePairs(s).value) == s
    decreases |s|
  {
    if s != [] {
      var n := s[3] as int;
      var rec := SubRecord(s[0], s[1], s[3], s[5..n]);
      var tail := s[2 * n..];
      RenderParse(tail);
      var rest := ParsePairs(tail).value;
      var recs := [rec] + rest;
      assert ParsePairs(s).value == recs;
      PairPrefix(s);
      assert recs[0] == rec && recs[1..] == rest;
      assert Render(recs) == Pair(rec) + Render(rest);
      assert Declared(recs) by {
        forall i | 0 <= i < |recs| ensures recs[i].length as int == 5 + |recs[i].content| {
          if i > 0 { assert recs[i] == rest[i - 1]; }
        }
      }
    }
  }

  /** A primary copy that the parser accepts, followed by its mirror, is the
      pair of the sub-record it declares. */
  lemma PairPrefix(s: seq<byte>)
    requires |s| >= 5 && s[2] == PrimaryFlag && s[4] == 0x00 && s[3] >= 5 && |s| >= 2 * s[3] as int
    requires var n := s[3] as int;
             s[n..2 * n] == Copy(SubRecord(s[0], s[1], s[3], s[5..n]), MirrorFlag)
    ensures var n := s[3] as int;
            s == Pair(SubRecord(s[0], s[1], s[3], s[5..n])) + s[2 * n..]
  {
    var n := s[3] as int;
    var rec := SubRecord(s[0], s[1], s[3], s[5..n]);
    assert s[..n] == [s[0], s[1], s[2], s[3], s[4]] + s[5..n];
    assert s[..n] == Copy(rec, PrimaryFlag);
    assert s == s[..n] + s[n..2 * n] + s[2 * n..];
  }

  /** A generated UID file reads back as the sub-records it was written
      from. */
  lemma GeneratedUidParses(o: Options, ov: Overrides, d: Draws)
    requires ValidDraws(o, d) && Fits(ov)
    ensures ParseUid(UidRecord(o, ov, d)) == Some(Records(o, ov, d))
  {
    var u := UidRecord(o, ov, d);
    assert u[..4] == UidAnchor && u[4..] == Render(Records(o, ov, d));
    DeclaredLengths(o, ov, d);
    ParseRender(Records(o, ov, d));
  }

  // ---------------------------------------------------------- sentinel-free

  /** Every 0xFF byte is followed by a byte that is not 0xFF. */
  predicate Spaced(s: seq<byte>) {
    forall i :: 0 <= i < |s| && s[i] == 0xFF ==> i + 1 < |s| && s[i + 1] != 0xFF
  }

  lemma SpacedConcat(a: seq<byte>, b: seq<byte>)
    requires Spaced(a) && Spaced(b)
    ensures Spaced(a + b)
  {
    var c := a + b;
    forall i | 0 <= i < |c| && c[i] == 0xFF
      ensures i + 1 < |c| && c[i + 1] != 0xFF
    {
      if i < |a| {
        assert a[i] == 0xFF;
      } else {
        assert b[i - |a|] == 0xFF;
      }
    }
  }

  /** A spaced sequence holds no sentinel and does not end in 0xFF. */
  lemma SpacedSentinelFree(s: seq<byte>)
    requires Spaced(s)
    ensures forall j :: !OccursAt(s, Sentinel, j)
    ensures |s| > 0 ==> s[|s| - 1] != 0xFF
  {
    forall j
      ensures !OccursAt(s, Sentinel, j)
    {
      if 0 <= j && j + 4 <= |s| && s[j] == 0xFF {
        assert s[j..j + 4][1] == s[j + 1] != 0xFF;
      } else if 0 <= j && j + 4 <= |s| {
        assert s[j..j + 4][0] == s[j] != 0xFF;
      }
    }
  }

  /** A sub-record whose tags and length are not 0xFF and whose contents
      are text: the only 0xFF is a mirror flag, followed by the length. */
  predicate Plain(r: SubRecord) {
    r.kind != 0xFF && r.field != 0xFF && r.length != 0xFF && Text(r.content)
  }

  lemma PairSpaced(r: SubRecord)
    requires Plain(r)
    ensures Spaced(Pair(r))
  {
    var p := Pair(r);
    var n := 5 + |r.content|;
    forall i | 0 <= i < |p|
      ensures p[i] == 0xFF ==> i + 1 < |p| && p[i + 1] != 0xFF
    {
      if 5 <= i < n {
        assert p[i] == r.content[i - 5] != 0xFF;
      } else if n + 5 <= i {
        assert p[i] == r.content[i - n - 5] != 0xFF;
      } else if i == n + 2 {
        assert p[i + 1] == r.length;
      } else if i != 2 {
        assert p[i] != 0xFF;
      }
    }
  }

  lemma {:induction false} RenderSpaced(recs: seq<SubRecord>)
    requires forall i :: 0 <= i < |recs| ==> Plain(recs[i])
    ensures Spaced(Render(recs))
  {
    if recs != [] {
      PairSpaced(recs[0]);
      RenderSpaced(recs[1..]);
      SpacedConcat(Pair(recs[0]), Render(recs[1..]));
    }
  }

  lemma ZFillText(s: seq<byte>)
    requires Text(s)
    ensures Text(ZFill(s, 8))
  {
    var z := ZFill(s, 8);
    if |s| < 8 {
      forall i | 0 <= i < |z| ensures z[i] < 0x80 {
        if s != [] && (s[0] == Plus || s[0] == Minus) {
          assert z == [s[0]] + Zeros(8 - |s|) + s[1..];
          if i > 8 - |s| { assert z[i] == s[i - (8 - |s|)]; }
        } else {
          assert z == Zeros(8 - |s|) + s;
          if i >= 8 - |s| { assert z[i] == s[i - (8 - |s|)]; }
        }
      }
    }
  }

  lemma StrText(n: int)
    ensures Text(Str(n))
  {
    var s := Str(n);
    if n < 0 {
      forall i | 0 <= i < |s| ensures s[i] < 0x80 {
        if i > 0 { assert s[i] == Decimal(-n)[i - 1]; }
      }
    }
  }

  /** The tags are 7-bit text whatever the overrides. */
  lemma TextConcat(a: seq<byte>, b: seq<byte>)
    requires Text(a) && Text(b)
    ensures Text(a + b)
  {
    forall i | 0 <= i < |a + b| ensures (a + b)[i] < 0x80 {
      if i >= |a| { assert (a + b)[i] == b[i - |a|]; }
    }
  }

  lemma UpperText(s: seq<byte>)
    requires Text(s)
    ensures Text(UpperAll(s))
  {
  }

  lemma AssetTagText(o: Options, ov: Overrides, d: Draws)
    requires ValidDraws(o, d)
    ensures Text(AssetTag(o, ov, d))
  {
    var n := ChosenNumber(ov.meNumber, d.meNumber);
    StrText(n);
    ZFillText(Str(n));
    ZFillText(ChosenChars(ov.meChars, d.meChars));
    UpperText(ZFill(ChosenChars(ov.meChars, d.meChars), 8));
    var prefix := if o.variant == F7A then Ascii("MEB") else Ascii("MEC");
    TextConcat(prefix, [LetterField(ov.meLetter, d.meLetter)]);
    var field := if o.numeric then NumberField(ov.meNumber, d.meNumber) else CharsField(ov.meChars, d.meChars);
    TextConcat(prefix + [LetterField(ov.meLetter, d.meLetter)], field);
  }

  lemma SerialFieldText(o: Options, ov: Overrides, d: Draws)
    requires ValidDraws(o, d)
    ensures Text(if o.numeric then SerialNumberField(o, ov.serialNumber, d.serialNumber)
                 else SerialCharsField(o, ov.serialChars, d.serialChars))
  {
    var n := ChosenNumber(ov.serialNumber, d.serialNumber);
    StrText(n);
    ZFillText(Str(n));
    ZFillText(ChosenChars(ov.serialChars, d.serialChars));
    match BatchPrefix(o)
    case Some(p) =>
      StrText(d.serialNumber);
      TextConcat(p, Str(d.serialNumber));
      ZFillText(p + Str(d.serialNumber));
      TextConcat(p, d.serialChars);
      ZFillText(p + d.serialChars);
    case None =>
      StrText(d.serialNumber);
      ZFillText(Str(d.serialNumber));
      ZFillText(d.serialChars);
  }

  lemma SerialNumberText(o: Options, ov: Overrides, d: Draws)
    requires ValidDraws(o, d)
    ensures Text(SerialNumber(o, ov, d))
  {
    SerialFieldText(o, ov, d);
    var head := [0x46 as byte, LetterField(ov.serialLetter, d.serialLetter)]
      + (if o.variant == F7A then Ascii("AA") else Ascii("ZZ"));
    var field := if o.numeric then SerialNumberField(o, ov.serialNumber, d.serialNumber)
                 else SerialCharsField(o, ov.serialChars, d.serialChars);
    TextConcat(head, field);
  }

  lemma PlaceholdersPlain(v: Variant)
    ensures forall i :: 0 <= i < |Placeholders(v)| ==> Plain(Placeholders(v)[i])
  {
    TextConcat(Ascii("5."), Fives(15));
    TextConcat(Ascii("14."), Fives(15));
    TextConcat(Ascii("12."), Fives(15));
    TextConcat(IdentityGroupF7A, Ascii("-"));
    TextConcat(IdentityGroupF7A + Ascii("-"), IdentityGroupF7A);
    TextConcat(IdentityGroupF7A + Ascii("-") + IdentityGroupF7A, Ascii("-"));
    TextConcat(IdentityGroupF7A + Ascii("-") + IdentityGroupF7A + Ascii("-"), IdentityGroupF7A);
  }

  lemma RecordsPlain(o: Options, ov: Overrides, d: Draws)
    requires ValidDraws(o, d)
    ensures forall i :: 0 <= i < |Records(o, ov, d)| ==> Plain(Records(o, ov, d)[i])
  {
    AssetTagText(o, ov, d);
    SerialNumberText(o, ov, d);
    PlaceholdersPlain(o.variant);
    var tags := Tags(o, ov, d);
    var recs := Records(o, ov, d);
    forall i | 0 <= i < |recs| ensures Plain(recs[i]) {
      if i >= 2 { assert recs[i] == Placeholders(o.variant)[i - 2]; }
    }
  }

  /** A generated UID file holds no run of four 0xFF bytes and does not end
      in 0xFF, whatever the overrides: the sentinel scan cannot stop inside
      it. */
  lemma GeneratedUidSentinelFree(o: Options, ov: Overrides, d: Draws)
    requires ValidDraws(o, d)
    ensures forall j :: !OccursAt(UidRecord(o, ov, d), Sentinel, j)
    ensures UidRecord(o, ov, d)[|UidRecord(o, ov, d)| - 1] != 0xFF
  {
    var recs := Records(o, ov, d);
    RecordsPlain(o, ov, d);
    RenderSpaced(recs);
    assert Spaced(UidAnchor);
    SpacedConcat(UidAnchor, Render(recs));
    SpacedSentinelFree(UidRecord(o, ov, d));
  }
}
