/** Generation of a UID file for the F7G or F7A board: `$DMI` followed by
    pairs of sub-records, a primary copy (flag 0x00) and a mirror copy (flag
    0xFF) with the same contents. The asset tag (`MEx?????????`) and the
    serial number (`F?xx????????`) are drawn at random unless an override
    constant is set to an acceptable value; the version and identity
    placeholders are fixed per board. The random draws are parameters. */
module UidGen {
  import opened Bytes
  import opened Layout
  import opened UidLocator

  // ------------------------------------------------------------- characters

  const Digit0: byte := 0x30
  const Plus: byte := 0x2B
  const Minus: byte := 0x2D

  predicate IsUpper(b: byte) { 0x41 <= b <= 0x5A }

  /** `str.isalpha()` on ASCII text: non-empty and only letters. */
  predicate AllLetters(s: seq<byte>) {
    |s| > 0 && forall i :: 0 <= i < |s| ==> IsLetter(s[i])
  }

  /** 7-bit text: holds no 0xFF byte in particular. */
  predicate Text(s: seq<byte>) {
    forall i :: 0 <= i < |s| ==> s[i] < 0x80
  }

  /** `str.upper()` on one ASCII character. */
  function Upper(b: byte): (r: byte)
    ensures IsLetter(b) ==> IsUpper(r)
    ensures IsDigit(b) ==> r == b
    ensures b < 0x80 ==> r < 0x80
  {
    if 0x61 <= b <= 0x7A then b - 0x20 else b
  }

  function UpperAll(s: seq<byte>): (r: seq<byte>)
    ensures |r| == |s| && forall i :: 0 <= i < |s| ==> r[i] == Upper(s[i])
  {
    seq(|s|, i requires 0 <= i < |s| => Upper(s[i]))
  }

  /** `str(n)` for a natural number: its decimal digits, no leading zero. */
  function Decimal(n: nat): (r: seq<byte>)
    ensures |r| > 0 && forall i :: 0 <= i < |r| ==> IsDigit(r[i])
  {
    if n < 10 then [Digit0 + n as byte]
    else Decimal(n / 10) + [Digit0 + (n % 10) as byte]
  }

  /** `str(n)` for any integer. */
  function Str(n: int): seq<byte>
  {
    if n < 0 then [Minus] + Decimal(-n) else Decimal(n)
  }

  /** The number a string of decimal digits denotes. */
  function DigitsValue(s: seq<byte>): nat
    requires forall i :: 0 <= i < |s| ==> IsDigit(s[i])
  {
    if s == [] then 0
    else
      assert IsDigit(s[|s| - 1]);
      DigitsValue(s[..|s| - 1]) * 10 + (s[|s| - 1] - Digit0) as nat
  }

  /** `s.zfill(width)`: zeros on the left up to `width`, after a leading
      sign if there is one; a string already that long is unchanged. */
  function ZFill(s: seq<byte>, width: nat): (r: seq<byte>)
    ensures |r| == if |s| >= width then |s| else width
    ensures |s| >= width ==> r == s
  {
    if |s| >= width then s
    else if |s| > 0 && (s[0] == Plus || s[0] == Minus) then [s[0]] + Zeros(width - |s|) + s[1..]
    else Zeros(width - |s|) + s
  }

  /** `n` ASCII zeros. */
  function Zeros(n: nat): (r: seq<byte>)
    ensures |r| == n && forall i :: 0 <= i < n ==> r[i] == Digit0
  {
    seq(n, _ => Digit0)
  }

  // ------------------------------------------------------------ parameters

  /** `--f7a`, `--int`, `--ev2` and `--ev3`. */
  datatype Options = Options(variant: Variant, numeric: bool, ev2: bool, ev3: bool)

  /** The six override constants (`meYX_alpha`, `meYX_int`, `meYX_alnum`,
      `fXYY_alpha`, `fXYY_int`, `fXYY_alnum`); None where they are unset. */
  datatype Overrides = Overrides(
    meLetter: Option<seq<byte>>, meNumber: Option<int>, meChars: Option<seq<byte>>,
    serialLetter: Option<seq<byte>>, serialNumber: Option<int>, serialChars: Option<seq<byte>>)

  /** What `random.randint` and `random.choice` returned. */
  datatype Draws = Draws(
    meLetter: byte, meNumber: int, meChars: seq<byte>,
    serialLetter: byte, serialNumber: int, serialChars: seq<byte>)

  /** An engineering-validation batch fixes the serial's leading digits;
      `--ev3` is tested before `--ev2`. */
  function BatchPrefix(o: Options): Option<seq<byte>>
  {
    if o.ev3 then Some(Ascii("133"))
    else if o.ev2 then Some(Ascii("132"))
    else None
  }

  /** The ranges the random calls draw from: a capital letter, an 8-digit
      number, 8 letters or digits; a batch serial draws a 5-digit number
      and 5 characters. */
  predicate ValidDraws(o: Options, d: Draws) {
    var short := BatchPrefix(o).Some?;
    && IsUpper(d.meLetter) && IsUpper(d.serialLetter)
    && 0 <= d.meNumber <= 99999999
    && 0 <= d.serialNumber <= (if short then 99999 else 99999999)
    && |d.meChars| == 8 && AllAlnum(d.meChars)
    && |d.serialChars| == (if short then 5 else 8) && AllAlnum(d.serialChars)
  }

  // ---------------------------------------------------------------- fields

  /** A letter field: the override's first letter upper-cased when the
      override is alphabetic, else the drawn letter. */
  function LetterField(override: Option<seq<byte>>, draw: byte): byte
  {
    var chosen := if override.Some? && AllLetters(override.value) then override.value else [draw];
    Upper(chosen[0])
  }

  /** The numeric form of a field: a non-zero override, else the drawn
      number, as decimal text zero-filled to eight characters. */
  function NumberField(override: Option<int>, draw: int): seq<byte>
  {
    ZFill(Str(ChosenNumber(override, draw)), 8)
  }

  /** A non-zero override wins over the drawn number. */
  function ChosenNumber(override: Option<int>, draw: int): int
  {
    if override.Some? && override.value != 0 then override.value else draw
  }

  /** An alphanumeric override wins over the drawn characters. */
  function ChosenChars(override: Option<seq<byte>>, draw: seq<byte>): seq<byte>
  {
    if override.Some? && AllAlnum(override.value) then override.value else draw
  }

  /** The alphanumeric form of a field: an alphanumeric override, else the
      drawn characters, zero-filled to eight and upper-cased. */
  function CharsField(override: Option<seq<byte>>, draw: seq<byte>): seq<byte>
  {
    UpperAll(ZFill(ChosenChars(override, draw), 8))
  }

  /** The numeric serial: a batch draw is appended to the batch digits
      (going through `int` and back to text leaves that text unchanged, as it
      starts with 1). */
  function SerialNumberField(o: Options, override: Option<int>, draw: int): seq<byte>
  {
    if override.Some? && override.value != 0 then ZFill(Str(override.value), 8)
    else match BatchPrefix(o)
      case Some(p) => ZFill(p + Str(draw), 8)
      case None => ZFill(Str(draw), 8)
  }

  /** The alphanumeric serial: a batch draw of five characters follows the
      batch digits. */
  function SerialCharsField(o: Options, override: Option<seq<byte>>, draw: seq<byte>): seq<byte>
  {
    if override.Some? && AllAlnum(override.value) then UpperAll(ZFill(override.value, 8))
    else match BatchPrefix(o)
      case Some(p) => UpperAll(ZFill(p + draw, 8))
      case None => UpperAll(ZFill(draw, 8))
  }

  /** The asset tag: `MEB` (F7A) or `MEC` (F7G), a letter, eight characters. */
  function AssetTag(o: Options, ov: Overrides, d: Draws): seq<byte>
  {
    (if o.variant == F7A then Ascii("MEB") else Ascii("MEC"))
      + [LetterField(ov.meLetter, d.meLetter)]
      + (if o.numeric then NumberField(ov.meNumber, d.meNumber) else CharsField(ov.meChars, d.meChars))
  }

  /** The serial number: `F`, a letter, `AA` (F7A) or `ZZ` (F7G), eight
      characters. */
  function SerialNumber(o: Options, ov: Overrides, d: Draws): seq<byte>
  {
    [0x46, LetterField(ov.serialLetter, d.serialLetter)]
      + (if o.variant == F7A then Ascii("AA") else Ascii("ZZ"))
      + (if o.numeric then SerialNumberField(o, ov.serialNumber, d.serialNumber)
         else SerialCharsField(o, ov.serialChars, d.serialChars))
  }

  // ---------------------------------------------------------------- layout

  /** A sub-record: two tag bytes, the copy flag, the declared length (the
      five header bytes included), a zero byte, then the contents. */
  datatype SubRecord = SubRecord(kind: byte, field: byte, length: byte, content: seq<byte>)

  const PrimaryFlag: byte := 0x00
  const MirrorFlag: byte := 0xFF

  function Copy(r: SubRecord, flag: byte): seq<byte>
  {
    [r.kind, r.field, flag, r.length, 0x00] + r.content
  }

  /** A sub-record written twice, primary then mirror. */
  function Pair(r: SubRecord): seq<byte>
  {
    Copy(r, PrimaryFlag) + Copy(r, MirrorFlag)
  }

  function Render(recs: seq<SubRecord>): seq<byte>
  {
    if recs == [] then [] else Pair(recs[0]) + Render(recs[1..])
  }

  /** `n` ASCII fives. */
  function Fives(n: nat): seq<byte>
  {
    seq(n, _ => 0x35)
  }

  const IdentityF7G: seq<byte> := Ascii("0x00000000-0x00000000")
  const IdentityGroupF7A: seq<byte> := Ascii("0x00,0x00,0x00,0x00")
  const IdentityF7A: seq<byte> :=
    IdentityGroupF7A + Ascii("-") + IdentityGroupF7A + Ascii("-") + IdentityGroupF7A

  /** The asset tag and serial number sub-records. */
  function Tags(o: Options, ov: Overrides, d: Draws): seq<SubRecord>
  {
    [SubRecord(0x02, 0x07, 0x11, AssetTag(o, ov, d)),
     SubRecord(0x01, 0x07, 0x11, SerialNumber(o, ov, d))]
  }

  /** The fixed version and identity placeholder sub-records of each board. */
  function Placeholders(v: Variant): seq<SubRecord>
  {
    match v
    case F7A =>
      [SubRecord(0x0b, 0x06, 0x16, Ascii("5.") + Fives(15)),
       SubRecord(0x0b, 0x05, 0x40, IdentityF7A),
       SubRecord(0x0b, 0x07, 0x40, IdentityF7A)]
    case F7G =>
      [SubRecord(0x0b, 0x08, 0x17, Ascii("14.") + Fives(15)),
       SubRecord(0x0b, 0x06, 0x17, Ascii("12.") + Fives(15)),
       SubRecord(0x0b, 0x05, 0x1a, IdentityF7G),
       SubRecord(0x0b, 0x07, 0x1a, IdentityF7G)]
  }

  /** The sub-records of a generated UID, in the order they are written. */
  function Records(o: Options, ov: Overrides, d: Draws): seq<SubRecord>
  {
    Tags(o, ov, d) + Placeholders(o.variant)
  }

  /** The bytes of a generated UID file. */
  function UidRecord(o: Options, ov: Overrides, d: Draws): seq<byte>
  {
    UidAnchor + Render(Records(o, ov, d))
  }

  lemma {:induction false} RenderConcat(a: seq<SubRecord>, b: seq<SubRecord>)
    ensures Render(a + b) == Render(a) + Render(b)
  {
    if a == [] {
      assert a + b == b;
    } else {
      assert (a + b)[1..] == a[1..] + b;
      RenderConcat(a[1..], b);
    }
  }

  // -------------------------------------------------------------- generator

  /** The generated UID file, opened for writing (`'wb'` empties it). */
  class UidFile {
    var contents: seq<byte>

    constructor Create()
      ensures contents == []
    {
      contents := [];
    }

    method Write(b: seq<byte>)
      modifies this
      ensures contents == old(contents) + b
    {
      contents := contents + b;
    }
  }

  /** One copy of a tag sub-record, written as its header, its fixed part
      and its eight-character field. */
  method WriteTagCopy(f: UidFile, kind: byte, flag: byte, fixed: seq<byte>, field: seq<byte>)
    modifies f
    ensures f.contents == old(f.contents) + Copy(SubRecord(kind, 0x07, 0x11, fixed + field), flag)
  {
    f.Write([kind, 0x07, flag, 0x11, 0x00]);
    f.Write(fixed);
    f.Write(field);
  }

  /** A tag sub-record written twice, primary then mirror. */
  method WriteTag(f: UidFile, kind: byte, fixed: seq<byte>, field: seq<byte>)
    modifies f
    ensures f.contents == old(f.contents) + Pair(SubRecord(kind, 0x07, 0x11, fixed + field))
  {
    WriteTagCopy(f, kind, PrimaryFlag, fixed, field);
    WriteTagCopy(f, kind, MirrorFlag, fixed, field);
  }

  /** The asset tag: the letter and both forms of the field are settled
      first, then the chosen form is written. */
  method WriteAssetTag(f: UidFile, o: Options, ov: Overrides, d: Draws)
    modifies f
    ensures f.contents == old(f.contents) + Pair(SubRecord(0x02, 0x07, 0x11, AssetTag(o, ov, d)))
  {
    var letter := LetterField(ov.meLetter, d.meLetter);
    var prefix := if o.variant == F7A then Ascii("MEB") else Ascii("MEC");
    var number := NumberField(ov.meNumber, d.meNumber);
    var chars := CharsField(ov.meChars, d.meChars);
    var field := if o.numeric then number else chars;
    WriteTag(f, 0x02, prefix + [letter], field);
    assert prefix + [letter] + field == AssetTag(o, ov, d);
  }

  /** The serial number, settled and written like the asset tag. */
  method WriteSerialNumber(f: UidFile, o: Options, ov: Overrides, d: Draws)
    modifies f
    ensures f.contents == old(f.contents) + Pair(SubRecord(0x01, 0x07, 0x11, SerialNumber(o, ov, d)))
  {
    var letter := LetterField(ov.serialLetter, d.serialLetter);
    var board := if o.variant == F7A then Ascii("AA") else Ascii("ZZ");
    var number := SerialNumberField(o, ov.serialNumber, d.serialNumber);
    var chars := SerialCharsField(o, ov.serialChars, d.serialChars);
    var field := if o.numeric then number else chars;
    WriteTag(f, 0x01, [0x46, letter] + board, field);
    assert [0x46, letter] + board + field == SerialNumber(o, ov, d);
  }

  /** A fixed sub-record written twice: header, contents, header, contents. */
  method WritePair(f: UidFile, r: SubRecord)
    modifies f
    ensures f.contents == old(f.contents) + Pair(r)
  {
    f.Write([r.kind, r.field, PrimaryFlag, r.length, 0x00]);
    f.Write(r.content);
    f.Write([r.kind, r.field, MirrorFlag, r.length, 0x00]);
    f.Write(r.content);
  }

  /** Proof helper: regroups a concatenation of three writes. */
  lemma Regroup(a: seq<byte>, b: seq<byte>, c: seq<byte>)
    ensures a + b + c == a + (b + c)
  {
  }

  /** The placeholders of each board, rendered pair by pair. */
  lemma RenderPlaceholders(v: Variant)
    ensures var recs := Placeholders(v);
            Render(recs) == Pair(recs[0]) + (Pair(recs[1]) + (Pair(recs[2]) + Render(recs[3..])))
    ensures v == F7A ==> Render(Placeholders(v)[3..]) == []
    ensures v == F7G ==> Render(Placeholders(v)[3..]) == Pair(Placeholders(v)[3])
  {
    var recs := Placeholders(v);
    var r1 := recs[1..];
    var r2 := r1[1..];
    assert r1[0] == recs[1] && r2[0] == recs[2] && r2[1..] == recs[3..];
    assert Render(r2) == Pair(recs[2]) + Render(recs[3..]);
    assert Render(r1) == Pair(recs[1]) + Render(r2);
    if v == F7G {
      assert recs[3..][1..] == [];
    }
  }

  /** The writes of the placeholders of one board. */
  method WritePlaceholders(f: UidFile, v: Variant)
    modifies f
    ensures f.contents == old(f.contents) + Render(Placeholders(v))
  {
    ghost var recs := Placeholders(v);
    ghost var start := f.contents;
    if v == F7A {
      WritePair(f, SubRecord(0x0b, 0x06, 0x16, Ascii("5.") + Fives(15)));
      WritePair(f, SubRecord(0x0b, 0x05, 0x40, IdentityF7A));
      WritePair(f, SubRecord(0x0b, 0x07, 0x40, IdentityF7A));
      Regroup(start + Pair(recs[0]), Pair(recs[1]), Pair(recs[2]));
      Regroup(start, Pair(recs[0]), Pair(recs[1]) + Pair(recs[2]));
    } else {
      WritePair(f, SubRecord(0x0b, 0x08, 0x17, Ascii("14.") + Fives(15)));
      WritePair(f, SubRecord(0x0b, 0x06, 0x17, Ascii("12.") + Fives(15)));
      WritePair(f, SubRecord(0x0b, 0x05, 0x1a, IdentityF7G));
      WritePair(f, SubRecord(0x0b, 0x07, 0x1a, IdentityF7G));
      Regroup(start + Pair(recs[0]) + Pair(recs[1]), Pair(recs[2]), Pair(recs[3]));
      Regroup(start + Pair(recs[0]), Pair(recs[1]), Pair(recs[2]) + Pair(recs[3]));
      Regroup(start, Pair(recs[0]), Pair(recs[1]) + (Pair(recs[2]) + Pair(recs[3])));
    }
    RenderPlaceholders(v);
  }

  /** The tags rendered ahead of the placeholders. */
  lemma RenderRecords(o: Options, ov: Overrides, d: Draws)
    ensures var tags := Tags(o, ov, d);
            Render(Records(o, ov, d)) == Pair(tags[0]) + (Pair(tags[1]) + Render(Placeholders(o.variant)))
  {
    var tags := Tags(o, ov, d);
    RenderConcat(tags, Placeholders(o.variant));
    assert tags[1..][1..] == [];
    assert Render(tags[1..]) == Pair(tags[1]) + Render(tags[1..][1..]);
    Regroup(Pair(tags[0]), Pair(tags[1]), Render(Placeholders(o.variant)));
  }

  /** The generator: a new UID file holding the anchor, the asset tag, the
      serial number and the board's placeholders. */
  method GenerateUid(o: Options, ov: Overrides, d: Draws) returns (f: UidFile)
    ensures fresh(f) && f.contents == UidRecord(o, ov, d)
  {
    f := new UidFile.Create();
    f.Write(UidAnchor);
    assert f.contents == UidAnchor;
    WriteAssetTag(f, o, ov, d);
    WriteSerialNumber(f, o, ov, d);
    WritePlaceholders(f, o.variant);
    ghost var tags := Tags(o, ov, d);
    ghost var rest := Render(Placeholders(o.variant));
    Regroup(UidAnchor + Pair(tags[0]), Pair(tags[1]), rest);
    Regroup(UidAnchor, Pair(tags[0]), Pair(tags[1]) + rest);
    RenderRecords(o, ov, d);
  }
}
