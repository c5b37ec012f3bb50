# jupiter-bios-tool, modelled in Dafny

`jupiter-bios-tool` prepares a Steam Deck (Jupiter) BIOS image for flashing.
It takes a release executable or an image already trimmed to the flash size,
finds the 16 MiB payload, and writes exactly 0x1000000 bytes. Along the way it
can keep the board's identity block (the UID), replace it, or blank it. It can
also generate a fresh UID file for the F7A or the F7G board. This project
models the image-handling core of the script and proves what it does:

- **Descriptive fields** (`scanner.dfy`). The BIOS version is taken from the
  first version anchor that occurs, F7G before F7A. The EC revision and date
  come from four anchor patterns tried in order, with the script's `continue`
  and `break`. The BIOS build date is three packed-BCD bytes after `$RDATE`.
- **Classification and payload offset** (`layout.dfy`). An image is a release
  executable (`MZ`), a trimmed F7A or F7G image (by its leading bytes), or
  unknown. A trimmed image's payload starts at 0. Without a board header at
  the front, the payload offset is 0x18
  past `$_IFLASH_BIOSIMG`. Failing that, the known offsets are probed for a
  board header.
- **UID block** (`uid.dfy`). The block starts at the first `$DMI` and runs up
  to the first run of four 0xFF bytes (the sentinel), or to the end of the
  file.
- **Assembly** (`assembler.dfy`, `cursor.dfy`). One file cursor is moved with
  Python 3 `seek`/`read` semantics, and what is read is concatenated. The UID
  slot is copied, overwritten by a UID file padded with 0xFF, or blanked. The
  result is then size-checked.
- **UID generation** (`uidgen.dfy`, `uidformat.dfy`).
  - A generated file is `$DMI` followed by primary/mirror sub-record pairs:
    asset tag, serial number, then the board's fixed placeholders.
  - It is 0x10c bytes for F7G and 0x174 for F7A, the slot sizes of the two
    boards.
  - It parses back into the sub-records it was written from.
  - It never contains a sentinel.
- **Round trip** (`reinject.dfy`). A generated UID file injected into a slot
  at least that long is located again whole after assembly. It then parses
  back into its sub-records.

Random draws (`random.randint`, `random.choice`) are parameters constrained to
their ranges. The six override constants are `Option` parameters, the text
ones as ASCII bytes (see "## Left out"). File names
and flags become a request value.

Where the code and its documentation differ, the model follows the code:

- A successful fallback probe clears the `invalid` flag.
- A failed probe keeps offset 0xe8c70, flagged invalid, and assembly goes on.
- An unknown header alone does not set `invalid`.
- A UID file longer than its slot is rejected only when the bytes before the
  slot plus the file exceed 0x1000000.
- Injection is skipped, falling through to removal or a raw copy, when the
  UID block lies before the payload offset.
- An engineering-validation serial (`--ev2`/`--ev3`) in numeric form keeps
  its batch digits only when the five-digit draw is at least 10000. A smaller
  draw is zero-filled on the left, which pushes the batch digits out of
  place (`UidFormat.BatchSerial`).

All rows cite `sys-firmware/jupiter-bios-tool/files/jupiter-bios-tool.py`.

## Model

| member | source | states |
|---|---|---|
| Bytes.Find | sys-firmware/jupiter-bios-tool/files/jupiter-bios-tool.py:457-459 | Python's `bytes.find`: the index returned is an occurrence of the needle and no earlier index is. None means the needle occurs nowhere. Every anchor scan (version, EC, date, offset anchor, `$DMI`) relies on this first-occurrence property. |
| Scanner.DetectVersion | sys-firmware/jupiter-bios-tool/files/jupiter-bios-tool.py:456-468 | The version loop returns the field of the first anchor present, trying F7G then F7A. A negative seek is a fault. |
| Scanner.VersionField | sys-firmware/jupiter-bios-tool/files/jupiter-bios-tool.py:459-465 | For an anchor at i ≥ 0x18, the version is the 7 bytes at i-0x18. The next 3 bytes are appended exactly when they are alphanumeric, so the length is 7 or 10. |
| Scanner.VersionPrefersF7G | sys-firmware/jupiter-bios-tool/files/jupiter-bios-tool.py:456-457 | When the F7G anchor occurs, its field is the version, wherever an F7A anchor sits. |
| Scanner.VersionFallsBackToF7A | sys-firmware/jupiter-bios-tool/files/jupiter-bios-tool.py:456-468 | Without an F7G anchor, the F7A anchor's field is the version. |
| Scanner.NoVersionWithoutAnchors | sys-firmware/jupiter-bios-tool/files/jupiter-bios-tool.py:456-468 | No version is found if and only if neither anchor occurs. |
| Scanner.DetectEc | sys-firmware/jupiter-bios-tool/files/jupiter-bios-tool.py:470-490 | The EC loop over the four patterns gives exactly the specified scan. A bad revision clears it and continues. A bad date clears the date and continues. Both fields valid stops the loop. |
| Scanner.EcFirstAcceptedWins | sys-firmware/jupiter-bios-tool/files/jupiter-bios-tool.py:62-75 | If earlier patterns are all rejected, the first accepted pattern supplies both revision and date, whatever those patterns left behind. |
| Scanner.EcNoneAccepted | sys-firmware/jupiter-bios-tool/files/jupiter-bios-tool.py:478-488 | When every pattern is rejected, the scan succeeds and the EC date stays unset. |
| Scanner.BcdRoundTrip | sys-firmware/jupiter-bios-tool/files/jupiter-bios-tool.py:497 | Every two-digit number packed into BCD is decoded and rendered back as its two decimal digits. |
| Scanner.BcdDigitsDecode | sys-firmware/jupiter-bios-tool/files/jupiter-bios-tool.py:497 | A byte that renders is the BCD encoding of the number it renders. |
| Scanner.BiosDate | sys-firmware/jupiter-bios-tool/files/jupiter-bios-tool.py:491-499 | No date exactly when `$RDATE` is absent. A date is `20YY/MM/DD`: ten characters, digits except the two slashes. `DateTruncated` happens only when fewer than three bytes follow the anchor. Any other fault is `DateNotDecimal` of a byte from after the anchor that has a hex digit a-f. |
| Scanner.BiosDateNotDecimal | sys-firmware/jupiter-bios-tool/files/jupiter-bios-tool.py:497 | With the three date bytes present and the earlier ones decimal, a date byte with a hex digit a-f makes the date fail with `DateNotDecimal` of exactly that byte. |
| Scanner.BiosDateTruncated | sys-firmware/jupiter-bios-tool/files/jupiter-bios-tool.py:495-497 | When the file ends after k < 3 date bytes that are all decimal, the date fails with `DateTruncated`. |
| Scanner.BiosDateOfBcd | sys-firmware/jupiter-bios-tool/files/jupiter-bios-tool.py:491-499 | BCD bytes YY, MM, DD after the first `$RDATE` give the date `20YY/MM/DD`. |
| Layout.HeaderRead | sys-firmware/jupiter-bios-tool/files/jupiter-bios-tool.py:505-511 | The tool's header test, reading as many bytes as the header has at a position and comparing, holds exactly when the header occurs there. |
| Layout.FirstHeaderAt | sys-firmware/jupiter-bios-tool/files/jupiter-bios-tool.py:504-511 | The variant returned has its header at the position and no variant before it in the order does. None means no header in the list sits there. |
| Layout.ClassifyHeader | sys-firmware/jupiter-bios-tool/files/jupiter-bios-tool.py:500-535 | The header loop yields the classification: `MZ` first, then the F7A header, then F7G. Its last read matches its last header exactly for trimmed images, which is the test that skips offset resolution. |
| Layout.SpecificHeaderFirst | sys-firmware/jupiter-bios-tool/files/jupiter-bios-tool.py:502-504 | An F7A image also carries the F7G header byte, and is still classified F7A. |
| Layout.IndexOfOffset | sys-firmware/jupiter-bios-tool/files/jupiter-bios-tool.py:98-100 | Finds the first table entry with the given offset, or reports that none has it. |
| Layout.DescribeOffset | sys-firmware/jupiter-bios-tool/files/jupiter-bios-tool.py:547-551 | The description loop yields the release text of the first known offset equal to the detected one, or none. |
| Layout.FirstProbe | sys-firmware/jupiter-bios-tool/files/jupiter-bios-tool.py:556-568 | Returns the first known offset, in table order, that carries a board header. None means no known offset carries one. |
| Layout.ProbeOffsets | sys-firmware/jupiter-bios-tool/files/jupiter-bios-tool.py:552-568 | The nested fallback loop takes the first probed offset and clears `invalid`. Otherwise it keeps the default offset, flagged invalid. |
| Layout.ResolveOffset | sys-firmware/jupiter-bios-tool/files/jupiter-bios-tool.py:537-568 | Offset detection gives exactly the specified resolution: the anchor, else the fallback probe. |
| Layout.AnchoredOffset | sys-firmware/jupiter-bios-tool/files/jupiter-bios-tool.py:538-551 | The offset is 0x18 past the first `$_IFLASH_BIOSIMG`, never invalid. It is described exactly when it equals 0xe8c70 or 0x17d050. |
| Layout.FallbackOffset | sys-firmware/jupiter-bios-tool/files/jupiter-bios-tool.py:552-568 | Without the anchor, the offset is 0xe8c70 if a header sits there, else 0x17d050 if one does, else 0xe8c70. It is invalid if and only if neither carries a header, and it is never described. |
| Layout.DetectPayloadOffset | sys-firmware/jupiter-bios-tool/files/jupiter-bios-tool.py:500-568 | The header loop followed by offset detection gives the classification and the payload offset: 0, valid and undescribed for a trimmed image (lines 512 and 537), otherwise the resolved offset. |
| Layout.TrimmedAtZero | sys-firmware/jupiter-bios-tool/files/jupiter-bios-tool.py:504-568 | An image is trimmed exactly when a board header and not `MZ` sits at the front. It then starts at 0, valid. Any other image is resolved, and is invalid exactly when it has no anchor and no known offset carries a header. |
| UidLocator.LocateUid | sys-firmware/jupiter-bios-tool/files/jupiter-bios-tool.py:578-587 | The block starts at the first `$DMI` and begins with it. Its bytes are the image's bytes up to the first sentinel, which lies at the recorded size. With no sentinel, the block runs to the end of the file. |
| UidLocator.NoSentinelInAnchor | sys-firmware/jupiter-bios-tool/files/jupiter-bios-tool.py:584 | No sentinel starts inside the anchor, so a found block is at least four bytes long. |
| UidLocator.NullIffBare | sys-firmware/jupiter-bios-tool/files/jupiter-bios-tool.py:588 | A located block is null (empty, or only `$DMI`) if and only if it is four bytes long. |
| UidLocator.BlockSentinelFree | sys-firmware/jupiter-bios-tool/files/jupiter-bios-tool.py:584-586 | A located block contains no run of four 0xFF bytes. |
| Cursor.SourceFile.Open | sys-firmware/jupiter-bios-tool/files/jupiter-bios-tool.py:451 | Opening the source image puts the cursor at 0 over its contents. |
| Cursor.SourceFile.Seek | sys-firmware/jupiter-bios-tool/files/jupiter-bios-tool.py:609 | An absolute seek sets the cursor. |
| Cursor.SourceFile.SeekRelative | sys-firmware/jupiter-bios-tool/files/jupiter-bios-tool.py:619 | A relative seek moves the cursor by the delta, and fails exactly when the target would be before the start. |
| Cursor.SourceFile.Read | sys-firmware/jupiter-bios-tool/files/jupiter-bios-tool.py:617 | Returns the bytes Python 3 returns: short reads at the end, and everything to the end for -1. The cursor advances by what was read. |
| Assembler.Padded | sys-firmware/jupiter-bios-tool/files/jupiter-bios-tool.py:611-614 | The UID file is kept as a prefix and 0xFF-padded to exactly the slot size when the slot is longer. Otherwise the file is kept whole. |
| Assembler.Checked | sys-firmware/jupiter-bios-tool/files/jupiter-bios-tool.py:643-652 | An image passes if and only if it is exactly 0x1000000 bytes, and then it is unchanged. |
| Assembler.Assemble | sys-firmware/jupiter-bios-tool/files/jupiter-bios-tool.py:608-641 | Every successfully assembled image is exactly 0x1000000 bytes. |
| Assembler.AssembleImage | sys-firmware/jupiter-bios-tool/files/jupiter-bios-tool.py:608-641 | The seek/read steps on the open source file give exactly the specified assembly for inject, remove and raw. |
| Assembler.InjectImage | sys-firmware/jupiter-bios-tool/files/jupiter-bios-tool.py:608-629 | The injection steps (read front, pad, relative seek, read rest, size guard) give exactly the specified assembly. |
| Assembler.RemoveImage | sys-firmware/jupiter-bios-tool/files/jupiter-bios-tool.py:631-637 | The removal steps give exactly the specified assembly, including the faults for negative read lengths and seeks. |
| Assembler.InjectOutcome | sys-firmware/jupiter-bios-tool/files/jupiter-bios-tool.py:617-628 | An injection fails as oversized when the front plus the padded UID exceed 0x1000000. It succeeds if and only if they fit and the source has enough bytes for the rest. |
| Assembler.InjectLayout | sys-firmware/jupiter-bios-tool/files/jupiter-bios-tool.py:609-622 | A fitting injection is the payload up to the slot, the padded UID, then the payload bytes after the padded UID. |
| Assembler.RemoveLayout | sys-firmware/jupiter-bios-tool/files/jupiter-bios-tool.py:631-637 | Removal blanks exactly the slot with 0xFF, and every other byte is the source byte at the same place. |
| Assembler.RemoveWithoutSentinel | sys-firmware/jupiter-bios-tool/files/jupiter-bios-tool.py:633-637 | Removing a block without a sentinel blanks nothing. The seek by -1 repeats the byte before `$DMI` and shifts the rest by one. |
| Assembler.RawCopy | sys-firmware/jupiter-bios-tool/files/jupiter-bios-tool.py:639-641 | Without an applicable UID action, the image is the 0x1000000 bytes from the payload offset. It succeeds if and only if the source holds them. |
| UidGen.UidFile.Create | sys-firmware/jupiter-bios-tool/files/jupiter-bios-tool.py:293 | Opening the UID file for writing leaves it empty. |
| UidGen.UidFile.Write | sys-firmware/jupiter-bios-tool/files/jupiter-bios-tool.py:294 | A write appends its bytes. |
| UidGen.WriteTagCopy | sys-firmware/jupiter-bios-tool/files/jupiter-bios-tool.py:315-319 | The header, fixed part and field writes append one copy of the tag sub-record with the given flag. |
| UidGen.WriteTag | sys-firmware/jupiter-bios-tool/files/jupiter-bios-tool.py:295-323 | The writes append the primary copy then the mirror copy of a tag sub-record. |
| UidGen.WriteAssetTag | sys-firmware/jupiter-bios-tool/files/jupiter-bios-tool.py:295-323 | The asset tag writes append the pair of the asset tag sub-record (`MEB`/`MEC`, letter, field). |
| UidGen.WriteSerialNumber | sys-firmware/jupiter-bios-tool/files/jupiter-bios-tool.py:324-362 | The serial writes append the pair of the serial sub-record (`F`, letter, `AA`/`ZZ`, field). |
| UidGen.WritePair | sys-firmware/jupiter-bios-tool/files/jupiter-bios-tool.py:364-371 | A fixed sub-record's writes append its primary copy then its mirror. |
| UidGen.WritePlaceholders | sys-firmware/jupiter-bios-tool/files/jupiter-bios-tool.py:363-400 | The board's placeholder writes append the rendering of its placeholder sub-records. |
| UidGen.RenderPlaceholders | sys-firmware/jupiter-bios-tool/files/jupiter-bios-tool.py:363-400 | F7A has three placeholder pairs and F7G has four, rendered pair by pair. |
| UidGen.GenerateUid | sys-firmware/jupiter-bios-tool/files/jupiter-bios-tool.py:293-400 | Generation creates a new file holding `$DMI` then the rendered sub-records. |
| UidFormat.NumberFieldValue | sys-firmware/jupiter-bios-tool/files/jupiter-bios-tool.py:304-307 | A chosen number in 0..99999999 becomes exactly 8 decimal digits denoting it. |
| UidFormat.PaddedDecimal | sys-firmware/jupiter-bios-tool/files/jupiter-bios-tool.py:307 | `str(n).zfill(8)` is 8 digits whose value is n. |
| UidFormat.CharsFieldShape | sys-firmware/jupiter-bios-tool/files/jupiter-bios-tool.py:308-314 | The alphanumeric field is 8 upper-case alphanumerics: zeros, then the chosen characters upper-cased. |
| UidFormat.UpperZFill | sys-firmware/jupiter-bios-tool/files/jupiter-bios-tool.py:310-314 | Zero-filling alphanumeric text to 8 and upper-casing keeps its characters, upper-cased, after the zeros. |
| UidFormat.ZFillAlnum | sys-firmware/jupiter-bios-tool/files/jupiter-bios-tool.py:310 | Zero-filling alphanumeric text to 8 puts zeros in front and nothing else. |
| UidFormat.LetterChoice | sys-firmware/jupiter-bios-tool/files/jupiter-bios-tool.py:297-301 | The letter is the upper-cased first letter of an alphabetic override, else the drawn capital. |
| UidFormat.BatchSerial | sys-firmware/jupiter-bios-tool/files/jupiter-bios-tool.py:333-349 | An EV serial is 12 bytes. In alphanumeric form it carries the batch digits at 4..7. In numeric form it does so if and only if the draw is at least 10000. |
| UidFormat.BatchDigits | sys-firmware/jupiter-bios-tool/files/jupiter-bios-tool.py:335-341 | Batch digits plus a draw below 100000, zero-filled to 8, lead with the batch digits if and only if the draw has five digits. |
| UidFormat.BatchChars | sys-firmware/jupiter-bios-tool/files/jupiter-bios-tool.py:344-353 | Batch digits plus five characters fill 8 places, and upper-casing keeps the digits in front. |
| UidFormat.TagWidths | sys-firmware/jupiter-bios-tool/files/jupiter-bios-tool.py:295-362 | With draws in range and overrides of at most 8 characters, the asset tag and serial are 12 bytes each. |
| UidFormat.DeclaredLengths | sys-firmware/jupiter-bios-tool/files/jupiter-bios-tool.py:295-400 | Every generated sub-record's declared length is its 5 header bytes plus its contents. |
| UidFormat.RecordLength | sys-firmware/jupiter-bios-tool/files/jupiter-bios-tool.py:121-122 | A generated UID file is 0x10c bytes for F7G and 0x174 for F7A. |
| UidFormat.ParseRender | sys-firmware/jupiter-bios-tool/files/jupiter-bios-tool.py:293-400 | Sub-records with honest lengths, rendered as pairs, parse back to themselves. |
| UidFormat.RenderParse | sys-firmware/jupiter-bios-tool/files/jupiter-bios-tool.py:293-400 | Whatever parses as pairs has honest lengths and is exactly the rendering of what it parses to. |
| UidFormat.GeneratedUidParses | sys-firmware/jupiter-bios-tool/files/jupiter-bios-tool.py:293-400 | A generated UID file parses back into the sub-records it was generated from. |
| UidFormat.RecordsPlain | sys-firmware/jupiter-bios-tool/files/jupiter-bios-tool.py:295-400 | Every generated sub-record has non-0xFF tags and length and 7-bit contents, so its only 0xFF is the mirror flag. |
| UidFormat.GeneratedUidSentinelFree | sys-firmware/jupiter-bios-tool/files/jupiter-bios-tool.py:293-400 | A generated UID file contains no run of four 0xFF bytes and does not end in 0xFF, whatever the overrides. |
| Reinject.InjectThenLocate | sys-firmware/jupiter-bios-tool/files/jupiter-bios-tool.py:608-629 | Injecting a sentinel-free UID file that fits its slot gives an image whose located block is exactly that file, at the slot's position relative to the payload. |
| ReinjectGenerated.GeneratedInjectThenLocate | sys-firmware/jupiter-bios-tool/files/jupiter-bios-tool.py:405-406 | The generated UID file, injected into a slot at least its board's record size, is located whole in the result and parses back into its sub-records. |

## Left out

- Console output, argument parsing and the banner are not modelled.
- The exits of the input file checks are not modelled (1, 2, 3, 4). Each of
  them stops before the image is read.
- The exit for an existing UID backup file is not modelled (8, lines
  597-601). It stops after classification, offset resolution and UID
  location, and before assembly, so on such a run no image is produced and
  `Assemble` describes nothing the tool writes. Writing the backup file
  itself is not modelled either.
- The exit for an existing destination file is not modelled (11, lines
  675-678). It stops after assembly and before the image is written.
- The exit that reports an invalid image is not modelled (12, lines
  684-692). It is taken after the image is written, exactly when the
  resolved `invalid` flag is set. That flag is modelled by `Layout.PayloadOffset`,
  but the model does not follow it to the exit.
- The exits for a short source (5, lines 426-433) and for an already trimmed
  image that is exactly the flash size (6, lines 518-523) are not modelled.
  Both depend on the file size and on the destination and UID flags, which
  the model does not carry.
- The size-mismatch and oversized-injection exits (10, 9) are not modelled
  as exits. They appear as the `SizeMismatch` and `InjectOversized` results.
- Writing the destination image and the UID backup file is not modelled.
  Only the bytes that would be written are.
- File existence and size queries are not modelled, nor are the release-size
  label loop and the informational tables.
- The unlock utilities and download URLs are not modelled.
- Randomness is not modelled: the values `random.randint` and
  `random.choice` return are parameters, constrained to their ranges.
- Scanner.DetectVersion: the field bytes are kept as bytes. The
  `str(..., 'utf-8')` decode and its UnicodeDecodeError on non-UTF-8 bytes
  are not modelled, and the `isalnum` test on the three-byte suffix
  (line 464) is taken over ASCII only.
- Scanner.DetectEc: likewise, the decode is not modelled, and `isalnum`/
  `isdigit` are taken over ASCII only.
- Assembler.AssembleImage: a UID request on an image without `$DMI` makes
  the script fail with a TypeError, because it compares or subtracts `None`.
  The model states this as the `Serviceable` precondition rather than as a
  result.
- Layout.ResolveOffset: the script's guard against a negative anchored
  offset (exit 7) has no counterpart, because an index plus 0x18 is never
  negative.
- UidFormat.LetterChoice: the letter overrides are taken as ASCII bytes,
  and `isalpha` and `upper` over ASCII only. Python's `isalpha` also accepts
  non-ASCII letters such as `'é'`, whose upper-case form is written as two or
  more UTF-8 bytes. That case is not modelled.
- UidFormat.CharsFieldShape: the character overrides are taken as ASCII
  bytes, and `isalnum` and `upper` over ASCII only. Python's `isalnum` also
  accepts non-ASCII characters such as `'ß'`, whose `upper()` (`'SS'`) or
  UTF-8 encoding lengthens the field beyond eight bytes. That case is not
  modelled.
- UidFormat.TagWidths: for the same reason, the 12-byte tag widths, and with
  them `UidFormat.RecordLength`, are proved for ASCII overrides only. A
  non-ASCII override, even of one character, can make the tags and the record
  longer than 0x10c/0x174 in Python.
- UidGen.GenerateUid: the generated bytes are those of ASCII overrides.
  Non-ASCII letters or alphanumerics in the override constants, their UTF-8
  encoding and a length-changing `upper()` are not modelled.
- UidFormat.TagWidths: the overrides are assumed to be of the types their
  comments name. A `bool` accepted as an `int`, and an override longer than
  eight characters, are outside the length results. Such an override
  lengthens the record beyond 0x10c/0x174.
- UidGen.GenerateUid: the file name checks are not modelled. The `-g`
  default that turns the generated file into the file to inject
  (lines 405-406) appears only as the round trip lemma.
