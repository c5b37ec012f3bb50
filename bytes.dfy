/** Byte buffers as the BIOS tool sees them: an image is an immutable sequence
    of bytes, searched with Python's `bytes.find` and read through a file
    object with Python 3's `read(n)`. The faults the tool raises or exits with
    are collected here, since every stage can produce one. */
module Bytes {

  newtype byte = b: int | 0 <= b < 0x100

  datatype Option<+T> = None | Some(value: T)

  /** Every way a run of the tool ends other than with a result: an exception
      Python raises, or one of the tool's own `abort!` exits. */
  datatype Fault =
    | NegativeSeek(position: int)     // `seek` to a position before the file start
    | BadReadLength(count: int)       // `read(n)` with n < -1 is a ValueError
    | DateTruncated                   // fewer than three date bytes (IndexError)
    | DateNotDecimal(digits: byte)    // a date byte with a hex digit a-f (ValueError)
    | InjectOversized(length: nat)    // exit 9: prefix plus UID exceed the flash size
    | SizeMismatch(length: nat)       // exit 10: assembled image has the wrong size

  datatype Result<+T> = Ok(value: T) | Err(fault: Fault) {
    predicate IsFailure() { Err? }
    function PropagateFailure<U>(): Result<U> requires Err? { Err(fault) }
    function Extract(): T requires Ok? { value }
  }

  function Min(a: int, b: int): int { if a < b then a else b }

  /** The bytes of an ASCII string, as `bytes(s, 'utf-8')` encodes it. */
  function Ascii(s: string): (r: seq<byte>)
    requires forall i :: 0 <= i < |s| ==> s[i] as int < 0x80
    ensures |r| == |s|
    ensures forall i :: 0 <= i < |s| ==> r[i] as int == s[i] as int && r[i] < 0x80
  {
    seq(|s|, i requires 0 <= i < |s| => s[i] as int as byte)
  }

  /** `n` bytes of 0xFF, Python's `b'\xff' * n`. */
  function Fill(n: nat): (r: seq<byte>)
    ensures |r| == n && forall i :: 0 <= i < n ==> r[i] == 0xFF
  {
    seq(n, _ => 0xFF)
  }

  /** `needle` occurs in `data` starting at index `i`. */
  predicate OccursAt(data: seq<byte>, needle: seq<byte>, i: int) {
    0 <= i && i + |needle| <= |data| && data[i..i + |needle|] == needle
  }

  function FindFrom(data: seq<byte>, needle: seq<byte>, from: nat): (r: Option<nat>)
    decreases |data| - from
    ensures r.Some? ==> from <= r.value && OccursAt(data, needle, r.value)
    ensures r.Some? ==> forall j :: from <= j < r.value ==> !OccursAt(data, needle, j)
    ensures r.None? ==> forall j :: from <= j ==> !OccursAt(data, needle, j)
  {
    if from + |needle| > |data| then None
    else if data[from..from + |needle|] == needle then Some(from)
    else FindFrom(data, needle, from + 1)
  }

  /** Python's `data.find(needle)`: the first index at which `needle` occurs,
      and None where Python answers -1. */
  function Find(data: seq<byte>, needle: seq<byte>): (r: Option<nat>)
    ensures r.Some? ==> OccursAt(data, needle, r.value)
    ensures r.Some? ==> forall j :: 0 <= j < r.value ==> !OccursAt(data, needle, j)
    ensures r.None? ==> forall j :: !OccursAt(data, needle, j)
  {
    FindFrom(data, needle, 0)
  }

  /** An occurrence in a suffix is an occurrence in the whole, shifted. */
  lemma OccursInSuffix(data: seq<byte>, needle: seq<byte>, s: nat, j: nat)
    requires s <= |data|
    ensures OccursAt(data[s..], needle, j) <==> OccursAt(data, needle, s + j)
  {
    if j + |needle| <= |data| - s {
      assert data[s..][j..j + |needle|] == data[s + j..s + j + |needle|];
    }
  }

  /** What Python 3's `read(n)` returns from a binary file positioned at `pos`:
      at most `n` bytes, fewer at the end of the file, and everything up to
      the end for n == -1. Seeking past the end is allowed and reads nothing. */
  function ReadAt(data: seq<byte>, pos: nat, n: int): (r: seq<byte>)
    requires n >= -1
    ensures pos + |r| <= |data| || r == []
    ensures r == data[Min(pos, |data|)..Min(pos, |data|) + |r|]
    ensures n >= 0 ==> |r| <= n
    ensures n >= 0 && pos + n <= |data| ==> |r| == n
    ensures n == -1 || pos + n >= |data| ==> |r| == if pos < |data| then |data| - pos else 0
  {
    if pos >= |data| then []
    else if n == -1 then data[pos..]
    else data[pos..Min(pos + n, |data|)]
  }

  /** Python's slice `s[lo:hi]` for non-negative bounds, which clamps both. */
  function Slice(s: seq<byte>, lo: nat, hi: nat): (r: seq<byte>)
    ensures hi <= |s| && lo <= hi ==> r == s[lo..hi]
    ensures |r| <= if hi <= |s| then hi else |s|
  {
    var a := Min(lo, |s|);
    var b := Min(hi, |s|);
    if a <= b then s[a..b] else []
  }

  predicate IsDigit(b: byte) { 0x30 <= b <= 0x39 }
  predicate IsLetter(b: byte) { 0x41 <= b <= 0x5A || 0x61 <= b <= 0x7A }
  predicate IsAlnum(b: byte) { IsDigit(b) || IsLetter(b) }

  /** `str.isalnum()` on ASCII text: non-empty and only letters and digits. */
  predicate AllAlnum(s: seq<byte>) {
    |s| > 0 && forall i :: 0 <= i < |s| ==> IsAlnum(s[i])
  }

  /** `str.isdigit()` on ASCII text: non-empty and only digits. */
  predicate AllDigits(s: seq<byte>) {
    |s| > 0 && forall i :: 0 <= i < |s| ==> IsDigit(s[i])
  }
}
