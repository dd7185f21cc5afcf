/**
 * UTF-8 as Rust's `String` and `str` hold it: the byte type, the well-formed byte sequences
 * (the table of well-formed UTF-8 byte sequences of the Unicode Standard, section 3.9, which is
 * what `std::str::from_utf8` accepts), the encoding of one character (`char::to_string().into_bytes()`)
 * and the character boundaries that `String::drain` insists on.
 */
module Utf8 {

  type byte = x: int | 0 <= x < 0x100

  /** A byte of the form 10xxxxxx, which never starts a character. */
  predicate IsContinuation(b: byte) {
    0x80 <= b < 0xC0
  }

  /** Rust `str::is_char_boundary`: index `k` is the start or the end of the string or falls on a leading byte. */
  predicate IsCharBoundary(s: seq<byte>, k: nat) {
    k == 0 || k == |s| || (k < |s| && !IsContinuation(s[k]))
  }

  /** The length of the well-formed character that starts `s`, or 0 if `s` does not start with one. */
  function FirstCharWidth(s: seq<byte>): (w: nat)
    requires |s| > 0
    ensures w <= 4 && w <= |s|
    ensures w > 0 ==> !IsContinuation(s[0])
    ensures forall j :: 1 <= j < w ==> IsContinuation(s[j])
  {
    var b := s[0];
    if b < 0x80 then 1
    else if 0xC2 <= b <= 0xDF then
      (if |s| >= 2 && IsContinuation(s[1]) then 2 else 0)
    else if b == 0xE0 then
      (if |s| >= 3 && 0xA0 <= s[1] <= 0xBF && IsContinuation(s[2]) then 3 else 0)
    else if 0xE1 <= b <= 0xEC || 0xEE <= b <= 0xEF then
      (if |s| >= 3 && IsContinuation(s[1]) && IsContinuation(s[2]) then 3 else 0)
    else if b == 0xED then
      (if |s| >= 3 && 0x80 <= s[1] <= 0x9F && IsContinuation(s[2]) then 3 else 0)
    else if b == 0xF0 then
      (if |s| >= 4 && 0x90 <= s[1] <= 0xBF && IsContinuation(s[2]) && IsContinuation(s[3]) then 4 else 0)
    else if 0xF1 <= b <= 0xF3 then
      (if |s| >= 4 && IsContinuation(s[1]) && IsContinuation(s[2]) && IsContinuation(s[3]) then 4 else 0)
    else if b == 0xF4 then
      (if |s| >= 4 && 0x80 <= s[1] <= 0x8F && IsContinuation(s[2]) && IsContinuation(s[3]) then 4 else 0)
    else 0
  }

  /** `s` is a sequence of well-formed UTF-8 characters (what `std::str::from_utf8` accepts). */
  predicate Valid(s: seq<byte>)
    decreases |s|
  {
    |s| == 0 || (FirstCharWidth(s) > 0 && Valid(s[FirstCharWidth(s)..]))
  }

  /** The UTF-8 encoding of one Unicode scalar value (`char::to_string().into_bytes()`). */
  function Encode(c: char): (r: seq<byte>)
    ensures 1 <= |r| <= 4 && Valid(r)
    ensures (|r| == 1) == (c as int < 0x80)
    ensures |r| == 1 ==> r[0] == c as int
  {
    var n := c as int;
    if n < 0x80 then [n]
    else if n < 0x800 then EncodeTwo(n)
    else if n < 0x1_0000 then EncodeThree(n)
    else EncodeFour(n)
  }

  /** Two bytes, 110xxxxx 10xxxxxx, for scalar values from 0x80 to 0x7FF. */
  function EncodeTwo(n: int): (r: seq<byte>)
    requires 0x80 <= n < 0x800
    ensures |r| == 2 && Valid(r)
  {
    var r := [0xC0 + n / 0x40, 0x80 + n % 0x40];
    assert FirstCharWidth(r) == 2 && r[2..] == [];
    r
  }

  /** Three bytes, 1110xxxx 10xxxxxx 10xxxxxx, for scalar values from 0x800 to 0xFFFF outside the surrogates. */
  function EncodeThree(n: int): (r: seq<byte>)
    requires 0x800 <= n < 0x1_0000 && !(0xD800 <= n < 0xE000)
    ensures |r| == 3 && Valid(r)
  {
    var r := [0xE0 + n / 0x1000, 0x80 + (n / 0x40) % 0x40, 0x80 + n % 0x40];
    assert FirstCharWidth(r) == 3 && r[3..] == [];
    r
  }

  /** Four bytes, 11110xxx 10xxxxxx 10xxxxxx 10xxxxxx, for scalar values from 0x10000 to 0x10FFFF. */
  function EncodeFour(n: int): (r: seq<byte>)
    requires 0x1_0000 <= n < 0x11_0000
    ensures |r| == 4 && Valid(r)
  {
    var r := [0xF0 + n / 0x4_0000, 0x80 + (n / 0x1000) % 0x40, 0x80 + (n / 0x40) % 0x40, 0x80 + n % 0x40];
    assert FirstCharWidth(r) == 4 && r[4..] == [];
    r
  }

  /** The UTF-8 encoding of a whole string. */
  function EncodeString(s: string): (r: seq<byte>)
    ensures Valid(r)
    decreases |s|
  {
    if |s| == 0 then [] else
      var head := Encode(s[0]);
      var tail := EncodeString(s[1..]);
      ConcatValid(head, tail);
      head + tail
  }

  /** A one-character string encodes as that character. */
  lemma EncodeSingle(c: char)
    ensures EncodeString([c]) == Encode(c)
  {
    assert EncodeString([c]) == Encode(c) + EncodeString([]);
  }

  /** Encoding a concatenation encodes each part in turn. */
  lemma {:induction false} EncodeStringAppend(a: string, b: string)
    ensures EncodeString(a + b) == EncodeString(a) + EncodeString(b)
    decreases |a|
  {
    if |a| > 0 {
      assert (a + b)[1..] == a[1..] + b;
      EncodeStringAppend(a[1..], b);
    } else {
      assert a + b == b;
    }
  }

  /** A well-formed sequence that is not empty starts on a leading byte. */
  lemma ValidStartsOnLeadingByte(s: seq<byte>)
    requires Valid(s) && |s| > 0
    ensures !IsContinuation(s[0])
  {
  }

  /** The width of the first character only depends on that character's own bytes. */
  lemma WidthOfExtension(a: seq<byte>, b: seq<byte>)
    requires |a| > 0 && FirstCharWidth(a) > 0
    ensures FirstCharWidth(a + b) == FirstCharWidth(a)
  {
    var ab := a + b;
    assert forall j :: 0 <= j < |a| ==> ab[j] == a[j];
  }

  /** Concatenating well-formed sequences gives a well-formed sequence. */
  lemma {:induction false} ConcatValid(a: seq<byte>, b: seq<byte>)
    requires Valid(a) && Valid(b)
    ensures Valid(a + b)
    decreases |a|
  {
    if |a| == 0 {
      assert a + b == b;
    } else {
      var w := FirstCharWidth(a);
      var ab := a + b;
      WidthOfExtension(a, b);
      assert ab[w..] == a[w..] + b;
      ConcatValid(a[w..], b);
      assert FirstCharWidth(ab) == w && Valid(ab[w..]);
    }
  }

  /** Cutting a well-formed sequence at a character boundary leaves a well-formed tail. */
  lemma {:induction false} SuffixAtBoundaryValid(s: seq<byte>, k: nat)
    requires Valid(s) && k <= |s| && IsCharBoundary(s, k)
    ensures Valid(s[k..])
    decreases |s|
  {
    if k == 0 {
      assert s[k..] == s;
    } else if k < |s| {
      var w := FirstCharWidth(s);
      var t := s[w..];
      BoundaryInRest(s, k);
      SuffixAtBoundaryValid(t, k - w);
      assert t[k - w..] == s[k..];
    }
  }

  /** A boundary inside a well-formed sequence lies at or after the end of its first character. */
  lemma BoundaryInRest(s: seq<byte>, k: nat)
    requires Valid(s) && 0 < k < |s| && IsCharBoundary(s, k)
    ensures FirstCharWidth(s) <= k && Valid(s[FirstCharWidth(s)..])
    ensures IsCharBoundary(s[FirstCharWidth(s)..], k - FirstCharWidth(s))
  {
    var w := FirstCharWidth(s);
    assert !IsContinuation(s[k]);
    if k - w > 0 {
      assert s[w..][k - w] == s[k];
    }
  }

  /** Every byte below 0x80 is a character of its own. */
  lemma {:induction false} AsciiValid(s: seq<byte>)
    requires forall j :: 0 <= j < |s| ==> s[j] < 0x80
    ensures Valid(s)
    decreases |s|
  {
    if |s| > 0 {
      AsciiValid(s[1..]);
    }
  }

  /** A sequence that ends on a leading byte of a multi-byte character has been cut inside that character. */
  lemma {:induction false} CutCharacterInvalid(s: seq<byte>)
    requires |s| > 0 && s[|s| - 1] >= 0xC0
    ensures !Valid(s)
    decreases |s|
  {
    if Valid(s) {
      var w := FirstCharWidth(s);
      if w < |s| {
        var t := s[w..];
        assert t[|t| - 1] == s[|s| - 1];
        CutCharacterInvalid(t);
      }
    }
  }

  /** The first character boundary at or after index `k`. */
  function NextBoundary(s: seq<byte>, k: nat): (j: nat)
    requires k <= |s|
    ensures k <= j <= |s| && IsCharBoundary(s, j)
    ensures forall m :: k <= m < j ==> 0 < m < |s| && IsContinuation(s[m])
    decreases |s| - k
  {
    if IsCharBoundary(s, k) then k else NextBoundary(s, k + 1)
  }

  /** In a well-formed sequence the end of the first character is a character boundary. */
  lemma FirstCharEndsAtBoundary(s: seq<byte>)
    requires Valid(s) && |s| > 0
    ensures IsCharBoundary(s, FirstCharWidth(s))
  {
    var w := FirstCharWidth(s);
    if w < |s| {
      ValidStartsOnLeadingByte(s[w..]);
    }
  }

  /** A boundary of the rest after the first character is a boundary of the whole. */
  lemma BoundaryOfRest(s: seq<byte>, j: nat)
    requires Valid(s) && |s| > 0
    requires j <= |s| - FirstCharWidth(s) && IsCharBoundary(s[FirstCharWidth(s)..], j)
    ensures IsCharBoundary(s, j + FirstCharWidth(s))
  {
    var w := FirstCharWidth(s);
    if j == 0 {
      FirstCharEndsAtBoundary(s);
    } else if j < |s| - w {
      assert s[j + w] == s[w..][j];
    }
  }

  /** In a well-formed sequence a character boundary lies within three bytes after any index. */
  lemma {:induction false} BoundaryNearby(s: seq<byte>, k: nat)
    requires Valid(s) && k <= |s|
    ensures NextBoundary(s, k) <= k + 3
    decreases |s|
  {
    if k > 0 && k < |s| {
      if k < FirstCharWidth(s) {
        NearbyInFirstChar(s, k);
      } else {
        BoundaryNearby(s[FirstCharWidth(s)..], k - FirstCharWidth(s));
        NearbyInRest(s, k);
      }
    }
  }

  /** Inside the first character, its end is a boundary within three bytes. */
  lemma NearbyInFirstChar(s: seq<byte>, k: nat)
    requires Valid(s) && 0 < k < |s| && k < FirstCharWidth(s)
    ensures NextBoundary(s, k) <= k + 3
  {
    FirstCharEndsAtBoundary(s);
    BoundaryIsAfterNext(s, k, FirstCharWidth(s));
  }

  /** Past the first character, a nearby boundary of the rest is a nearby boundary of the whole. */
  lemma NearbyInRest(s: seq<byte>, k: nat)
    requires Valid(s) && 0 < k < |s| && FirstCharWidth(s) <= k
    requires NextBoundary(s[FirstCharWidth(s)..], k - FirstCharWidth(s)) <= k - FirstCharWidth(s) + 3
    ensures NextBoundary(s, k) <= k + 3
  {
    var w := FirstCharWidth(s);
    var j := NextBoundary(s[w..], k - w);
    BoundaryOfRest(s, j);
    BoundaryIsAfterNext(s, k, j + w);
  }

  /** `NextBoundary` is the least boundary at or after `k`. */
  lemma BoundaryIsAfterNext(s: seq<byte>, k: nat, b: nat)
    requires k <= b <= |s| && IsCharBoundary(s, b)
    ensures NextBoundary(s, k) <= b
  {
  }
}
