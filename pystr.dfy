/**
 * The Python `str` methods the agent service relies on, over `seq<char>`: `isspace`, `strip()`
 * with no argument, and `lower()` (for the Latin-1 letters; see the README for the rest).
 */
module PyStr {

  /** Python `str.isspace` for one character: the characters CPython treats as whitespace. */
  predicate IsSpace(c: char) {
    || c == ' ' || c == '\t' || c == '\n' || c == '\r' || c == '\U{0B}' || c == '\U{0C}'
    || ('\U{1C}' <= c <= '\U{1F}') || c == '\U{85}' || c == '\U{A0}' || c == '\U{1680}'
    || ('\U{2000}' <= c <= '\U{200A}') || c == '\U{2028}' || c == '\U{2029}' || c == '\U{202F}'
    || c == '\U{205F}' || c == '\U{3000}'
  }

  /** The index of the first character that is not whitespace, or `|s|`. */
  function FirstNonSpace(s: string): (i: nat)
    ensures i <= |s|
    ensures forall k :: 0 <= k < i ==> IsSpace(s[k])
    ensures i < |s| ==> !IsSpace(s[i])
    decreases |s|
  {
    if |s| == 0 || !IsSpace(s[0]) then 0 else 1 + FirstNonSpace(s[1..])
  }

  /** One past the index of the last character that is not whitespace, or 0. */
  function EndOfNonSpace(s: string): (j: nat)
    ensures j <= |s|
    ensures forall k :: j <= k < |s| ==> IsSpace(s[k])
    ensures j > 0 ==> !IsSpace(s[j - 1])
    decreases |s|
  {
    if |s| == 0 || !IsSpace(s[|s| - 1]) then |s| else EndOfNonSpace(s[..|s| - 1])
  }

  /** Python `str.strip()`: the part of `s` between its leading and its trailing whitespace. */
  function Strip(s: string): (r: string)
    ensures |r| <= |s|
    ensures |r| > 0 ==> !IsSpace(r[0]) && !IsSpace(r[|r| - 1])
  {
    var i := FirstNonSpace(s);
    var j := EndOfNonSpace(s);
    if j <= i then [] else s[i..j]
  }

  /** What `Strip` keeps is a slice of `s`, and all it cuts is whitespace. */
  lemma StripCutsOnlySpace(s: string)
    ensures exists i, j :: (0 <= i <= j <= |s| && Strip(s) == s[i..j]
      && (forall k :: 0 <= k < i ==> IsSpace(s[k])) && (forall k :: j <= k < |s| ==> IsSpace(s[k])))
  {
    var i := FirstNonSpace(s);
    var j := EndOfNonSpace(s);
    if j <= i {
      forall k | i <= k < |s| ensures IsSpace(s[k]) {
        assert j <= k;
      }
      assert s[|s|..|s|] == [];
    } else {
      assert Strip(s) == s[i..j];
    }
  }

  /** A string that is all whitespace strips to nothing, and only such a string does. */
  lemma StripEmpty(s: string)
    ensures |Strip(s)| == 0 <==> forall k :: 0 <= k < |s| ==> IsSpace(s[k])
  {
    var i := FirstNonSpace(s);
    var j := EndOfNonSpace(s);
    if j > i {
      assert !IsSpace(s[i]);
    }
  }

  /** Stripping twice strips nothing more. */
  lemma StripIdempotent(s: string)
    ensures Strip(Strip(s)) == Strip(s)
  {
    var r := Strip(s);
    if |r| > 0 {
      assert FirstNonSpace(r) == 0;
      assert EndOfNonSpace(r) == |r|;
      assert r[0..|r|] == r;
    }
  }

  /** Python `str.lower` for one character: upper-case Latin-1 letters become lower-case. */
  function LowerChar(c: char): (d: char)
    ensures 'A' <= c <= 'Z' ==> d as int == c as int + 32
    ensures !('A' <= c <= 'Z') && c as int < 0xC0 ==> d == c
  {
    if 'A' <= c <= 'Z' || ('\U{C0}' <= c <= '\U{DE}' && c != '\U{D7}') then (c as int + 32) as char else c
  }

  /** Python `str.lower`, character by character. */
  function Lower(s: string): (r: string)
    ensures |r| == |s|
    ensures forall k :: 0 <= k < |s| ==> r[k] == LowerChar(s[k])
  {
    seq(|s|, k requires 0 <= k < |s| => LowerChar(s[k]))
  }

  /** Lowering a lowered string changes nothing. */
  lemma LowerIdempotent(s: string)
    ensures Lower(Lower(s)) == Lower(s)
  {
    assert forall k :: 0 <= k < |s| ==> LowerChar(LowerChar(s[k])) == LowerChar(s[k]);
  }
}
