/**
 * Searching, splitting and joining sequences: the parts of Rust's `str` and Python's `str`
 * that the model relies on (`find`, `contains`, `starts_with`, `split`, `join`, `lines`),
 * written once over any element type so that bytes and characters share them.
 */
module Text {
  import opened Wrappers

  /** `pat` occurs in `s` starting at index `i`. */
  predicate OccursAt<T(==)>(s: seq<T>, pat: seq<T>, i: int) {
    0 <= i && i + |pat| <= |s| && s[i..i + |pat|] == pat
  }

  /** `pat` is a contiguous part of `s` (Rust `contains`, Python `in`). */
  ghost predicate Contains<T>(s: seq<T>, pat: seq<T>) {
    exists i :: OccursAt(s, pat, i)
  }

  predicate StartsWith<T(==)>(s: seq<T>, prefix: seq<T>) {
    |prefix| <= |s| && s[..|prefix|] == prefix
  }

  predicate EndsWith<T(==)>(s: seq<T>, suffix: seq<T>) {
    |suffix| <= |s| && s[|s| - |suffix|..] == suffix
  }

  /** First occurrence of `pat` at or after index `k`. */
  function IndexFrom<T(==)>(s: seq<T>, pat: seq<T>, k: nat): (r: Option<nat>)
    ensures r.Some? ==> k <= r.value && OccursAt(s, pat, r.value)
    ensures forall j :: k <= j && (r.None? || j < r.value) ==> !OccursAt(s, pat, j)
    decreases |s| - k
  {
    if k + |pat| > |s| then None
    else if s[k..k + |pat|] == pat then Some(k)
    else IndexFrom(s, pat, k + 1)
  }

  /** Rust `str::find` with a string pattern: the first index where `pat` occurs. */
  function IndexOf<T(==)>(s: seq<T>, pat: seq<T>): (r: Option<nat>)
    ensures r.None? ==> forall j :: !OccursAt(s, pat, j)
    ensures r.Some? ==> OccursAt(s, pat, r.value)
    ensures r.Some? ==> forall j :: 0 <= j < r.value ==> !OccursAt(s, pat, j)
  {
    IndexFrom(s, pat, 0)
  }

  /** `IndexOf` finds something exactly when the pattern occurs. */
  lemma IndexOfContains<T>(s: seq<T>, pat: seq<T>)
    ensures IndexOf(s, pat).Some? <==> Contains(s, pat)
  {
  }

  /** An occurrence with none before it is the one `IndexOf` finds. */
  lemma IndexOfAt<T>(s: seq<T>, pat: seq<T>, i: nat)
    requires OccursAt(s, pat, i)
    requires forall j :: 0 <= j < i ==> !OccursAt(s, pat, j)
    ensures IndexOf(s, pat) == Some(i)
  {
  }

  /** An element with no equal element before it is the one `FirstIndexOf` finds. */
  lemma FirstIndexOfAt<T>(s: seq<T>, x: T, i: nat)
    requires i < |s| && s[i] == x && x !in s[..i]
    ensures FirstIndexOf(s, x) == Some(i)
  {
    var r := FirstIndexOf(s, x).value;
    assert forall k :: 0 <= k < i ==> s[k] in s[..i];
    assert forall k :: 0 <= k < r ==> s[k] in s[..r];
  }

  /** Rust `str::find` with a single character: the first index holding `x`. */
  function FirstIndexOf<T(==)>(s: seq<T>, x: T): (r: Option<nat>)
    ensures r.None? <==> x !in s
    ensures r.Some? ==> r.value < |s| && s[r.value] == x && x !in s[..r.value]
  {
    if |s| == 0 then None
    else if s[0] == x then Some(0)
    else
      var r := FirstIndexOf(s[1..], x);
      match r
      case None => None
      case Some(i) => assert s[..i + 1] == [s[0]] + s[1..][..i]; Some(i + 1)
  }

  /** Python `str.split(sep)` for a one-element separator: never empty, one part more than separators. */
  function Split<T(==)>(s: seq<T>, sep: T): (r: seq<seq<T>>)
    ensures |r| > 0
    ensures forall k :: 0 <= k < |r| ==> sep !in r[k]
    decreases |s|
  {
    match FirstIndexOf(s, sep)
    case None => [s]
    case Some(i) => [s[..i]] + Split(s[i + 1..], sep)
  }

  /** Python `sep.join(parts)` for a one-element separator. */
  function Join<T>(parts: seq<seq<T>>, sep: T): seq<T>
    decreases |parts|
  {
    if |parts| == 0 then []
    else if |parts| == 1 then parts[0]
    else parts[0] + [sep] + Join(parts[1..], sep)
  }

  /** Joining the parts of a split gives back the original sequence. */
  lemma {:induction false} JoinSplit<T>(s: seq<T>, sep: T)
    ensures Join(Split(s, sep), sep) == s
    decreases |s|
  {
    match FirstIndexOf(s, sep)
    case None =>
    case Some(i) =>
      JoinSplit(s[i + 1..], sep);
      assert s == s[..i] + [sep] + s[i + 1..];
  }

  /** A split stops at the first separator. */
  lemma SplitAtFirst<T>(a: seq<T>, sep: T, b: seq<T>)
    requires sep !in a
    ensures Split(a + [sep] + b, sep) == [a] + Split(b, sep)
  {
    var s := a + [sep] + b;
    assert s[..|a|] == a;
    FirstIndexOfAt(s, sep, |a|);
    assert s[|a| + 1..] == b;
  }

  /** Splitting a join gives back the parts, provided no part holds the separator. */
  lemma {:induction false} SplitJoin<T>(parts: seq<seq<T>>, sep: T)
    requires |parts| > 0
    requires forall k :: 0 <= k < |parts| ==> sep !in parts[k]
    ensures Split(Join(parts, sep), sep) == parts
    decreases |parts|
  {
    if |parts| > 1 {
      var rest := Join(parts[1..], sep);
      assert Join(parts, sep) == parts[0] + [sep] + rest;
      SplitAtFirst(parts[0], sep, rest);
      SplitJoin(parts[1..], sep);
      assert parts == [parts[0]] + parts[1..];
    }
  }

  /** Concatenation is associative; stated once so that loops can cite it instead of rediscovering it. */
  lemma AppendAssociates<T>(a: seq<T>, b: seq<T>, c: seq<T>)
    ensures a + b + c == a + (b + c)
  {
  }

  /** `a + b` starts with `a`, and what follows it is `b`. */
  lemma AppendParts<T>(a: seq<T>, b: seq<T>)
    ensures StartsWith(a + b, a) && (a + b)[|a|..] == b
  {
    assert (a + b)[..|a|] == a;
  }

  lemma AppendNothing<T>(a: seq<T>)
    ensures a + [] == a
  {
  }

  /** `s` without one trailing `x`, if it ends with one. */
  function DropTrailing<T(==)>(s: seq<T>, x: T): (r: seq<T>)
    ensures r == s || (s == r + [x])
  {
    if |s| > 0 && s[|s| - 1] == x then s[..|s| - 1] else s
  }

  /**
   * Rust `str::lines` over a line-feed element `nl` and a carriage-return element `cr`:
   * lines end at `nl`, a `cr` just before that `nl` is dropped, the final line ending is
   * optional and an empty input has no lines.
   */
  function Lines<T(==)>(s: seq<T>, nl: T, cr: T): seq<seq<T>>
    decreases |s|
  {
    if |s| == 0 then []
    else
      match FirstIndexOf(s, nl)
      case None => [s]
      case Some(i) => [DropTrailing(s[..i], cr)] + Lines(s[i + 1..], nl, cr)
  }

  /** Cutting `s` just after the first `x` removes exactly one `x`. */
  lemma CountAfterFirst<T>(s: seq<T>, x: T, i: nat)
    requires i < |s| && s[i] == x && x !in s[..i]
    ensures multiset(s)[x] == 1 + multiset(s[i + 1..])[x]
  {
    assert s == s[..i] + [x] + s[i + 1..];
    assert multiset(s[..i])[x] == 0;
  }

  /** After the first line feed the lines go on with those of the rest. */
  lemma LinesStep<T>(s: seq<T>, nl: T, cr: T, i: nat)
    requires |s| > 0 && FirstIndexOf(s, nl) == Some(i)
    ensures Lines(s, nl, cr) == [DropTrailing(s[..i], cr)] + Lines(s[i + 1..], nl, cr)
  {
  }

  /** Cutting after a line feed keeps whether the text ends unterminated. */
  lemma EndAfterCut<T>(s: seq<T>, nl: T, i: nat)
    requires i < |s| && s[i] == nl
    ensures (|s[i + 1..]| > 0 && s[i + 1..][|s[i + 1..]| - 1] != nl) == (s[|s| - 1] != nl)
  {
    if i + 1 < |s| {
      assert s[i + 1..][|s[i + 1..]| - 1] == s[|s| - 1];
    }
  }

  /** The number of lines is the number of line feeds, plus one for an unterminated last line. */
  lemma {:induction false} LinesCount<T>(s: seq<T>, nl: T, cr: T)
    ensures |Lines(s, nl, cr)| == multiset(s)[nl] + (if |s| > 0 && s[|s| - 1] != nl then 1 else 0)
    decreases |s|
  {
    if |s| > 0 {
      match FirstIndexOf(s, nl)
      case None =>
        assert multiset(s)[nl] == 0;
      case Some(i) =>
        LinesStep(s, nl, cr, i);
        LinesCount(s[i + 1..], nl, cr);
        CountAfterFirst(s, nl, i);
        EndAfterCut(s, nl, i);
    }
  }

  /** A suffix of a suffix of `s` is a suffix of `s`. */
  lemma EndsWithOfSuffix<T>(s: seq<T>, k: nat, r: seq<T>)
    requires k <= |s| && EndsWith(s[k..], r)
    ensures EndsWith(s, r)
  {
    assert s[|s| - |r|..] == s[k..][|s[k..]| - |r|..];
  }

  /** What follows the last `x` in `s`, or all of `s` when it has none. */
  function AfterLast<T(==)>(s: seq<T>, x: T): (r: seq<T>)
    ensures x !in r
    ensures EndsWith(s, r)
    decreases |s|
  {
    match FirstIndexOf(s, x)
    case None => assert s[|s| - |s|..] == s; s
    case Some(i) =>
      var r := AfterLast(s[i + 1..], x);
      EndsWithOfSuffix(s, i + 1, r);
      r
  }

  /** The last of the lines of a text that does not end in a line feed is what follows its last line feed. */
  lemma {:induction false} LastLineAfterLastNewline<T>(s: seq<T>, nl: T, cr: T)
    requires |s| > 0 && s[|s| - 1] != nl
    ensures |Lines(s, nl, cr)| > 0
    ensures Lines(s, nl, cr)[|Lines(s, nl, cr)| - 1] == AfterLast(s, nl)
    decreases |s|
  {
    match FirstIndexOf(s, nl)
    case None =>
      assert Lines(s, nl, cr) == [s];
      assert AfterLast(s, nl) == s;
    case Some(i) =>
      var rest := s[i + 1..];
      EndAfterCut(s, nl, i);
      LinesStep(s, nl, cr, i);
      AfterLastStep(s, nl, i);
      LastLineAfterLastNewline(rest, nl, cr);
      var m := Lines(rest, nl, cr);
      var all := [DropTrailing(s[..i], cr)] + m;
      assert all[|all| - 1] == m[|m| - 1];
  }

  /** What follows the last `x` is unchanged by cutting up to the first one. */
  lemma AfterLastStep<T>(s: seq<T>, x: T, i: nat)
    requires FirstIndexOf(s, x) == Some(i)
    ensures AfterLast(s, x) == AfterLast(s[i + 1..], x)
  {
  }

  /** An ending that holds no `x` survives cutting up to the last `x`. */
  lemma {:induction false} AfterLastKeepsEnding<T>(s: seq<T>, x: T, e: seq<T>)
    requires EndsWith(s, e) && x !in e
    ensures EndsWith(AfterLast(s, x), e)
    decreases |s|
  {
    match FirstIndexOf(s, x)
    case None =>
    case Some(i) =>
      forall j | |s| - |e| <= j < |s| ensures s[j] != x {
        assert s[j] == s[|s| - |e|..][j - (|s| - |e|)];
      }
      assert s[i + 1..][|s[i + 1..]| - |e|..] == s[|s| - |e|..];
      AfterLastKeepsEnding(s[i + 1..], x, e);
  }

  /** An element absent from `s` is absent from every slice of it. */
  lemma AbsentFromSlice<T>(s: seq<T>, x: T, i: nat, j: nat)
    requires x !in s && i <= j <= |s|
    ensures x !in s[i..j]
  {
    forall k | 0 <= k < j - i ensures s[i..j][k] != x {
      assert s[i..j][k] == s[i + k];
    }
  }

  /** A pattern whose first element is nowhere in `s` does not occur in it. */
  lemma NotContainedWithoutFirst<T>(s: seq<T>, pat: seq<T>)
    requires |pat| > 0 && pat[0] !in s
    ensures !Contains(s, pat)
  {
    forall i | 0 <= i && i + |pat| <= |s| ensures !OccursAt(s, pat, i) {
      assert s[i..i + |pat|][0] == s[i];
    }
  }

  /** Each element's results, concatenated in order (Python `[y for x in s for y in f(x)]`). */
  function FlatMap<T, U>(s: seq<T>, f: T -> seq<U>): seq<U>
    decreases |s|
  {
    if |s| == 0 then [] else f(s[0]) + FlatMap(s[1..], f)
  }

  /** `FlatMap` of two blocks is the two results in order. */
  lemma {:induction false} FlatMapAppend<T, U>(a: seq<T>, b: seq<T>, f: T -> seq<U>)
    ensures FlatMap(a + b, f) == FlatMap(a, f) + FlatMap(b, f)
    decreases |a|
  {
    if |a| == 0 {
      assert a + b == b;
    } else {
      var ab := a + b;
      assert ab[0] == a[0] && ab[1..] == a[1..] + b;
      FlatMapAppend(a[1..], b, f);
      AppendAssociates(f(a[0]), FlatMap(a[1..], f), FlatMap(b, f));
    }
  }

  /** One more element adds its own results at the end. */
  lemma FlatMapStep<T, U>(s: seq<T>, i: nat, f: T -> seq<U>)
    requires i < |s|
    ensures FlatMap(s[..i + 1], f) == FlatMap(s[..i], f) + f(s[i])
  {
    FlatMapAppend(s[..i], [s[i]], f);
    assert s[..i + 1] == s[..i] + [s[i]];
    assert FlatMap([s[i]], f) == f(s[i]) + FlatMap([s[i]][1..], f);
    assert [s[i]][1..] == [];
  }

  /** The last `n` elements of `s`, or all of it (Python `s[-n:]`). */
  function LastN<T(==)>(s: seq<T>, n: nat): (r: seq<T>)
    ensures |r| == if |s| < n then |s| else n
    ensures EndsWith(s, r)
  {
    if |s| <= n then s else s[|s| - n..]
  }
}
