/** The Python string primitives the pipeline relies on: `str.strip()`,
    `str.split(sep)`, `sep.join(parts)`, `sep in s` and the first-occurrence search
    behind `split(sep, 1)` and `split(token)[0]`. */
module Text {
  import opened Wrappers

  /** The code points Python's `str.isspace()` accepts, which `str.strip()`
      with no argument removes: tab to carriage return, the four information
      separators and space, NEL, no-break space, the Ogham space mark, the
      en quad to hair space block, the line and paragraph separators, the
      narrow no-break and medium mathematical spaces, and the ideographic space. */
  const SpaceCodes: set<int> := {
    9, 10, 11, 12, 13, 0x1c, 0x1d, 0x1e, 0x1f, 0x20, 0x85, 0xa0, 0x1680,
    0x2000, 0x2001, 0x2002, 0x2003, 0x2004, 0x2005, 0x2006, 0x2007, 0x2008, 0x2009, 0x200a,
    0x2028, 0x2029, 0x202f, 0x205f, 0x3000 }

  /** `c.isspace()`. */
  predicate IsSpace(c: char) {
    c as int in SpaceCodes
  }

  /** Neither end of `s` is whitespace (vacuously true of the empty string). */
  predicate IsTrimmed(s: string) {
    |s| == 0 || (!IsSpace(s[0]) && !IsSpace(s[|s| - 1]))
  }

  /** `str.strip()` with no argument: whitespace is dropped from the front
      and from the back until neither end is whitespace. */
  function Strip(s: string): (r: string)
    ensures IsTrimmed(r)
    ensures |r| <= |s|
    decreases |s|
  {
    if |s| > 0 && IsSpace(s[0]) then Strip(s[1..])
    else if |s| > 0 && IsSpace(s[|s| - 1]) then Strip(s[..|s| - 1])
    else s
  }

  /** `s[i..j]` is `s` with whitespace removed at both ends. */
  ghost predicate StripsTo(s: string, i: int, j: int) {
    && 0 <= i <= j <= |s|
    && (forall k :: 0 <= k < i ==> IsSpace(s[k]))
    && (forall k :: j <= k < |s| ==> IsSpace(s[k]))
    && (i < j ==> !IsSpace(s[i]) && !IsSpace(s[j - 1]))
  }

  /** The reference reading of `strip()`: whenever `s` is a trimmed core
      surrounded by whitespace, `Strip` returns exactly that core. */
  lemma {:induction false} StripUnique(s: string, i: int, j: int)
    requires StripsTo(s, i, j)
    ensures Strip(s) == s[i..j]
    decreases |s|
  {
    if |s| > 0 && IsSpace(s[0]) {
      var t := s[1..];
      if i > 0 {
        assert StripsTo(t, i - 1, j - 1) by {
          forall k | 0 <= k < i - 1 ensures IsSpace(t[k]) { assert t[k] == s[k + 1]; }
          forall k | j - 1 <= k < |t| ensures IsSpace(t[k]) { assert t[k] == s[k + 1]; }
        }
        StripUnique(t, i - 1, j - 1);
        assert t[i - 1..j - 1] == s[i..j];
      } else {
        assert StripsTo(t, 0, 0) by {
          forall k | 0 <= k < |t| ensures IsSpace(t[k]) { assert t[k] == s[k + 1]; }
        }
        StripUnique(t, 0, 0);
      }
    } else if |s| > 0 && IsSpace(s[|s| - 1]) {
      var t := s[..|s| - 1];
      assert StripsTo(t, i, j) by {
        forall k | j <= k < |t| ensures IsSpace(t[k]) { assert t[k] == s[k]; }
      }
      StripUnique(t, i, j);
      assert t[i..j] == s[i..j];
    } else if |s| > 0 {
      assert s[i..j] == s;
    }
  }

  /** How many whitespace characters `str.lstrip()` removes from the front of `s`. */
  function LeadingSpace(s: string): (n: nat)
    ensures n <= |s|
    ensures forall k :: 0 <= k < n ==> IsSpace(s[k])
    ensures n < |s| ==> !IsSpace(s[n])
  {
    if |s| > 0 && IsSpace(s[0]) then 1 + LeadingSpace(s[1..]) else 0
  }

  /** Where `str.rstrip()` cuts `s`: just after its last non-whitespace character. */
  function TrailingCut(s: string): (n: nat)
    ensures n <= |s|
    ensures forall k :: n <= k < |s| ==> IsSpace(s[k])
    ensures n > 0 ==> !IsSpace(s[n - 1])
  {
    if |s| > 0 && IsSpace(s[|s| - 1]) then TrailingCut(s[..|s| - 1]) else |s|
  }

  /** `Strip` does what `str.strip()` promises: it removes whitespace from both
      ends and nothing else. */
  lemma StripSpec(s: string)
    ensures exists i, j :: StripsTo(s, i, j) && Strip(s) == s[i..j]
  {
    var i := LeadingSpace(s);
    if i == |s| {
      assert StripsTo(s, i, i);
      StripUnique(s, i, i);
    } else {
      var j := TrailingCut(s);
      assert StripsTo(s, i, j);
      StripUnique(s, i, j);
    }
  }

  /** `strip()` only removes characters: what is left was in the input. */
  lemma StripKeepsChars(s: string, c: char)
    ensures c in Strip(s) ==> c in s
  {
    StripSpec(s);
    var i, j :| StripsTo(s, i, j) && Strip(s) == s[i..j];
    if c in Strip(s) {
      var k :| 0 <= k < |Strip(s)| && Strip(s)[k] == c;
      assert s[i + k] == c;
    }
  }

  /** A string without whitespace at its ends comes back from `strip()` unchanged. */
  lemma StripTrimmed(n: string)
    requires IsTrimmed(n)
    ensures Strip(n) == n
  {
    assert StripsTo(n, 0, |n|);
    StripUnique(n, 0, |n|);
    assert n[0..|n|] == n;
  }

  /** ... also with a space in front of it, as `", ".join` leaves one. */
  lemma StripSpaced(n: string)
    requires IsTrimmed(n)
    ensures Strip(" " + n) == n
  {
    var t := " " + n;
    assert StripsTo(t, 1, 1 + |n|);
    StripUnique(t, 1, 1 + |n|);
    assert t[1..1 + |n|] == n;
  }

  /** `strip()` is idempotent. */
  lemma StripIdempotent(s: string)
    ensures Strip(Strip(s)) == Strip(s)
  {
    var r := Strip(s);
    assert StripsTo(r, 0, |r|);
    StripUnique(r, 0, |r|);
    assert r[0..|r|] == r;
  }

  /** The position of the first `c` in `s` (Python's `s.index(c)`). */
  function FirstIndex(s: string, c: char): (i: nat)
    requires c in s
    ensures i < |s| && s[i] == c
    ensures c !in s[..i]
  {
    if s[0] == c then 0 else
      var i := 1 + FirstIndex(s[1..], c);
      assert s[..i] == [s[0]] + s[1..][..i - 1];
      i
  }

  /** The first `c` in `a + [c] + b` is the one after `a` when `a` has none. */
  lemma FirstIndexAfter(a: string, c: char, b: string)
    requires c !in a
    ensures FirstIndex(a + [c] + b, c) == |a|
  {
    var s := a + [c] + b;
    assert s[..|a|] == a;
    FirstIndexUnique(s, c, |a|);
  }

  /** Any position holding `c` with no `c` before it is the first index. */
  lemma FirstIndexUnique(s: string, c: char, i: nat)
    requires i < |s| && s[i] == c && c !in s[..i]
    ensures FirstIndex(s, c) == i
  {
  }

  /** `sep.join(parts)`. */
  function Join(parts: seq<string>, sep: string): string {
    if |parts| == 0 then []
    else if |parts| == 1 then parts[0]
    else parts[0] + sep + Join(parts[1..], sep)
  }

  /** `s.split(sep)` for a one-character separator: the pieces between the
      occurrences of `sep`, so `"".split(",") == [""]`. */
  function Split(s: string, sep: char): (parts: seq<string>)
    ensures |parts| >= 1
    decreases |s|
  {
    if sep !in s then [s]
    else
      var i := FirstIndex(s, sep);
      [s[..i]] + Split(s[i + 1..], sep)
  }

  /** No piece of a split contains the separator. */
  lemma {:induction false} SplitPiecesFree(s: string, sep: char)
    ensures forall k :: 0 <= k < |Split(s, sep)| ==> sep !in Split(s, sep)[k]
    decreases |s|
  {
    if sep in s {
      var i := FirstIndex(s, sep);
      SplitPiecesFree(s[i + 1..], sep);
      assert Split(s, sep) == [s[..i]] + Split(s[i + 1..], sep);
    }
  }

  /** Joining the pieces of a split with the separator gives back the string. */
  lemma {:induction false} SplitRejoins(s: string, sep: char)
    ensures Join(Split(s, sep), [sep]) == s
    decreases |s|
  {
    if sep in s {
      var i := FirstIndex(s, sep);
      var rest := Split(s[i + 1..], sep);
      SplitRejoins(s[i + 1..], sep);
      assert Split(s, sep) == [s[..i]] + rest;
      assert ([s[..i]] + rest)[1..] == rest;
      assert Join([s[..i]] + rest, [sep]) == s[..i] + [sep] + Join(rest, [sep]);
      assert s == s[..i] + [sep] + s[i + 1..];
    }
  }

  /** `split` undoes `join` when no part contains the separator. */
  lemma {:induction false} SplitJoin(parts: seq<string>, sep: char)
    requires |parts| >= 1
    requires forall k :: 0 <= k < |parts| ==> sep !in parts[k]
    ensures Split(Join(parts, [sep]), sep) == parts
  {
    if |parts| > 1 {
      var tail := Join(parts[1..], [sep]);
      var s := parts[0] + [sep] + tail;
      FirstIndexAfter(parts[0], sep, tail);
      assert s[..|parts[0]|] == parts[0];
      assert s[|parts[0]| + 1..] == tail;
      SplitJoin(parts[1..], sep);
    }
  }

  /** `t` occurs in `s` starting at index `i`. */
  predicate OccursAt(s: string, t: string, i: int) {
    0 <= i && i + |t| <= |s| && s[i..i + |t|] == t
  }

  /** The first index at or after `from` where `t` occurs in `s`. */
  function FindFrom(s: string, t: string, from: nat): (r: Option<nat>)
    requires from <= |s|
    ensures r.Some? ==> from <= r.value && OccursAt(s, t, r.value)
    ensures r.Some? ==> forall j :: from <= j < r.value ==> !OccursAt(s, t, j)
    ensures r.None? ==> forall j :: from <= j <= |s| ==> !OccursAt(s, t, j)
    decreases |s| - from
  {
    if OccursAt(s, t, from) then Some(from)
    else if from == |s| then None
    else FindFrom(s, t, from + 1)
  }

  /** `s.find(t)`: the first occurrence of `t` in `s`, if any. */
  function Find(s: string, t: string): (r: Option<nat>)
    ensures r.Some? ==> OccursAt(s, t, r.value)
    ensures r.Some? ==> forall j :: 0 <= j < r.value ==> !OccursAt(s, t, j)
    ensures r.None? ==> forall j :: 0 <= j <= |s| ==> !OccursAt(s, t, j)
  {
    FindFrom(s, t, 0)
  }

  /** An occurrence lying wholly inside the left part of a concatenation is
      an occurrence in that part. */
  lemma OccursInLeft(a: string, b: string, t: string, q: nat)
    requires OccursAt(a + b, t, q) && q + |t| <= |a|
    ensures OccursAt(a, t, q)
  {
    assert (a + b)[q..q + |t|] == a[q..q + |t|];
  }

  /** An occurrence starting in the right part of a concatenation is an
      occurrence in that part. */
  lemma OccursInRight(a: string, b: string, t: string, q: nat)
    requires OccursAt(a + b, t, q) && |a| <= q
    ensures OccursAt(b, t, q - |a|)
  {
    assert (a + b)[q..q + |t|] == b[q - |a|..q - |a| + |t|];
  }

  /** A token whose first character does not recur in it cannot occur across
      the seam of `a + b` when `b` starts with that character. */
  lemma NoStraddle(a: string, b: string, t: string, q: nat)
    requires |t| > 0 && t[0] !in t[1..]
    requires |b| > 0 && b[0] == t[0]
    requires q < |a| < q + |t|
    ensures !OccursAt(a + b, t, q)
  {
    if q + |t| <= |a + b| {
      var d := |a| - q;
      assert t[1..][d - 1] == t[d];
      assert (a + b)[q..q + |t|][d] == b[0] != t[d];
    }
  }

  /** A token whose first character does not recur in it, placed after text
      in which it does not occur, is found right after that text. */
  lemma FindAfterPrefix(pre: string, t: string, rest: string)
    requires |t| > 0 && t[0] !in t[1..]
    requires Find(pre, t).None?
    ensures Find(pre + t + rest, t) == Some(|pre|)
  {
    var s := pre + t + rest;
    assert s == pre + (t + rest);
    assert s[|pre|..|pre| + |t|] == t;
    assert OccursAt(s, t, |pre|);
    forall j | 0 <= j < |pre| ensures !OccursAt(s, t, j) {
      if j + |t| <= |pre| {
        if OccursAt(s, t, j) {
          OccursInLeft(pre, t + rest, t, j);
        }
      } else {
        NoStraddle(pre, t + rest, t, j);
      }
    }
  }

  /** `s.split(t)[0]` for a non-empty token `t`: everything before the first
      occurrence of `t`, or all of `s` when `t` does not occur. */
  function Before(s: string, t: string): (r: string)
    ensures |r| <= |s| && r == s[..|r|]
    ensures forall j :: 0 <= j < |r| ==> !OccursAt(s, t, j)
    ensures |r| < |s| ==> OccursAt(s, t, |r|)
  {
    match Find(s, t)
    case Some(i) => s[..i]
    case None => s
  }
}
