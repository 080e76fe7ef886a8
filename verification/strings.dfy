/**
 The few Python `str` operations the indexer relies on: `p in s`, `s.index(p)`
 and `s.replace(p, r)`, over `string` = `seq<char>`.
 */
module Strings {
  import opened Wrappers

  /** `p` occurs in `s` starting at index `i`. */
  predicate OccursAt(s: string, p: string, i: nat)
  {
    i + |p| <= |s| && s[i..i + |p|] == p
  }

  /** An occurrence in `s[1..]` is an occurrence in `s`, one position later. */
  lemma OccursInTail(s: string, p: string)
    requires |s| > 0
    ensures forall j: nat :: 0 < j ==> (OccursAt(s, p, j) <==> OccursAt(s[1..], p, j - 1))
    ensures OccursAt(s, p, 0) <==> p <= s
  {
    forall j: nat | 0 < j ensures OccursAt(s, p, j) <==> OccursAt(s[1..], p, j - 1) {
      if j + |p| <= |s| {
        assert s[1..][j - 1..j - 1 + |p|] == s[j..j + |p|];
      }
    }
  }

  /** Index of the first occurrence of `p` in `s`, like Python's `s.index(p)`;
      `None` where Python raises ValueError. */
  function IndexOf(s: string, p: string): (r: Option<nat>)
    ensures r.Some? ==> OccursAt(s, p, r.value)
    ensures r.Some? ==> forall j: nat :: j < r.value ==> !OccursAt(s, p, j)
    ensures r.None? ==> forall j: nat :: !OccursAt(s, p, j)
    decreases |s|
  {
    if p <= s then Some(0)
    else if |s| == 0 then None
    else
      OccursInTail(s, p);
      match IndexOf(s[1..], p)
      case None => None
      case Some(i) => Some(i + 1)
  }

  /** Python's `p in s`: some position of `s` starts an occurrence of `p`. */
  function Contains(s: string, p: string): (b: bool)
    ensures b <==> exists i: nat :: OccursAt(s, p, i)
  {
    IndexOf(s, p).Some?
  }

  /** Python's `s.replace(p, rep)`: every non-overlapping occurrence of `p`, scanning
      left to right, is replaced by `rep`. A replacement no longer than `p` never
      lengthens the string. */
  function ReplaceAll(s: string, p: string, rep: string): (r: string)
    requires |p| > 0
    ensures |rep| <= |p| ==> |r| <= |s|
    decreases |s|
  {
    if |s| == 0 then ""
    else if p <= s then rep + ReplaceAll(s[|p|..], p, rep)
    else [s[0]] + ReplaceAll(s[1..], p, rep)
  }

  /** A string without `p` is left as it is by `replace`. */
  lemma {:induction false} ReplaceAllAbsent(s: string, p: string, r: string)
    requires |p| > 0
    requires !Contains(s, p)
    ensures ReplaceAll(s, p, r) == s
    decreases |s|
  {
    if |s| > 0 {
      assert !OccursAt(s, p, 0);
      OccursInTail(s, p);
      ReplaceAllAbsent(s[1..], p, r);
      assert s == [s[0]] + s[1..];
    }
  }

  /** Past a position where `p` does not start, `replace` copies one character. */
  lemma ReplaceAllCopies(s: string, p: string, r: string)
    requires |p| > 0 && |s| > 0 && !(p <= s)
    ensures ReplaceAll(s, p, r) == [s[0]] + ReplaceAll(s[1..], p, r)
  {
  }

  /** A first occurrence at `i > 0` is a first occurrence at `i - 1` of the tail. */
  lemma IndexOfTail(s: string, p: string, i: nat)
    requires IndexOf(s, p) == Some(i) && i > 0
    ensures |s| > 0 && !(p <= s)
    ensures IndexOf(s[1..], p) == Some(i - 1)
  {
  }

  /** Putting the first character back in front of the text copied from the tail. */
  lemma ConsSlices(s: string, i: nat, p: nat, r: string, x: string, whole: string, tail: string)
    requires 0 < i && i + p <= |s|
    requires whole == [s[0]] + tail
    requires tail == s[1..][..i - 1] + r + x
    ensures whole == s[..i] + r + x
  {
    assert [s[0]] + s[1..][..i - 1] == s[..i];
  }

  /** `replace` copies the text before the first occurrence, substitutes it, and
      carries on after it. */
  lemma {:induction false} ReplaceAllFirst(s: string, p: string, r: string, i: nat)
    requires |p| > 0
    requires IndexOf(s, p) == Some(i)
    ensures ReplaceAll(s, p, r) == s[..i] + r + ReplaceAll(s[i + |p|..], p, r)
    decreases i
  {
    if i > 0 {
      IndexOfTail(s, p, i);
      ReplaceAllCopies(s, p, r);
      var t := s[1..];
      ReplaceAllFirst(t, p, r, i - 1);
      var rest := s[i + |p|..];
      assert t[i - 1 + |p|..] == rest;
      var x := ReplaceAll(rest, p, r);
      ConsSlices(s, i, |p|, r, x, ReplaceAll(s, p, r), ReplaceAll(t, p, r));
    }
  }

  /** The text before the first occurrence holds no occurrence. */
  lemma BeforeFirst(s: string, p: string, i: nat)
    requires |p| > 0 && IndexOf(s, p) == Some(i)
    ensures !Contains(s[..i], p)
  {
    forall j: nat ensures !OccursAt(s[..i], p, j) {
      if j + |p| <= i {
        assert !OccursAt(s, p, j);
        assert s[..i][j..j + |p|] == s[j..j + |p|];
      }
    }
  }

  /** `replace` on a string with exactly one occurrence of `p`, at `i`. */
  lemma ReplaceOnly(s: string, p: string, r: string, i: nat)
    requires |p| > 0
    requires IndexOf(s, p) == Some(i)
    requires !Contains(s[i + |p|..], p)
    ensures ReplaceAll(s, p, r) == s[..i] + r + s[i + |p|..]
  {
    ReplaceAllFirst(s, p, r, i);
    ReplaceAllAbsent(s[i + |p|..], p, r);
  }

  /** Two occurrences of a pattern whose first character does not recur in it
      cannot overlap. */
  lemma NoOverlap(s: string, p: string, i: nat, j: nat)
    requires |p| > 0 && p[0] !in p[1..]
    requires OccursAt(s, p, i) && OccursAt(s, p, j) && i < j
    ensures i + |p| <= j
  {

  }

  /** If `s` is `h + p + t` and `h` holds no `p`, the first `p` in `s` is the one
      after `h` (for a `p` that cannot overlap itself). */
  lemma FirstOccurrence(h: string, p: string, t: string)
    requires |p| > 0 && p[0] !in p[1..]
    requires !Contains(h, p)
    ensures IndexOf(h + p + t, p) == Some(|h|)
  {
    var s := h + p + t;
    assert s[|h|..|h| + |p|] == p;
    assert OccursAt(s, p, |h|);
    forall j: nat | j < |h| ensures !OccursAt(s, p, j) {
      if OccursAt(s, p, j) {
        if j + |p| <= |h| {
          assert h[j..j + |p|] == s[j..j + |p|];
          assert OccursAt(h, p, j);
        } else {
          NoOverlap(s, p, j, |h|);
        }
      }
    }
  }

  /** A pattern with a character that `s` lacks does not occur in `s`. */
  lemma AbsentChar(s: string, p: string, c: char)
    requires c in p && c !in s
    ensures !Contains(s, p)
  {

  }

  /** Searching for a one-character string finds the first position of that character. */
  lemma CharOccurrence(s: string, c: char)
    ensures IndexOf(s, [c]).None? <==> c !in s
    ensures IndexOf(s, [c]).Some? ==> s[IndexOf(s, [c]).value] == c && c !in s[..IndexOf(s, [c]).value]
  {
    forall k | 0 <= k < |s| ensures OccursAt(s, [c], k) <==> s[k] == c {
      assert s[k..k + 1] == [s[k]];
    }
  }
}
