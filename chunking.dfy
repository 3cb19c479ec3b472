/**
 * Choosing the document separator and cutting the input into chunks
 * (main.go:55-66): the separator is a line break, three dashes and a line
 * break, the cut follows Go's `bytes.Split`, and one trailing empty chunk is
 * dropped.
 */
module Chunking {

  import opened Options
  import opened Bytes

  const Lf: Bytes := [LF]
  const Crlf: Bytes := [CR, LF]
  const Dashes: Bytes := [DASH, DASH, DASH]
  const LfSeparator: Bytes := [LF, DASH, DASH, DASH, LF]
  const CrlfSeparator: Bytes := [CR, LF, DASH, DASH, DASH, CR, LF]

  /** `sep` occurs in `s` starting at offset `i`. */
  predicate OccursAt(s: Bytes, sep: Bytes, i: int) {
    0 <= i && i + |sep| <= |s| && s[i..i + |sep|] == sep
  }

  /** Go's `bytes.Contains`. */
  predicate Contains(s: Bytes, sep: Bytes) {
    exists i | 0 <= i <= |s| - |sep| :: OccursAt(s, sep, i)
  }

  /** The leftmost occurrence of `sep` in `s` at or after offset `k` (Go's `bytes.Index` when `k` is 0). */
  function FindFrom(s: Bytes, sep: Bytes, k: nat): (r: Option<nat>)
    requires k <= |s|
    ensures r.Some? ==> k <= r.value && OccursAt(s, sep, r.value)
    decreases |s| - k
  {
    if k + |sep| > |s| then None
    else if s[k..k + |sep|] == sep then Some(k)
    else FindFrom(s, sep, k + 1)
  }

  /** FindFrom misses no earlier occurrence: what it returns is the leftmost one, and None means there is none. */
  lemma {:induction false} FindFromLeftmost(s: Bytes, sep: Bytes, k: nat)
    requires k <= |s|
    ensures FindFrom(s, sep, k).Some? ==> forall j :: k <= j < FindFrom(s, sep, k).value ==> !OccursAt(s, sep, j)
    ensures FindFrom(s, sep, k).None? ==> forall j :: k <= j ==> !OccursAt(s, sep, j)
    decreases |s| - k
  {
    if k + |sep| <= |s| && s[k..k + |sep|] != sep {
      FindFromLeftmost(s, sep, k + 1);
    }
  }

  /** Go's `bytes.Contains` agrees with `bytes.Index` finding a match. */
  lemma ContainsIffFound(s: Bytes, sep: Bytes)
    ensures Contains(s, sep) <==> FindFrom(s, sep, 0).Some?
  {
    FindFromLeftmost(s, sep, 0);
  }

  /** The line break of the run: CRLF only for a Windows host reading input that contains a CRLF (main.go:56-60). */
  function Linebreak(d: Bytes, onWindows: bool): (lb: Bytes)
    ensures lb == Crlf <==> onWindows && Contains(d, Crlf)
    ensures lb == Lf <==> !(onWindows && Contains(d, Crlf))
  {
    if Contains(d, Crlf) && onWindows then Crlf else Lf
  }

  /** The document separator `linebreak + "---" + linebreak` (main.go:62). */
  function Separator(d: Bytes, onWindows: bool): (sep: Bytes)
    ensures sep == CrlfSeparator <==> onWindows && Contains(d, Crlf)
    ensures sep == LfSeparator <==> !(onWindows && Contains(d, Crlf))
  {
    var lb := Linebreak(d, onWindows);
    lb + Dashes + lb
  }

  /** Go's `bytes.Join`: the parts with `sep` between each neighbouring pair. */
  function Join(parts: seq<Bytes>, sep: Bytes): Bytes {
    if |parts| == 0 then []
    else if |parts| == 1 then parts[0]
    else parts[0] + sep + Join(parts[1..], sep)
  }

  /** Go's `bytes.Count` for a non-empty separator: leftmost, non-overlapping matches. */
  function SepCount(s: Bytes, sep: Bytes): nat
    requires |sep| > 0
    decreases |s|
  {
    match FindFrom(s, sep, 0)
    case None => 0
    case Some(i) => 1 + SepCount(s[i + |sep|..], sep)
  }

  lemma OccursInPrefix(s: Bytes, sep: Bytes, n: nat, j: int)
    requires n <= |s|
    requires OccursAt(s[..n], sep, j)
    ensures OccursAt(s, sep, j)
  {
    assert s[..n][j..j + |sep|] == s[j..j + |sep|];
  }

  /**
   * Go's `bytes.Split` for a non-empty separator: cut at each leftmost,
   * non-overlapping match (main.go:62).
   */
  function Split(s: Bytes, sep: Bytes): (parts: seq<Bytes>)
    requires |sep| > 0
    ensures |parts| >= 1
    decreases |s|
  {
    match FindFrom(s, sep, 0)
    case None => [s]
    case Some(i) => [s[..i]] + Split(s[i + |sep|..], sep)
  }

  /** One split step: a first match at `i` cuts off `s[..i]`. */
  lemma SplitStep(s: Bytes, sep: Bytes, i: nat)
    requires |sep| > 0
    requires FindFrom(s, sep, 0) == Some(i)
    ensures Split(s, sep) == [s[..i]] + Split(s[i + |sep|..], sep)
  {
    var found := FindFrom(s, sep, 0);
    assert found.Some? && found.value == i;
  }

  lemma JoinCons(a: Bytes, ps: seq<Bytes>, sep: Bytes)
    requires |ps| >= 1
    ensures Join([a] + ps, sep) == a + sep + Join(ps, sep)
  {
    assert ([a] + ps)[1..] == ps;
  }

  /** Joining the parts with the separator gives back the input exactly (main.go:62). */
  lemma {:induction false} SplitJoin(s: Bytes, sep: Bytes)
    requires |sep| > 0
    ensures Join(Split(s, sep), sep) == s
    decreases |s|
  {
    var found := FindFrom(s, sep, 0);
    if found.Some? {
      var i := found.value;
      var rest := s[i + |sep|..];
      SplitJoin(rest, sep);
      assert Split(s, sep) == [s[..i]] + Split(rest, sep) by {
        SplitStep(s, sep, i);
      }
      JoinCons(s[..i], Split(rest, sep), sep);
      assert s[..i] + sep + rest == s by {
        assert OccursAt(s, sep, i);
      }
    }
  }

  /** No part contains the separator (main.go:62). */
  lemma {:induction false} SplitPartsSeparatorFree(s: Bytes, sep: Bytes)
    requires |sep| > 0
    ensures forall k :: 0 <= k < |Split(s, sep)| ==> !Contains(Split(s, sep)[k], sep)
    decreases |s|
  {
    var found := FindFrom(s, sep, 0);
    if found.Some? {
      var i := found.value;
      var rest := s[i + |sep|..];
      SplitPartsSeparatorFree(rest, sep);
      assert Split(s, sep) == [s[..i]] + Split(rest, sep) by {
        SplitStep(s, sep, i);
      }
      assert !Contains(s[..i], sep) by {
        FindFromLeftmost(s, sep, 0);
        forall j | OccursAt(s[..i], sep, j) ensures false {
          OccursInPrefix(s, sep, i, j);
        }
      }
    } else {
      ContainsIffFound(s, sep);
    }
  }

  /** The chunks of the run: the split parts, less one trailing empty part (main.go:62-66). */
  function Chunks(s: Bytes, sep: Bytes): (chunks: seq<Bytes>)
    requires |sep| > 0
    ensures chunks <= Split(s, sep)
    ensures |Split(s, sep)| - 1 <= |chunks|
    ensures |chunks| < |Split(s, sep)| <==> Split(s, sep)[|Split(s, sep)| - 1] == []
  {
    var parts := Split(s, sep);
    if parts[|parts| - 1] == [] then parts[..|parts| - 1] else parts
  }

  /** An input without the separator is one part, and only such an input is (main.go:62). */
  lemma {:induction false} SplitWithoutSeparator(s: Bytes, sep: Bytes)
    requires |sep| > 0
    ensures !Contains(s, sep) <==> Split(s, sep) == [s]
  {
    ContainsIffFound(s, sep);
    match FindFrom(s, sep, 0)
    case None =>
    case Some(i) =>
      assert |Split(s[i + |sep|..], sep)| >= 1;
  }

  /** There is one more part than there are (non-overlapping) separators. */
  lemma {:induction false} SplitCount(s: Bytes, sep: Bytes)
    requires |sep| > 0
    ensures |Split(s, sep)| == SepCount(s, sep) + 1
    decreases |s|
  {
    match FindFrom(s, sep, 0)
    case None =>
    case Some(i) => SplitCount(s[i + |sep|..], sep);
  }

  /**
   * The edge cases of the trim (main.go:64-66): an empty input has no chunk,
   * an input without a separator is one chunk, and otherwise the chunk count
   * is the separator count, plus one unless the last part was empty.
   */
  lemma ChunkCount(s: Bytes, sep: Bytes)
    requires |sep| > 0
    ensures s == [] ==> Chunks(s, sep) == []
    ensures s != [] && !Contains(s, sep) ==> Chunks(s, sep) == [s]
    ensures |Chunks(s, sep)| == SepCount(s, sep) + (if Split(s, sep)[|Split(s, sep)| - 1] == [] then 0 else 1)
  {
    SplitWithoutSeparator(s, sep);
    SplitCount(s, sep);
    if s == [] {
      assert !Contains(s, sep);
    }
  }

  /** FindFrom returns the least occurrence at or after `k`. */
  lemma FindFromLeast(s: Bytes, sep: Bytes, k: nat, i: nat)
    requires k <= i && OccursAt(s, sep, i)
    requires forall j :: k <= j < i ==> !OccursAt(s, sep, j)
    ensures FindFrom(s, sep, k) == Some(i)
  {
    FindFromLeftmost(s, sep, k);
  }

  /** A match found in `t` is still the leftmost one once more bytes follow `t`. */
  lemma FindInExtension(t: Bytes, u: Bytes, sep: Bytes, i: nat)
    requires FindFrom(t, sep, 0) == Some(i)
    ensures FindFrom(t + u, sep, 0) == Some(i)
  {
    assert (t + u)[i..i + |sep|] == t[i..i + |sep|];
    FindFromLeftmost(t, sep, 0);
    forall j | 0 <= j < i ensures !OccursAt(t + u, sep, j) {
      assert !OccursAt(t, sep, j);
      assert (t + u)[j..j + |sep|] == t[j..j + |sep|];
    }
    FindFromLeast(t + u, sep, 0, i);
  }

  /** The last part of a split. */
  function LastPart(s: Bytes, sep: Bytes): Bytes
    requires |sep| > 0
  {
    Split(s, sep)[|Split(s, sep)| - 1]
  }

  /** Splitting one part followed by the separator gives that part and an empty one. */
  lemma SplitPartThenSeparator(t: Bytes, sep: Bytes)
    requires |sep| > 0
    requires FindFrom(t + sep, sep, 0) == Some(|t|)
    ensures Split(t + sep, sep) == [t, []]
  {
    assert (t + sep)[..|t|] == t;
    assert (t + sep)[|t| + |sep|..] == [];
    assert FindFrom([], sep, 0) == None;
  }

  lemma ConsThenAppend(x: seq<Bytes>, y: seq<Bytes>, z: seq<Bytes>, w: seq<Bytes>, a: Bytes)
    requires x == [a] + y && z == [a] + w && w == y + [[]]
    ensures z == x + [[]]
  {
  }

  /** A first match at `i` in `t` is also the first match once the separator follows `t`. */
  lemma SplitStepBeforeSeparator(t: Bytes, sep: Bytes, i: nat)
    requires |sep| > 0
    requires FindFrom(t, sep, 0) == Some(i)
    ensures Split(t + sep, sep) == [t[..i]] + Split(t[i + |sep|..] + sep, sep)
  {
    assert (t + sep)[..i] == t[..i];
    assert (t + sep)[i + |sep|..] == t[i + |sep|..] + sep;
    FindInExtension(t, sep, sep, i);
    SplitStep(t + sep, sep, i);
  }

  /** The inductive step of SplitAppendSeparator, given its claim for the rest after the first match. */
  lemma SplitAppendAfterMatch(t: Bytes, sep: Bytes, i: nat)
    requires |sep| > 0
    requires FindFrom(t, sep, 0) == Some(i)
    requires Split(t[i + |sep|..] + sep, sep) == Split(t[i + |sep|..], sep) + [[]]
    ensures Split(t + sep, sep) == Split(t, sep) + [[]]
  {
    var rest := t[i + |sep|..];
    SplitStep(t, sep, i);
    SplitStepBeforeSeparator(t, sep, i);
    ConsThenAppend(Split(t, sep), Split(rest, sep), Split(t + sep, sep), Split(rest + sep, sep), t[..i]);
  }

  /** Cutting off the first match leaves the last part unchanged. */
  lemma LastPartAfterMatch(t: Bytes, sep: Bytes, i: nat)
    requires |sep| > 0
    requires FindFrom(t, sep, 0) == Some(i)
    ensures LastPart(t[i + |sep|..], sep) == LastPart(t, sep)
  {
    var parts, all := Split(t[i + |sep|..], sep), Split(t, sep);
    SplitStep(t, sep, i);
    assert all == [t[..i]] + parts;
    assert all[|all| - 1] == parts[|parts| - 1];
  }

  /**
   * A separator appended after the last part adds exactly one empty part,
   * provided it does not overlap a separator-like tail of that part.
   */
  lemma {:induction false} SplitAppendSeparator(t: Bytes, sep: Bytes)
    requires |sep| > 0
    requires FindFrom(LastPart(t, sep) + sep, sep, 0) == Some(|LastPart(t, sep)|)
    ensures Split(t + sep, sep) == Split(t, sep) + [[]]
    decreases |t|
  {
    var found := FindFrom(t, sep, 0);
    if found.None? {
      SplitWithoutSeparator(t, sep);
      SplitPartThenSeparator(t, sep);
    } else {
      var i := found.value;
      LastPartAfterMatch(t, sep, i);
      SplitAppendSeparator(t[i + |sep|..], sep);
      SplitAppendAfterMatch(t, sep, i);
    }
  }

  /**
   * A trailing separator that does not overlap the last document is dropped
   * with its empty part: the chunks are the parts of what precedes it, and
   * their count is the separator count.
   */
  lemma TrailingSeparatorDropped(t: Bytes, sep: Bytes)
    requires |sep| > 0
    requires FindFrom(LastPart(t, sep) + sep, sep, 0) == Some(|LastPart(t, sep)|)
    ensures Chunks(t + sep, sep) == Split(t, sep)
    ensures |Chunks(t + sep, sep)| == SepCount(t + sep, sep)
  {
    SplitAppendSeparator(t, sep);
    SplitCount(t + sep, sep);
    assert Split(t + sep, sep)[..|Split(t, sep)|] == Split(t, sep);
  }

  /**
   * Ending in the separator is not enough for the last part to be empty:
   * "\n---\n---\n" ends in "\n---\n" yet splits into "" and "---\n", two
   * chunks for one counted separator.
   */
  lemma OverlappingTrailingSeparator()
    ensures var s: Bytes := [LF, DASH, DASH, DASH, LF, DASH, DASH, DASH, LF];
      && s[|s| - |LfSeparator|..] == LfSeparator
      && SepCount(s, LfSeparator) == 1
      && Chunks(s, LfSeparator) == [[], [DASH, DASH, DASH, LF]]
  {
    var s: Bytes := [LF, DASH, DASH, DASH, LF, DASH, DASH, DASH, LF];
    assert s[0..5] == LfSeparator;
    var rest := s[5..];
    assert rest == [DASH, DASH, DASH, LF];
    assert FindFrom(rest, LfSeparator, 0) == None;
    assert Split(s, LfSeparator) == [[]] + Split(rest, LfSeparator);
  }
}
