/** String helpers of the harness (`StringExtensions.swift` and the private copies in both
    `SnapshotTestCase.swift` files) together with the Foundation operations they are built on:
    `range(of:)`, `replacingOccurrences(of:with:)`, `split(separator:)` and `joined(separator:)`.
    Strings are sequences of characters; Swift's Unicode canonical equivalence is not modelled. */
module Strings {
  import opened Wrappers

  /** `pat` occurs in `s` starting at index `i`. The empty pattern occurs nowhere, as for
      Foundation's `range(of:)`. */
  predicate OccursAt(s: string, pat: string, i: int) {
    pat != [] && 0 <= i && i + |pat| <= |s| && s[i..i + |pat|] == pat
  }

  ghost predicate Occurs(s: string, pat: string) {
    exists i :: OccursAt(s, pat, i)
  }

  /** `k` is the start of the leftmost occurrence of `pat` in `s`. */
  ghost predicate FirstOccurrence(s: string, pat: string, k: int) {
    OccursAt(s, pat, k) && forall j :: 0 <= j < k ==> !OccursAt(s, pat, j)
  }

  function FindFrom(s: string, pat: string, i: nat): (r: Option<nat>)
    requires i <= |s|
    decreases |s| - i
    ensures r.Some? ==> i <= r.value && OccursAt(s, pat, r.value)
    ensures r.Some? ==> forall j :: i <= j < r.value ==> !OccursAt(s, pat, j)
    ensures r.None? ==> forall j :: i <= j ==> !OccursAt(s, pat, j)
  {
    if pat == [] || i + |pat| > |s| then None
    else if s[i..i + |pat|] == pat then Some(i)
    else FindFrom(s, pat, i + 1)
  }

  /** `String.range(of:)`: the start of the first occurrence, or none at all. */
  function RangeOf(s: string, pat: string): (r: Option<nat>)
    ensures r.Some? ==> FirstOccurrence(s, pat, r.value)
    ensures r.None? <==> !Occurs(s, pat)
  {
    FindFrom(s, pat, 0)
  }

  lemma FirstOccurrenceUnique(s: string, pat: string, k1: int, k2: int)
    requires FirstOccurrence(s, pat, k1) && FirstOccurrence(s, pat, k2)
    ensures k1 == k2
  {
  }

  /** `replacingFirst(of:with:)`: replace the leftmost occurrence only; unchanged if there is none. */
  function ReplacingFirst(s: string, pat: string, rep: string): (r: string)
    ensures !Occurs(s, pat) ==> r == s
    ensures forall k :: FirstOccurrence(s, pat, k) ==> r == s[..k] + rep + s[k + |pat|..]
  {
    match RangeOf(s, pat)
    case None => s
    case Some(k) =>
      assert forall k' :: FirstOccurrence(s, pat, k') ==> k' == k by {
        forall k' | FirstOccurrence(s, pat, k') ensures k' == k {
          FirstOccurrenceUnique(s, pat, k, k');
        }
      }
      s[..k] + rep + s[k + |pat|..]
  }

  /** `prepending(_:)`: `prefix` followed by the receiver. */
  function Prepending(s: string, prefix: string): (r: string)
    ensures |r| == |prefix| + |s|
    ensures r[..|prefix|] == prefix && r[|prefix|..] == s
  {
    prefix + s
  }

  lemma NoOccurrenceInTail(s: string, pat: string)
    requires s != []
    ensures !Occurs(s, pat) ==> !Occurs(s[1..], pat)
  {
    if Occurs(s[1..], pat) {
      var i :| OccursAt(s[1..], pat, i);
      assert s[i + 1..i + 1 + |pat|] == s[1..][i..i + |pat|];
      assert OccursAt(s, pat, i + 1);
    }
  }

  /** Foundation's `replacingOccurrences(of:with:)`: one left-to-right pass over non-overlapping
      occurrences; the text produced by a replacement is not scanned again. */
  function ReplacingOccurrences(s: string, pat: string, rep: string): (r: string)
    decreases |s|
    ensures !Occurs(s, pat) ==> r == s
    ensures rep == [] ==> |r| <= |s|
  {
    if pat == [] || |s| < |pat| then s
    else if s[..|pat|] == pat then
      assert OccursAt(s, pat, 0);
      rep + ReplacingOccurrences(s[|pat|..], pat, rep)
    else
      NoOccurrenceInTail(s, pat);
      [s[0]] + ReplacingOccurrences(s[1..], pat, rep)
  }

  /** Where the pattern occurs, the pass copies the text before its leftmost occurrence,
      emits the replacement and carries on after that occurrence. */
  lemma {:induction false} ReplacingAtFirstOccurrence(s: string, pat: string, rep: string, i: nat)
    requires FirstOccurrence(s, pat, i)
    decreases i
    ensures ReplacingOccurrences(s, pat, rep) == s[..i] + rep + ReplacingOccurrences(s[i + |pat|..], pat, rep)
  {
    if i == 0 {
      ReplacingAtStart(s, pat, rep, i);
    } else {
      var j: nat := i - 1;
      FirstOccurrenceInTail(s, pat, i, j);
      ReplacingAtFirstOccurrence(s[1..], pat, rep, j);
      ReplacingStep(s, pat, rep, i, j);
    }
  }

  /** An occurrence at the start is replaced and the pass goes on after it. */
  lemma ReplacingAtStart(s: string, pat: string, rep: string, i: nat)
    requires i == 0 && OccursAt(s, pat, i)
    ensures ReplacingOccurrences(s, pat, rep) == s[..i] + rep + ReplacingOccurrences(s[i + |pat|..], pat, rep)
  {
    var n := |pat|;
    assert s[..n] == s[i..i + n] == pat;
    ReplacingMatchAtStart(s, pat, rep);
    assert s[i + n..] == s[n..];
    EmptyPrefix(ReplacingOccurrences(s, pat, rep), rep, ReplacingOccurrences(s[n..], pat, rep), s[..i]);
  }

  /** An occurrence at the start: the replacement is emitted and the pass goes on after it. */
  lemma ReplacingMatchAtStart(s: string, pat: string, rep: string)
    requires pat != [] && |pat| <= |s| && s[..|pat|] == pat
    ensures ReplacingOccurrences(s, pat, rep) == rep + ReplacingOccurrences(s[|pat|..], pat, rep)
  {
  }

  lemma EmptyPrefix(whole: string, rep: string, rest: string, prefix: string)
    requires whole == rep + rest && prefix == []
    ensures whole == prefix + rep + rest
  {
  }

  /** The inductive step of `ReplacingAtFirstOccurrence`: its statement for the tail, whose
      leftmost occurrence is at `j`, gives it for the whole string. */
  lemma ReplacingStep(s: string, pat: string, rep: string, i: nat, j: nat)
    requires i == j + 1 && pat != [] && i + |pat| <= |s| && s[..|pat|] != pat
    requires ReplacingOccurrences(s[1..], pat, rep)
             == s[1..][..j] + rep + ReplacingOccurrences(s[1..][j + |pat|..], pat, rep)
    ensures ReplacingOccurrences(s, pat, rep) == s[..i] + rep + ReplacingOccurrences(s[i + |pat|..], pat, rep)
  {
    ReplacingSkipsMismatch(s, pat, rep);
    ShiftedSlices(s, i, j, |pat|);
    Reassemble(ReplacingOccurrences(s, pat, rep), ReplacingOccurrences(s[1..], pat, rep), s[0], s[1..][..j], rep,
               ReplacingOccurrences(s[i + |pat|..], pat, rep), s[..i]);
  }

  lemma ShiftedSlices(s: string, i: nat, j: nat, n: nat)
    requires i == j + 1 && i + n <= |s|
    ensures s[1..][j + n..] == s[i + n..]
    ensures [s[0]] + s[1..][..j] == s[..i]
  {
  }

  lemma Reassemble(whole: string, tail: string, c: char, head: string, rep: string, rest: string, prefix: string)
    requires whole == [c] + tail && tail == head + rep + rest && [c] + head == prefix
    ensures whole == prefix + rep + rest
  {
  }

  /** No occurrence at the start: the first character is copied and the pass goes on. */
  lemma ReplacingSkipsMismatch(s: string, pat: string, rep: string)
    requires pat != [] && |pat| <= |s| && s[..|pat|] != pat
    ensures ReplacingOccurrences(s, pat, rep) == [s[0]] + ReplacingOccurrences(s[1..], pat, rep)
  {
  }

  /** A leftmost occurrence past the start is the leftmost occurrence of the tail, one earlier. */
  lemma FirstOccurrenceInTail(s: string, pat: string, i: nat, j: nat)
    requires i == j + 1 && FirstOccurrence(s, pat, i)
    ensures pat != [] && i + |pat| <= |s| && s[..|pat|] != pat
    ensures FirstOccurrence(s[1..], pat, j)
  {
    assert !OccursAt(s, pat, 0);
    var t := s[1..];
    assert t[i - 1..i - 1 + |pat|] == s[i..i + |pat|];
    forall j | 0 <= j < i - 1
      ensures !OccursAt(t, pat, j)
    {
      assert !OccursAt(s, pat, j + 1);
      if j + |pat| <= |t| {
        assert t[j..j + |pat|] == s[j + 1..j + 1 + |pat|];
      }
    }
  }

  /** Removing a one-character pattern removes every copy of that character. */
  lemma {:induction false} RemovingCharacterRemovesAll(s: string, c: char)
    decreases |s|
    ensures c !in ReplacingOccurrences(s, [c], "")
  {
    if s != [] {
      RemovingCharacterRemovesAll(s[1..], c);
      if s[..1] == [c] {
        assert ReplacingOccurrences(s, [c], "") == ReplacingOccurrences(s[1..], [c], "");
      } else {
        assert ReplacingOccurrences(s, [c], "") == [s[0]] + ReplacingOccurrences(s[1..], [c], "");
      }
    }
  }

  /** Removing occurrences of a pattern introduces no character. */
  lemma {:induction false} RemovingKeepsCharacters(s: string, pat: string, c: char)
    decreases |s|
    ensures c in ReplacingOccurrences(s, pat, "") ==> c in s
  {
    if pat != [] && |s| >= |pat| {
      if s[..|pat|] == pat {
        RemovingKeepsCharacters(s[|pat|..], pat, c);
        assert ReplacingOccurrences(s, pat, "") == ReplacingOccurrences(s[|pat|..], pat, "");
        assert c in s[|pat|..] ==> c in s;
      } else {
        RemovingKeepsCharacters(s[1..], pat, c);
        assert c in s[1..] ==> c in s;
      }
    }
  }

  /** Replacing the first occurrence of a pattern by nothing introduces no character. */
  lemma RemovingFirstKeepsCharacters(s: string, pat: string, c: char)
    ensures c in ReplacingFirst(s, pat, "") ==> c in s
  {
    if Occurs(s, pat) {
      var k := RangeOf(s, pat).value;
      assert ReplacingFirst(s, pat, "") == s[..k] + s[k + |pat|..];
      assert c in s[..k] ==> c in s;
      assert c in s[k + |pat|..] ==> c in s;
    }
  }

  /** A leading occurrence is removed, and a remainder without occurrences is kept as it is. */
  lemma RemovingLeadingPattern(pat: string, t: string)
    requires pat != [] && !Occurs(t, pat)
    ensures ReplacingOccurrences(pat + t, pat, "") == t
  {
    var s := pat + t;
    assert s[..|pat|] == pat && s[|pat|..] == t;
  }

  /** End of the piece that starts at `i`: the first separator at or after `i`, or the end. */
  function PieceEnd(s: string, sep: char, i: nat): (k: nat)
    requires i <= |s|
    decreases |s| - i
    ensures i <= k <= |s|
    ensures forall j :: i <= j < k ==> s[j] != sep
    ensures k < |s| ==> s[k] == sep
  {
    if i == |s| || s[i] == sep then i else PieceEnd(s, sep, i + 1)
  }

  /** `split(separator:)` with Swift's default of omitting empty pieces: the maximal runs of
      characters other than `sep`, in order. */
  function Split(s: string, sep: char): (r: seq<string>)
    decreases |s|
    ensures forall p :: p in r ==> p != [] && sep !in p
    ensures forall p :: p in r ==> forall ch :: ch in p ==> ch in s
  {
    if s == [] then []
    else if s[0] == sep then Split(s[1..], sep)
    else
      var k := PieceEnd(s, sep, 0);
      [s[..k]] + Split(s[k..], sep)
  }

  /** `joined(separator:)`. */
  function Join(pieces: seq<string>, sep: char): (r: string)
    decreases |pieces|
  {
    if |pieces| == 0 then ""
    else if |pieces| == 1 then pieces[0]
    else pieces[0] + [sep] + Join(pieces[1..], sep)
  }

  /** Only one index can be the end of the piece starting at `i`. */
  lemma PieceEndUnique(s: string, sep: char, i: nat, k: nat)
    requires i <= k <= |s|
    requires forall j :: i <= j < k ==> s[j] != sep
    requires k < |s| ==> s[k] == sep
    ensures PieceEnd(s, sep, i) == k
  {
  }

  /** Splitting distributes over a separator: the pieces of `a + [sep] + b` are those of `a`
      followed by those of `b`. */
  lemma {:induction false} SplitAppend(a: string, b: string, sep: char)
    decreases |a|
    ensures Split(a + [sep] + b, sep) == Split(a, sep) + Split(b, sep)
  {
    var s := a + [sep] + b;
    if a == [] {
      assert s[1..] == b;
    } else if a[0] == sep {
      assert s[1..] == a[1..] + [sep] + b;
      SplitAppend(a[1..], b, sep);
    } else {
      var ka := PieceEnd(a, sep, 0);
      PieceEndUnique(s, sep, 0, ka);
      assert s[..ka] == a[..ka];
      assert s[ka..] == a[ka..] + [sep] + b;
      SplitAppend(a[ka..], b, sep);
    }
  }

  /** A non-empty string without separators is a single piece. */
  lemma SplitSinglePiece(p: string, sep: char)
    requires p != [] && sep !in p
    ensures Split(p, sep) == [p]
  {
    assert p[0] in p;
    PieceEndUnique(p, sep, 0, |p|);
    assert p[..|p|] == p && p[|p|..] == [];
  }

  /** Round trip: splitting a join of non-empty, separator-free pieces gives the pieces back. */
  lemma {:induction false} SplitJoin(pieces: seq<string>, sep: char)
    requires forall p :: p in pieces ==> p != [] && sep !in p
    decreases |pieces|
    ensures Split(Join(pieces, sep), sep) == pieces
  {
    if |pieces| >= 1 {
      assert pieces[0] in pieces;
    }
    if |pieces| == 1 {
      SplitSinglePiece(pieces[0], sep);
    } else if |pieces| > 1 {
      assert forall p :: p in pieces[1..] ==> p in pieces;
      SplitJoin(pieces[1..], sep);
      SplitSinglePiece(pieces[0], sep);
      SplitAppend(pieces[0], Join(pieces[1..], sep), sep);
      assert pieces == [pieces[0]] + pieces[1..];
    }
  }

  /** There are no pieces exactly when every character is a separator. */
  lemma {:induction false} SplitEmptyIff(s: string, sep: char)
    decreases |s|
    ensures Split(s, sep) == [] <==> forall j :: 0 <= j < |s| ==> s[j] == sep
  {
    if s != [] && s[0] == sep {
      SplitEmptyIff(s[1..], sep);
      assert forall j :: 1 <= j < |s| ==> s[j] == s[1..][j - 1];
    }
  }

  /** Equal strings that agree outside a middle part agree in that part. */
  lemma SameContext(head: string, x: string, y: string, tail: string)
    requires head + x + tail == head + y + tail
    ensures x == y
  {
    assert |x| == |y|;
    assert x == (head + x + tail)[|head|..|head| + |x|];
    assert y == (head + y + tail)[|head|..|head| + |y|];
  }

  /** The first separator fixes where the head ends: two strings `head + sep + rest` with
      separator-free heads agree exactly when heads and rests do. */
  lemma FirstSeparatorSplits(a1: string, b1: string, a2: string, b2: string, sep: char)
    requires sep !in a1 && sep !in a2
    requires a1 + [sep] + b1 == a2 + [sep] + b2
    ensures a1 == a2 && b1 == b2
  {
    var w := a1 + [sep] + b1;
    HeadNoLonger(a1, b1, a2, b2, sep);
    HeadNoLonger(a2, b2, a1, b1, sep);
    assert a1 == w[..|a1|] && a2 == w[..|a2|];
    assert b1 == w[|a1| + 1..] && b2 == w[|a2| + 1..];
  }

  lemma HeadNoLonger(a1: string, b1: string, a2: string, b2: string, sep: char)
    requires sep !in a1
    requires a1 + [sep] + b1 == a2 + [sep] + b2
    ensures |a1| <= |a2|
  {
    SeparatorAt(a1, b1, sep);
    SeparatorAt(a2, b2, sep);
  }

  lemma SeparatorAt(a: string, b: string, sep: char)
    ensures (a + [sep] + b)[|a|] == sep
    ensures forall k :: 0 <= k < |a| ==> (a + [sep] + b)[k] == a[k]
  {
  }

  lemma SameTail(x: string, y: string, tail: string)
    requires x + tail == y + tail
    ensures x == y
  {
    assert x == (x + tail)[..|x|];
    assert y == (y + tail)[..|y|];
  }

  /** `filename`: the first "."-piece of the last "/"-piece, or "" when there is none. */
  function Filename(s: string): (r: string)
    ensures '/' !in r && '.' !in r
  {
    var parts := Split(s, '/');
    if parts == [] then ""
    else
      var last := parts[|parts| - 1];
      assert last in parts;
      var dots := Split(last, '.');
      if dots == [] then "" else
        assert dots[0] in dots;
        dots[0]
  }

  /** The base name is recovered from `<dir>/<base>.<ext>`. */
  lemma FilenameOfPath(dir: string, base: string, ext: string)
    requires base != [] && '/' !in base && '.' !in base && '/' !in ext
    ensures Filename(dir + "/" + base + "." + ext) == base
  {
    var last := base + "." + ext;
    assert dir + "/" + base + "." + ext == dir + ['/'] + last;
    SplitAppend(dir, last, '/');
    SplitSinglePiece(last, '/');
    SplitAppend(base, ext, '.');
    SplitSinglePiece(base, '.');
  }
}
