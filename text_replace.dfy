/** The .NET `string.Replace(oldValue, newValue)` that renames use: ordinal,
    scanning left to right, replacing non-overlapping occurrences. */
module TextReplace {

  /** `pat` occurs in `s` starting at index `i`. */
  predicate OccursAt(s: string, pat: string, i: int)
  {
    0 <= i && i + |pat| <= |s| && s[i..i + |pat|] == pat
  }

  predicate Occurs(s: string, pat: string)
  {
    exists i :: 0 <= i <= |s| && OccursAt(s, pat, i)
  }

  /** Replace every occurrence of `pat` by `rep`, leftmost first; the scan
      resumes after each replaced occurrence. An empty `pat` is rejected by
      .NET, hence the precondition (callers check it). The result puts `rep`
      exactly between the pieces of the scan. */
  function ReplaceAll(s: string, pat: string, rep: string): (r: string)
    requires |pat| > 0
    ensures r == Join(Pieces(s, pat), rep)
    decreases |s|
  {
    if |s| < |pat| then
      s
    else if s[..|pat|] == pat then
      assert Pieces(s, pat)[1..] == Pieces(s[|pat|..], pat);
      rep + ReplaceAll(s[|pat|..], pat, rep)
    else
      JoinConsFirst(s[0], Pieces(s[1..], pat), rep);
      [s[0]] + ReplaceAll(s[1..], pat, rep)
  }

  /** Reference view of the same scan: the text between the occurrences
      that ReplaceAll replaces. The first piece is a prefix of `s`. */
  function Pieces(s: string, pat: string): (ps: seq<string>)
    requires |pat| > 0
    ensures |ps| >= 1
    ensures ps[0] <= s
    decreases |s|
  {
    if |s| < |pat| then [s]
    else if s[..|pat|] == pat then [""] + Pieces(s[|pat|..], pat)
    else
      var rest := Pieces(s[1..], pat);
      [[s[0]] + rest[0]] + rest[1..]
  }

  /** The pieces glued back together with `sep` between neighbours. */
  function Join(ps: seq<string>, sep: string): string
    requires |ps| >= 1
  {
    if |ps| == 1 then ps[0] else ps[0] + sep + Join(ps[1..], sep)
  }

  lemma {:induction false} JoinConsFirst(c: char, ps: seq<string>, sep: string)
    requires |ps| >= 1
    ensures Join([[c] + ps[0]] + ps[1..], sep) == [c] + Join(ps, sep)
  {
  }

  /** Splitting at the occurrences and gluing back with the pattern itself
      gives the text back. */
  lemma {:induction false} JoinPiecesRestores(s: string, pat: string)
    requires |pat| > 0
    ensures Join(Pieces(s, pat), pat) == s
    decreases |s|
  {
    if |s| < |pat| {
    } else if s[..|pat|] == pat {
      JoinPiecesRestores(s[|pat|..], pat);
      var ps := [""] + Pieces(s[|pat|..], pat);
      assert ps[1..] == Pieces(s[|pat|..], pat);
      assert s == s[..|pat|] + s[|pat|..];
    } else {
      JoinPiecesRestores(s[1..], pat);
      JoinConsFirst(s[0], Pieces(s[1..], pat), pat);
      assert s == [s[0]] + s[1..];
    }
  }

  /** No piece contains the pattern: every occurrence in `s` was replaced
      or overlaps one that was. */
  lemma {:induction false} PiecesAvoidPattern(s: string, pat: string)
    requires |pat| > 0
    ensures forall k :: 0 <= k < |Pieces(s, pat)| ==> !Occurs(Pieces(s, pat)[k], pat)
    decreases |s|
  {
    var ps := Pieces(s, pat);
    if |s| < |pat| {
      assert !Occurs(s, pat);
    } else if s[..|pat|] == pat {
      PiecesAvoidPattern(s[|pat|..], pat);
      assert ps[1..] == Pieces(s[|pat|..], pat);
      forall k | 0 <= k < |ps| ensures !Occurs(ps[k], pat) {
        if k == 0 {
          assert ps[0] == "";
        } else {
          assert ps[k] == Pieces(s[|pat|..], pat)[k - 1];
        }
      }
    } else {
      var rest := Pieces(s[1..], pat);
      PiecesAvoidPattern(s[1..], pat);
      assert ps[1..] == rest[1..];
      var first := [s[0]] + rest[0];
      assert !OccursAt(first, pat, 0) by {
        if |pat| <= |first| {
          assert first[..|pat|] == s[..|pat|];
        }
      }
      assert !Occurs(rest[0], pat);
      forall i | 0 < i <= |first| ensures !OccursAt(first, pat, i) {
        ShiftOccurrence(s[0], rest[0], pat, i - 1);
        assert !OccursAt(rest[0], pat, i - 1);
      }
      forall k | 0 <= k < |ps| ensures !Occurs(ps[k], pat) {
        if k > 0 {
          assert ps[k] == rest[k];
        }
      }
    }
  }

  /** The first of two or more pieces, followed by the separator, starts the join. */
  lemma JoinStartsWithFirstPiece(ps: seq<string>, sep: string)
    requires |ps| >= 2
    ensures ps[0] + sep <= Join(ps, sep)
  {
  }

  /** Every piece but the last, followed by the pattern, holds no earlier
      occurrence of the pattern than the one that follows it. */
  ghost predicate LeftmostPieces(ps: seq<string>, pat: string)
  {
    forall k, i :: 0 <= k < |ps| - 1 && 0 <= i < |ps[k]| ==> !OccursAt(ps[k] + pat, pat, i)
  }

  /** The scan takes the leftmost occurrence: inside a piece followed by a
      replaced occurrence, no earlier occurrence of the pattern starts. */
  lemma {:induction false} PiecesLeftmost(s: string, pat: string)
    requires |pat| > 0
    ensures LeftmostPieces(Pieces(s, pat), pat)
    decreases |s|
  {
    var ps := Pieces(s, pat);
    if |s| < |pat| {
    } else if s[..|pat|] == pat {
      var rest := Pieces(s[|pat|..], pat);
      PiecesLeftmost(s[|pat|..], pat);
      assert ps[0] == "";
      forall k, i | 1 <= k < |ps| - 1 && 0 <= i < |ps[k]| ensures !OccursAt(ps[k] + pat, pat, i) {
        assert ps[k] == rest[k - 1];
      }
    } else {
      var rest := Pieces(s[1..], pat);
      PiecesLeftmost(s[1..], pat);
      if |ps| >= 2 {
        NonLastPieceThenPattern(s[1..], pat);
        assert [s[0]] + rest[0] + pat <= s by {
          assert [s[0]] + rest[0] + pat == [s[0]] + (rest[0] + pat);
          assert s == [s[0]] + s[1..];
        }
        assert forall i :: 0 <= i < |rest[0]| ==> !OccursAt(rest[0] + pat, pat, i);
        ExtendLeftmost(s, s[0], rest[0], pat);
        assert ps[0] == [s[0]] + rest[0];
      }
      forall k, i | 1 <= k < |ps| - 1 && 0 <= i < |ps[k]| ensures !OccursAt(ps[k] + pat, pat, i) {
        assert ps[k] == rest[k];
      }
    }
  }

  /** A piece that is not the last, followed by the pattern, starts the rest
      of the text. */
  lemma NonLastPieceThenPattern(t: string, pat: string)
    requires |pat| > 0
    requires |Pieces(t, pat)| >= 2
    ensures Pieces(t, pat)[0] + pat <= t
  {
    JoinStartsWithFirstPiece(Pieces(t, pat), pat);
    JoinPiecesRestores(t, pat);
  }

  /** The step of PiecesLeftmost where the scan moves past a character `c`
      that does not start an occurrence: the piece `r` it joins had no
      occurrence before its pattern, and neither has `[c] + r`. */
  lemma ExtendLeftmost(s: string, c: char, r: string, pat: string)
    requires |pat| > 0 && |s| >= |pat| && s[..|pat|] != pat
    requires [c] + r + pat <= s
    requires forall i :: 0 <= i < |r| ==> !OccursAt(r + pat, pat, i)
    ensures forall i :: 0 <= i < |[c] + r| ==> !OccursAt([c] + r + pat, pat, i)
  {
    var first := [c] + r;
    assert !OccursAt(first + pat, pat, 0) by {
      assert (first + pat)[..|pat|] == s[..|pat|];
    }
    forall i | 1 <= i < |first| ensures !OccursAt(first + pat, pat, i) {
      assert first + pat == [c] + (r + pat);
      ShiftOccurrence(c, r + pat, pat, i - 1);
    }
  }

  /** An occurrence is unaffected by a character put in front. */
  lemma ShiftOccurrence(c: char, t: string, pat: string, i: nat)
    ensures OccursAt([c] + t, pat, i + 1) <==> OccursAt(t, pat, i)
  {
    if i + |pat| <= |t| {
      assert ([c] + t)[i + 1..i + 1 + |pat|] == t[i..i + |pat|];
    }
  }

  /** Text without an occurrence of the pattern comes back unchanged. */
  lemma {:induction false} ReplaceAbsent(s: string, pat: string, rep: string)
    requires |pat| > 0
    requires !Occurs(s, pat)
    ensures ReplaceAll(s, pat, rep) == s
    decreases |s|
  {
    if |s| < |pat| {
    } else {
      assert !OccursAt(s, pat, 0);
      assert s[..|pat|] != pat;
      forall i | OccursAt(s[1..], pat, i) ensures false {
        assert s[1..][i..i + |pat|] == s[i + 1..i + 1 + |pat|];
        assert OccursAt(s, pat, i + 1);
      }
      ReplaceAbsent(s[1..], pat, rep);
      assert s == [s[0]] + s[1..];
    }
  }

  /** Renaming a name to itself changes nothing. */
  lemma {:induction false} ReplaceSelf(s: string, pat: string)
    requires |pat| > 0
    ensures ReplaceAll(s, pat, pat) == s
  {
    JoinPiecesRestores(s, pat);
  }

  lemma {:induction false} JoinLength(ps: seq<string>, sep: string)
    requires |ps| >= 1
    ensures |Join(ps, sep)| == Sum(ps) + (|ps| - 1) * |sep|
    decreases |ps|
  {
    if |ps| > 1 {
      JoinLength(ps[1..], sep);
    }
  }

  /** Total length of the pieces. */
  function Sum(ps: seq<string>): nat
  {
    if ps == [] then 0 else |ps[0]| + Sum(ps[1..])
  }

  /** Each replaced occurrence changes the length by |rep| - |pat|. */
  lemma {:induction false} ReplaceLength(s: string, pat: string, rep: string)
    requires |pat| > 0
    ensures |ReplaceAll(s, pat, rep)| == |s| + (|Pieces(s, pat)| - 1) * (|rep| - |pat|)
  {
    var ps := Pieces(s, pat);
    JoinPiecesRestores(s, pat);
    JoinLength(ps, rep);
    JoinLength(ps, pat);
    var n := |ps| - 1;
    assert n * (|rep| - |pat|) == n * |rep| - n * |pat|;
  }
}
