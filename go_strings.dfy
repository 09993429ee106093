/** The two Go `strings` operations the flight-number strip relies on:
    strings.Index and strings.Replace(s, code, "", -1). Go strings are byte
    strings; here a string is a sequence of characters (for valid UTF-8 the
    matches are the same). */
module GoStrings {

  /** `sub` occurs in `s` starting at index `i`. */
  predicate OccursAt(s: string, sub: string, i: nat) {
    i + |sub| <= |s| && s[i..i + |sub|] == sub
  }

  /** An occurrence in `s[1..]` at `j` is an occurrence in `s` at `j + 1`. */
  lemma OccursShiftAt(s: string, sub: string, j: nat)
    requires s != []
    ensures OccursAt(s[1..], sub, j) <==> OccursAt(s, sub, j + 1)
  {
    if j + |sub| <= |s| - 1 {
      assert s[1..][j..j + |sub|] == s[j + 1..j + 1 + |sub|];
    }
  }

  /** Occurrences in `s[1..]` are the occurrences in `s` past index 0, shifted left by one. */
  lemma OccursShift(s: string, sub: string)
    requires s != []
    ensures forall j: nat :: OccursAt(s[1..], sub, j) ==> OccursAt(s, sub, j + 1)
    ensures forall j: nat :: 0 < j && OccursAt(s, sub, j) ==> OccursAt(s[1..], sub, j - 1)
  {
    forall j: nat
      ensures OccursAt(s[1..], sub, j) <==> OccursAt(s, sub, j + 1)
    {
      OccursShiftAt(s, sub, j);
    }
  }

  /** Go's strings.Index: the first index at which `sub` occurs in `s`, or -1. */
  function Index(s: string, sub: string): (i: int)
    ensures -1 <= i
    ensures i >= 0 ==> OccursAt(s, sub, i) && forall j: nat :: j < i ==> !OccursAt(s, sub, j)
    ensures i == -1 ==> forall j: nat :: !OccursAt(s, sub, j)
    decreases |s|
  {
    if OccursAt(s, sub, 0) then 0
    else if s == [] then -1
    else
      OccursShift(s, sub);
      var j := Index(s[1..], sub);
      if j < 0 then -1 else j + 1
  }

  /** strings.Replace(s, sub, "", -1), following Go's algorithm: an empty
      `sub` equals the empty replacement and leaves `s` as it is; otherwise
      find the leftmost occurrence with Index, drop it, and continue after it. */
  function DeleteAll(s: string, sub: string): (r: string)
    ensures |r| <= |s|
    ensures forall c :: c in r ==> c in s
    decreases |s|
  {
    if sub == [] then s
    else
      var j := Index(s, sub);
      if j < 0 then s else s[..j] + DeleteAll(s[j + |sub|..], sub)
  }

  /** Reference definition of the deletion: scan `s` from the left; where
      `sub` starts, skip it, otherwise keep one character. */
  function Scrubbed(s: string, sub: string): string
    decreases |s|
  {
    if sub == [] || s == [] then s
    else if OccursAt(s, sub, 0) then Scrubbed(s[|sub|..], sub)
    else [s[0]] + Scrubbed(s[1..], sub)
  }

  /** The number of non-overlapping occurrences of a non-empty `sub` in `s`,
      counted left to right (Go's strings.Count). */
  function Count(s: string, sub: string): nat
    requires sub != []
    decreases |s|
  {
    if s == [] then 0
    else if OccursAt(s, sub, 0) then 1 + Count(s[|sub|..], sub)
    else Count(s[1..], sub)
  }

  /** Scrubbing keeps a prefix without occurrences as it is, and counts nothing in it. */
  lemma {:induction false} ScrubSkip(s: string, sub: string, k: nat)
    requires sub != [] && k <= |s|
    requires forall j: nat :: j < k ==> !OccursAt(s, sub, j)
    ensures Scrubbed(s, sub) == s[..k] + Scrubbed(s[k..], sub)
    ensures Count(s, sub) == Count(s[k..], sub)
    decreases k
  {
    if k > 0 {
      var t := s[1..];
      assert !OccursAt(s, sub, 0);
      assert Scrubbed(s, sub) == [s[0]] + Scrubbed(t, sub);
      assert Count(s, sub) == Count(t, sub);
      forall j: nat | j < k - 1
        ensures !OccursAt(t, sub, j)
      {
        OccursShiftAt(s, sub, j);
      }
      ScrubSkip(t, sub, k - 1);
      assert t[k - 1..] == s[k..];
      assert [s[0]] + t[..k - 1] == s[..k];
    }
  }

  /** Go's Index-driven deletion agrees with the left-to-right scan. */
  lemma {:induction false} DeleteAllIsScrubbed(s: string, sub: string)
    ensures DeleteAll(s, sub) == Scrubbed(s, sub)
    decreases |s|
  {
    if sub != [] {
      var j := Index(s, sub);
      if j < 0 {
        ScrubSkip(s, sub, |s|);
        assert s[..|s|] == s;
      } else {
        ScrubSkip(s, sub, j);
        var rest := s[j..];
        assert OccursAt(rest, sub, 0) by {
          assert rest[..|sub|] == s[j..j + |sub|];
        }
        assert rest[|sub|..] == s[j + |sub|..];
        DeleteAllIsScrubbed(s[j + |sub|..], sub);
      }
    }
  }

  /** One step of the scan: an occurrence at the front is skipped and
      counted, any other first character is kept. */
  lemma ScrubStep(s: string, sub: string)
    requires sub != [] && s != []
    ensures OccursAt(s, sub, 0) ==>
              |Scrubbed(s, sub)| == |Scrubbed(s[|sub|..], sub)| && Count(s, sub) == Count(s[|sub|..], sub) + 1
    ensures !OccursAt(s, sub, 0) ==>
              |Scrubbed(s, sub)| == |Scrubbed(s[1..], sub)| + 1 && Count(s, sub) == Count(s[1..], sub)
  {
  }

  /** Each counted occurrence removes exactly |sub| characters. */
  lemma {:induction false} ScrubbedLength(s: string, sub: string)
    requires sub != []
    ensures |Scrubbed(s, sub)| == |s| - Count(s, sub) * |sub|
    decreases |s|
  {
    if s != [] {
      ScrubStep(s, sub);
      if OccursAt(s, sub, 0) {
        var rest := s[|sub|..];
        var c := Count(rest, sub);
        ScrubbedLength(rest, sub);
        assert (c + 1) * |sub| == c * |sub| + |sub|;
      } else {
        ScrubbedLength(s[1..], sub);
      }
    }
  }

  /** Nothing is counted exactly when `sub` occurs nowhere in `s`. */
  lemma {:induction false} CountZeroIff(s: string, sub: string)
    requires sub != []
    ensures Count(s, sub) == 0 <==> forall j: nat :: !OccursAt(s, sub, j)
    decreases |s|
  {
    if s != [] && !OccursAt(s, sub, 0) {
      OccursShift(s, sub);
      CountZeroIff(s[1..], sub);
      if Count(s, sub) != 0 {
        var j: nat :| OccursAt(s[1..], sub, j);
        assert OccursAt(s, sub, j + 1);
      }
    }
  }

  /** The length of the stripped string: |s| minus |sub| for every occurrence
      removed; so never longer than `s`. */
  lemma DeleteAllLength(s: string, sub: string)
    requires sub != []
    ensures |DeleteAll(s, sub)| == |s| - Count(s, sub) * |sub|
  {
    DeleteAllIsScrubbed(s, sub);
    ScrubbedLength(s, sub);
  }

  /** An empty `sub`, or one that does not occur, leaves `s` unchanged; a
      non-empty `sub` that does occur shortens it by at least |sub|. */
  lemma DeleteAllUnchanged(s: string, sub: string)
    ensures DeleteAll(s, sub) == s <==> sub == [] || forall j: nat :: !OccursAt(s, sub, j)
    ensures DeleteAll(s, sub) != s ==> |DeleteAll(s, sub)| <= |s| - |sub|
  {
    if sub != [] {
      DeleteAllLength(s, sub);
      CountZeroIff(s, sub);
    }
  }

  /** The example from the flight list: "AA100" without "AA" is "100". */
  lemma DeleteAllExample()
    ensures DeleteAll("AA100", "AA") == "100"
  {
    assert OccursAt("AA100", "AA", 0);
    assert "AA100"[2..] == "100";
    assert Index("100", "AA") == -1 by {
      assert "100"[0] != 'A';
      assert !OccursAt("100", "AA", 0);
    }
  }
}
