/** The three `String` extensions of MultipeerNetworking.swift that normalise a
    networker's name and service type: a UTF-8 byte-bounded prefix, removal of the
    scalars of a character set, and collapsing of adjacent repeats of a string. */
module Strings {
  import opened Wrappers
  import Utf8

  /** `s` starts with `p`. */
  predicate IsPrefix(p: string, s: string)
  {
    |p| <= |s| && s[..|p|] == p
  }

  // ---------------------------------------------------------------------------
  // prefixUTF8Bytes

  /** `prefixUTF8Bytes(n)`: take the first n bytes of the UTF-8 encoding; if they
      are not valid UTF-8 (the cut falls inside a scalar), try again with n - 1. */
  function PrefixUtf8Bytes(s: string, n: int): string
    decreases n
  {
    if n <= 0 then ""
    else
      var bytes := Utf8.Encode(s);
      match Utf8.Decode(if n < |bytes| then bytes[..n] else bytes)
      case Some(r) => r
      case None => PrefixUtf8Bytes(s, n - 1)
  }

  /** The result is a scalar prefix of the input that fits in n bytes, and no longer
      scalar prefix fits: an input that already fits comes back unchanged. */
  lemma {:induction false} PrefixUtf8BytesSpec(s: string, n: int)
    ensures var r := PrefixUtf8Bytes(s, n);
      && IsPrefix(r, s)
      && (n <= 0 ==> r == "")
      && (n > 0 ==> Utf8.Length(r) <= n)
      && (forall k :: 0 <= k <= |s| && Utf8.Length(s[..k]) <= n ==> k <= |r|)
      && (Utf8.Length(s) <= n ==> r == s)
    decreases n
  {
    var r := PrefixUtf8Bytes(s, n);
    var bytes := Utf8.Encode(s);
    forall k | 0 < k <= |s|
      ensures 0 < Utf8.Length(s[..k])
    {
      Utf8.LengthOfPrefixesIncreases(s, 0, k);
    }
    if n <= 0 {
    } else if n >= |bytes| {
      Utf8.DecodeEncode(s);
      assert r == s;
    } else if exists k :: 0 <= k <= |s| && Utf8.Length(s[..k]) == n {
      var k :| 0 <= k <= |s| && Utf8.Length(s[..k]) == n;
      Utf8.DecodeBoundaryPrefix(s, k);
      assert r == s[..k];
      forall j | 0 <= j <= |s| && Utf8.Length(s[..j]) <= n
        ensures j <= |r|
      {
        if j > k {
          Utf8.LengthOfPrefixesIncreases(s, k, j);
        }
      }
    } else {
      Utf8.DecodeCutPrefix(s, n);
      assert r == PrefixUtf8Bytes(s, n - 1);
      PrefixUtf8BytesSpec(s, n - 1);
      assert s[..|s|] == s;
    }
  }

  // ---------------------------------------------------------------------------
  // removingCharacters(in:)

  /** A Foundation `CharacterSet`, built from explicit scalars or as the inverse of one. */
  datatype CharSet = Only(members: set<char>) | AllExcept(excluded: set<char>)
  {
    predicate Contains(c: char)
    {
      match this
      case Only(m) => c in m
      case AllExcept(x) => c !in x
    }

    /** `CharacterSet.inverted` */
    function Inverted(): (r: CharSet)
      ensures forall c :: r.Contains(c) <==> !Contains(c)
    {
      match this
      case Only(m) => AllExcept(m)
      case AllExcept(x) => Only(x)
    }
  }

  /** `removingCharacters(in:)`: keep the scalars that are not in the set. */
  function RemovingCharacters(s: string, cs: CharSet): (r: string)
    ensures |r| <= |s|
    ensures forall i :: 0 <= i < |r| ==> !cs.Contains(r[i])
  {
    if |s| == 0 then ""
    else (if cs.Contains(s[0]) then "" else [s[0]]) + RemovingCharacters(s[1..], cs)
  }

  /** Removal distributes over concatenation and acts on one scalar by dropping it
      exactly when it is in the set; together these fix the result: the scalars
      not in the set, in their original order. */
  lemma {:induction false} RemovingCharactersAppend(a: string, b: string, cs: CharSet)
    ensures RemovingCharacters(a + b, cs) == RemovingCharacters(a, cs) + RemovingCharacters(b, cs)
  {
    if |a| == 0 {
      assert a + b == b;
    } else {
      assert (a + b)[1..] == a[1..] + b;
      RemovingCharactersAppend(a[1..], b, cs);
    }
  }

  lemma RemovingCharactersOfScalar(c: char, cs: CharSet)
    ensures RemovingCharacters([c], cs) == if cs.Contains(c) then "" else [c]
  {
    assert [c][1..] == "";
  }

  /** Every scalar outside the set survives, so the result keeps exactly the
      scalars of `s` that are not in the set. */
  lemma {:induction false} RemovingCharactersKeeps(s: string, cs: CharSet, c: char)
    ensures c in RemovingCharacters(s, cs) <==> c in s && !cs.Contains(c)
  {
    if |s| > 0 {
      RemovingCharactersKeeps(s[1..], cs, c);
      assert s == [s[0]] + s[1..];
    }
  }

  /** Removing the same set twice removes nothing more. */
  lemma {:induction false} RemovingCharactersIdempotent(s: string, cs: CharSet)
    ensures RemovingCharacters(RemovingCharacters(s, cs), cs) == RemovingCharacters(s, cs)
  {
    if |s| > 0 {
      var head := if cs.Contains(s[0]) then "" else [s[0]];
      RemovingCharactersAppend(head, RemovingCharacters(s[1..], cs), cs);
      RemovingCharactersIdempotent(s[1..], cs);
      if !cs.Contains(s[0]) {
        RemovingCharactersOfScalar(s[0], cs);
      }
    }
  }

  // ---------------------------------------------------------------------------
  // replacingOccurrences(of:with:) and removingAdjacentOccurences(of:)

  /** `pat` occurs in `s` (`s.contains(pat)`). */
  predicate Contains(s: string, pat: string)
  {
    exists i :: 0 <= i <= |s| && OccursAt(s, pat, i)
  }

  /** `pat` occurs in `s` starting at index i. */
  predicate OccursAt(s: string, pat: string, i: nat)
  {
    i + |pat| <= |s| && s[i..i + |pat|] == pat
  }

  /** `replacingOccurrences(of: pat, with: rep)`: scan left to right, replacing each
      non-overlapping occurrence of `pat`. */
  function ReplacingOccurrences(s: string, pat: string, rep: string): (r: string)
    requires |pat| > 0
    ensures |rep| <= |pat| ==> |r| <= |s|
    ensures |rep| < |pat| && Contains(s, pat) ==> |r| < |s|
    decreases |s|
  {
    if |s| < |pat| then
      s
    else if s[..|pat|] == pat then
      rep + ReplacingOccurrences(s[|pat|..], pat, rep)
    else
      var r := [s[0]] + ReplacingOccurrences(s[1..], pat, rep);
      assert Contains(s, pat) ==> Contains(s[1..], pat) by {
        if Contains(s, pat) {
          var i :| 0 <= i <= |s| && OccursAt(s, pat, i);
          assert i != 0;
          assert s[1..][i - 1..i - 1 + |pat|] == pat;
          assert OccursAt(s[1..], pat, i - 1);
        }
      }
      r
  }

  /** `removingAdjacentOccurences(of: solo)`: while `solo + solo` occurs, replace
      every occurrence by `solo`. Each round shortens the string, so the loop ends,
      and it ends with no `solo + solo` left. */
  function RemovingAdjacentOccurrences(s: string, solo: string): (r: string)
    requires |solo| > 0
    ensures !Contains(r, solo + solo)
    ensures |r| <= |s|
    decreases |s|
  {
    var twice := solo + solo;
    if Contains(s, twice) then
      RemovingAdjacentOccurrences(ReplacingOccurrences(s, twice, solo), solo)
    else
      s
  }

  /** Reference definition: every maximal run of `c` becomes a single `c`; every
      other scalar is kept in order. */
  function CollapseRuns(s: string, c: char): string
    decreases |s|
  {
    if |s| <= 1 then s
    else if s[0] == c && s[1] == c then CollapseRuns(s[1..], c)
    else [s[0]] + CollapseRuns(s[1..], c)
  }

  /** One replacement round does not change the collapsed form (with any one
      scalar in front). */
  lemma {:induction false} CollapseAfterReplaceFrom(x: char, t: string, c: char)
    ensures CollapseRuns([x] + ReplacingOccurrences(t, [c, c], [c]), c) == CollapseRuns([x] + t, c)
    decreases |t|
  {
    var cc := [c, c];
    if |t| < 2 {
    } else if t[..2] == cc {
      var rest := t[2..];
      assert ReplacingOccurrences(t, cc, [c]) == [c] + ReplacingOccurrences(rest, cc, [c]);
      CollapseAfterReplaceFrom(c, rest, c);
      assert ([x] + t)[1..] == [c] + ([c] + rest);
      assert ([c] + ([c] + rest))[1..] == [c] + rest;
      assert ([x] + ([c] + ReplacingOccurrences(rest, cc, [c])))[1..] == [c] + ReplacingOccurrences(rest, cc, [c]);
    } else {
      var rest := t[1..];
      assert ReplacingOccurrences(t, cc, [c]) == [t[0]] + ReplacingOccurrences(rest, cc, [c]);
      CollapseAfterReplaceFrom(t[0], rest, c);
      assert ([x] + t)[1..] == [t[0]] + rest;
      assert ([x] + ([t[0]] + ReplacingOccurrences(rest, cc, [c])))[1..] == [t[0]] + ReplacingOccurrences(rest, cc, [c]);
    }
  }

  lemma CollapseAfterReplace(t: string, c: char)
    ensures CollapseRuns(ReplacingOccurrences(t, [c, c], [c]), c) == CollapseRuns(t, c)
  {
    var cc := [c, c];
    if |t| < 2 {
    } else if t[..2] == cc {
      CollapseAfterReplaceFrom(c, t[2..], c);
      assert t[1..] == [c] + t[2..];
    } else {
      CollapseAfterReplaceFrom(t[0], t[1..], c);
      assert t == [t[0]] + t[1..];
    }
  }

  /** A string with no `cc` is already collapsed. */
  lemma {:induction false} CollapseFixed(t: string, c: char)
    requires !Contains(t, [c, c])
    ensures CollapseRuns(t, c) == t
    decreases |t|
  {
    if |t| >= 2 {
      assert !OccursAt(t, [c, c], 0);
      assert t[0..2] == [t[0], t[1]];
      forall i | 0 <= i <= |t[1..]|
        ensures !OccursAt(t[1..], [c, c], i)
      {
        assert !OccursAt(t, [c, c], i + 1);
        if i + 2 <= |t[1..]| {
          assert t[1..][i..i + 2] == t[i + 1..i + 1 + 2];
        }
      }
      CollapseFixed(t[1..], c);
    }
  }

  /** For a one-scalar string, removing adjacent occurrences collapses every
      maximal run of that scalar to one and keeps everything else in order. */
  lemma {:induction false} RemovingAdjacentCollapsesRuns(s: string, c: char)
    ensures RemovingAdjacentOccurrences(s, [c]) == CollapseRuns(s, c)
    decreases |s|
  {
    assert [c] + [c] == [c, c];
    if Contains(s, [c, c]) {
      var s' := ReplacingOccurrences(s, [c, c], [c]);
      RemovingAdjacentCollapsesRuns(s', c);
      CollapseAfterReplace(s, c);
    } else {
      CollapseFixed(s, c);
    }
  }
}
