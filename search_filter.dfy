/** The search box over the raw lines of a processed file (`filteredContents`): a line is
    shown when its lower-cased text contains the lower-cased search term. */
module SearchFilter {
  import opened Common

  /** `toLowerCase` on one character, for the ASCII letters. */
  function LowerChar(c: char): char {
    if 'A' <= c <= 'Z' then ((c as int) + 32) as char else c
  }

  function Lower(s: string): (r: string)
    ensures |r| == |s|
  {
    seq(|s|, i requires 0 <= i < |s| => LowerChar(s[i]))
  }

  /** `String.prototype.includes`: some suffix of `s` starts with `t`. */
  function Includes(s: string, t: string): bool
    decreases |s|
  {
    StartsWith(s, t) || (s != [] && Includes(s[1..], t))
  }

  /** `t` occurs in `s` at offset `i`. */
  ghost predicate OccursAt(s: string, t: string, i: nat) {
    i + |t| <= |s| && s[i..i + |t|] == t
  }

  /** The test `filter` applies to each line. */
  predicate LineMatches(line: string, term: string) {
    Includes(Lower(line), Lower(term))
  }

  /** `rawContents.filter(...)`: the matching lines, in their original order. */
  function Filter(lines: seq<string>, term: string): (r: seq<string>)
    ensures |r| <= |lines|
  {
    if lines == [] then []
    else
      var last := lines[|lines| - 1];
      Filter(lines[..|lines| - 1], term) + (if LineMatches(last, term) then [last] else [])
  }

  /** `filteredContents`: nothing before any file has been processed, every line while the
      (debounced) term is empty, and otherwise the lines that contain the term, ignoring case.
      The empty-term shortcut gives what the filter itself would give. */
  function FilteredContents(rawContents: Option<seq<string>>, term: string): (r: seq<string>)
    ensures rawContents.None? ==> r == []
    ensures rawContents.Some? ==> r == Filter(rawContents.value, term)
  {
    if rawContents.None? then []
    else if term == "" then
      FilterEmptyTerm(rawContents.value);
      rawContents.value
    else Filter(rawContents.value, term)
  }

  // ---------------------------------------------------------------------------------------
  // Properties.

  /** `includes` finds `t` exactly when `t` occurs somewhere in `s`. */
  lemma {:induction false} IncludesIffOccurs(s: string, t: string)
    ensures Includes(s, t) <==> exists i: nat :: OccursAt(s, t, i)
    decreases |s|
  {
    if StartsWith(s, t) {
      assert OccursAt(s, t, 0);
    } else if s == [] {
    } else {
      IncludesIffOccurs(s[1..], t);
      if Includes(s[1..], t) {
        var i: nat :| OccursAt(s[1..], t, i);
        assert s[i + 1..i + 1 + |t|] == s[1..][i..i + |t|];
        assert OccursAt(s, t, i + 1);
      }
      forall i: nat | OccursAt(s, t, i) ensures Includes(s[1..], t) {
        assert i != 0;
        assert s[1..][i - 1..i - 1 + |t|] == s[i..i + |t|];
        assert OccursAt(s[1..], t, i - 1);
      }
    }
  }

  /** The empty term occurs in every line. */
  lemma IncludesEmpty(s: string)
    ensures Includes(s, "")
  {
    assert s[..0] == "";
  }

  lemma {:induction false} FilterEmptyTerm(lines: seq<string>)
    ensures Filter(lines, "") == lines
  {
    if lines != [] {
      FilterEmptyTerm(lines[..|lines| - 1]);
      IncludesEmpty(Lower(lines[|lines| - 1]));
      assert Lower("") == "";
      assert lines[..|lines| - 1] + [lines[|lines| - 1]] == lines;
    }
  }

  /** The filter works line by line: it distributes over concatenation. */
  lemma {:induction false} FilterAppend(a: seq<string>, b: seq<string>, term: string)
    ensures Filter(a + b, term) == Filter(a, term) + Filter(b, term)
    decreases |b|
  {
    if b == [] {
      assert a + b == a;
    } else {
      var last := b[|b| - 1];
      assert (a + b)[..|a + b| - 1] == a + b[..|b| - 1];
      FilterAppend(a, b[..|b| - 1], term);
    }
  }

  /** A single line is kept exactly when it matches. */
  lemma FilterSingle(line: string, term: string)
    ensures Filter([line], term) == (if LineMatches(line, term) then [line] else [])
  {
    assert [line][..0] == [];
  }

  /** Each line is kept exactly as many times as it occurs when it matches, and never
      otherwise. */
  lemma {:induction false} FilterCounts(lines: seq<string>, term: string, x: string)
    ensures multiset(Filter(lines, term))[x] == if LineMatches(x, term) then multiset(lines)[x] else 0
  {
    if lines != [] {
      var init, last := lines[..|lines| - 1], lines[|lines| - 1];
      FilterCounts(init, term, x);
      assert lines == init + [last];
    }
  }

  /** Every line shown matches, and every matching line is shown. */
  lemma FilterMembership(lines: seq<string>, term: string, x: string)
    ensures x in Filter(lines, term) <==> x in lines && LineMatches(x, term)
  {
    FilterCounts(lines, term, x);
  }

  lemma LowerIdempotent(s: string)
    ensures Lower(Lower(s)) == Lower(s)
  {
  }

  /** The search ignores case on both sides. */
  lemma MatchIgnoresCase(line: string, term: string)
    ensures LineMatches(line, term) <==> LineMatches(Lower(line), Lower(term))
  {
    LowerIdempotent(line);
    LowerIdempotent(term);
  }

  /** Changes the case of an ASCII letter and leaves any other character alone. */
  function SwapCase(c: char): (d: char)
    ensures LowerChar(d) == LowerChar(c)
  {
    if 'A' <= c <= 'Z' then ((c as int) + 32) as char
    else if 'a' <= c <= 'z' then ((c as int) - 32) as char
    else c
  }

  /** Strings that agree letter for letter up to case have the same lower-cased form. */
  lemma SameUpToCase(a: string, b: string)
    requires |a| == |b| && forall k :: 0 <= k < |a| ==> LowerChar(a[k]) == LowerChar(b[k])
    ensures Lower(a) == Lower(b)
  {
    assert forall k :: 0 <= k < |a| ==> Lower(a)[k] == Lower(b)[k];
  }

  /** Changing the case of any one letter of the line does not change whether it is shown. */
  lemma MatchIgnoresLineCase(line: string, term: string, i: nat)
    requires i < |line|
    ensures LineMatches(line[i := SwapCase(line[i])], term) <==> LineMatches(line, term)
  {
    SameUpToCase(line[i := SwapCase(line[i])], line);
  }

  /** Changing the case of any one letter of the term does not change which lines are shown. */
  lemma MatchIgnoresTermCase(line: string, term: string, j: nat)
    requires j < |term|
    ensures LineMatches(line, term[j := SwapCase(term[j])]) <==> LineMatches(line, term)
  {
    SameUpToCase(term[j := SwapCase(term[j])], term);
  }

  lemma SliceOfSlice(s: string, i: nat, m: nat, j: nat, n: nat)
    requires i + m <= |s| && j + n <= m
    ensures s[i..i + m][j..j + n] == s[i + j..i + j + n]
  {
    var a, b := s[i..i + m][j..j + n], s[i + j..i + j + n];
    assert forall k :: 0 <= k < n ==> a[k] == b[k];

  }

  lemma {:induction false} IncludesTransitive(s: string, t: string, u: string)
    requires Includes(s, t) && Includes(t, u)
    ensures Includes(s, u)
  {
    IncludesIffOccurs(s, t);
    IncludesIffOccurs(t, u);
    var i: nat :| OccursAt(s, t, i);
    var j: nat :| OccursAt(t, u, j);
    SliceOfSlice(s, i, |t|, j, |u|);
    assert OccursAt(s, u, i + j);
    IncludesIffOccurs(s, u);
  }

  /** Typing more of a term only narrows the result: every line shown for a term that
      contains `shorter` (ignoring case) is also shown for `shorter`. */
  lemma FilterNarrows(lines: seq<string>, longer: string, shorter: string, x: string)
    requires Includes(Lower(longer), Lower(shorter))
    ensures x in Filter(lines, longer) ==> x in Filter(lines, shorter)
  {
    FilterMembership(lines, longer, x);
    FilterMembership(lines, shorter, x);
    if x in Filter(lines, longer) {
      IncludesTransitive(Lower(x), Lower(longer), Lower(shorter));
    }
  }
}
