/** The line cleaner shown in the results table (`cleanLineContent`): field delimiters become
    spaces, whitespace runs collapse to one space, and the ends are trimmed. */
module TextNormalizer {

  /** The characters of JavaScript's `\s` class; `String.prototype.trim` removes the same set. */
  predicate IsWhitespace(c: char) {
    c == ' ' || c == '\t' || c == '\n' || c == '\r' || c == '\U{000B}' || c == '\U{000C}'
    || c == '\U{00A0}' || c == '\U{1680}' || ('\U{2000}' <= c <= '\U{200A}')
    || c == '\U{2028}' || c == '\U{2029}' || c == '\U{202F}' || c == '\U{205F}'
    || c == '\U{3000}' || c == '\U{FEFF}'
  }

  /** The three field delimiters the cleaner turns into spaces. */
  predicate IsDelimiter(c: char) {
    c == '|' || c == '^' || c == ','
  }

  /** A character that separates two words of a cleaned line. */
  predicate IsSeparator(c: char) {
    IsWhitespace(c) || IsDelimiter(c)
  }

  /** `s.replace(/c/g, ' ')` for the single character `c`. */
  function ReplaceWithSpace(s: string, c: char): string {
    seq(|s|, i requires 0 <= i < |s| => if s[i] == c then ' ' else s[i])
  }

  /** The leading half of `trim`: drops the whitespace at the start of `s`. */
  function TrimStart(s: string): (r: string)
    ensures |r| <= |s|
  {
    if s != [] && IsWhitespace(s[0]) then TrimStart(s[1..]) else s
  }

  /** The trailing half of `trim`: drops the whitespace at the end of `s`. */
  function TrimEnd(s: string): (r: string)
    ensures |r| <= |s|
  {
    if s != [] && IsWhitespace(s[|s| - 1]) then TrimEnd(s[..|s| - 1]) else s
  }

  /** `String.prototype.trim`. */
  function Trim(s: string): string {
    TrimEnd(TrimStart(s))
  }

  /** `s.replace(/\s+/g, ' ')`: every maximal run of whitespace becomes one space. */
  function CollapseWhitespace(s: string): string
    decreases |s|
  {
    if s == [] then []
    else if IsWhitespace(s[0]) then " " + CollapseWhitespace(TrimStart(s))
    else [s[0]] + CollapseWhitespace(s[1..])
  }

  /** `cleanLineContent`: the chain of the three delimiter replacements, the whitespace
      collapse and the trim; an empty line gives the empty string. */
  function CleanLineContent(line: string): string {
    if line == "" then ""
    else
      var replaced := ReplaceWithSpace(ReplaceWithSpace(ReplaceWithSpace(line, '|'), '^'), ',');
      Trim(CollapseWhitespace(replaced))
  }

  // ---------------------------------------------------------------------------------------
  // The reference definition: a cleaned line is the words of the line joined by one space.

  /** Drops the separators at the start of `s`. */
  function SkipSeparators(s: string): (r: string)
    ensures |r| <= |s|
  {
    if s != [] && IsSeparator(s[0]) then SkipSeparators(s[1..]) else s
  }

  /** The length of the longest prefix of `s` that holds no separator. */
  function WordLength(s: string): (n: nat)
    ensures n <= |s|
  {
    if s != [] && !IsSeparator(s[0]) then 1 + WordLength(s[1..]) else 0
  }

  /** The maximal runs of characters of `s` that are neither whitespace nor a delimiter,
      in the order in which they occur. */
  function Words(s: string): seq<string>
    decreases |s|
  {
    var t := SkipSeparators(s);
    if t == [] then []
    else
      var n := WordLength(t);
      [t[..n]] + Words(t[n..])
  }

  /** A non-empty string without separators. */
  predicate IsWord(w: string) {
    w != [] && forall i :: 0 <= i < |w| ==> !IsSeparator(w[i])
  }

  /** The words joined by single spaces. */
  function JoinWords(ws: seq<string>): string {
    if ws == [] then ""
    else if |ws| == 1 then ws[0]
    else ws[0] + " " + JoinWords(ws[1..])
  }

  /** What every cleaned line looks like: no delimiter, no whitespace other than the plain
      space, no whitespace at either end and no two whitespace characters side by side. */
  predicate IsClean(t: string) {
    (forall i :: 0 <= i < |t| ==> !IsDelimiter(t[i]) && (IsWhitespace(t[i]) ==> t[i] == ' '))
    && (t != [] ==> !IsWhitespace(t[0]) && !IsWhitespace(t[|t| - 1]))
    && (forall i :: 0 <= i < |t| - 1 ==> !(IsWhitespace(t[i]) && IsWhitespace(t[i + 1])))
  }

  // ---------------------------------------------------------------------------------------
  // Properties of the cleaner.

  /** The cleaner returns the words of the line joined by single spaces. */
  lemma {:induction false} CleanLineContentIsJoinedWords(line: string)
    ensures CleanLineContent(line) == JoinWords(Words(line))
  {
    if line == "" {
      assert Words(line) == [];
    } else {
      var replaced := ReplaceWithSpace(ReplaceWithSpace(ReplaceWithSpace(line, '|'), '^'), ',');
      ReplacedCorresponds(line);
      CollapseShape(replaced, line);
      WordsAreWords(line);
      JoinWordsEdges(Words(line));
      TrimFrame(Lead(replaced), JoinWords(Words(line)), Trail(replaced, line));
    }
  }

  /** Empty input gives the empty string. */
  lemma CleanLineContentOfEmpty()
    ensures CleanLineContent("") == ""
  {
  }

  /** The output of the cleaner holds no `|`, `^` or `,`, no whitespace at either end and no
      two adjacent whitespace characters. */
  lemma {:induction false} CleanLineContentIsClean(line: string)
    ensures IsClean(CleanLineContent(line))
  {
    CleanLineContentIsJoinedWords(line);
    WordsAreWords(line);
    JoinWordsIsClean(Words(line));
  }

  /** Cleaning a cleaned line changes nothing. */
  lemma {:induction false} CleanLineContentIdempotent(line: string)
    ensures CleanLineContent(CleanLineContent(line)) == CleanLineContent(line)
  {
    var t := CleanLineContent(line);
    CleanLineContentIsJoinedWords(line);
    CleanLineContentIsJoinedWords(t);
    WordsAreWords(line);
    WordsOfJoinWords(Words(line));
  }

  /** The behaviour on a line with every delimiter. */
  lemma CleanLineContentExample(line: string)
    requires line == "A|B^C,D"
    ensures CleanLineContent(line) == "A B C D"
  {
    CleanLineContentIsJoinedWords(line);
    ExampleWords(line);
    assert JoinWords(["A", "B", "C", "D"]) == "A B C D";
  }

  lemma ExampleWords(line: string)
    requires line == "A|B^C,D"
    ensures Words(line) == ["A", "B", "C", "D"]
  {
    FourWords("A", "B", "C", "D", '|', '^', ',');
    assert "A" + ['|'] + ("B" + ['^'] + ("C" + [','] + "D")) == line;
  }

  lemma FourWords(w1: string, w2: string, w3: string, w4: string, c1: char, c2: char, c3: char)
    requires IsWord(w1) && IsWord(w2) && IsWord(w3) && IsWord(w4)
    requires IsSeparator(c1) && IsSeparator(c2) && IsSeparator(c3)
    ensures Words(w1 + [c1] + (w2 + [c2] + (w3 + [c3] + w4))) == [w1, w2, w3, w4]
  {
    SingleWord(w4);
    WordsCons(w3, c3, w4);
    WordsCons(w2, c2, w3 + [c3] + w4);
    WordsCons(w1, c1, w2 + [c2] + (w3 + [c3] + w4));
  }

  // ---------------------------------------------------------------------------------------
  // Helpers for the proofs above.

  lemma {:induction false} TrimStartFacts(s: string)
    ensures var r := TrimStart(s);
            r == s[|s| - |r|..] && (r == [] || !IsWhitespace(r[0]))
  {
    if s != [] && IsWhitespace(s[0]) {
      TrimStartFacts(s[1..]);
    }
  }

  lemma {:induction false} TrimEndFacts(s: string)
    ensures var r := TrimEnd(s);
            r == s[..|r|] && (r == [] || !IsWhitespace(r[|r| - 1]))
  {
    if s != [] && IsWhitespace(s[|s| - 1]) {
      TrimEndFacts(s[..|s| - 1]);
    }
  }

  lemma {:induction false} SkipSeparatorsFacts(s: string)
    ensures var r := SkipSeparators(s);
            r == s[|s| - |r|..] && (r == [] || !IsSeparator(r[0]))
    ensures var r := SkipSeparators(s);
            forall i :: 0 <= i < |s| - |r| ==> IsSeparator(s[i])
  {
    if s != [] && IsSeparator(s[0]) {
      SkipSeparatorsFacts(s[1..]);
      var r := SkipSeparators(s);
      forall i | 0 <= i < |s| - |r| ensures IsSeparator(s[i]) {
        if i > 0 {
          assert s[i] == s[1..][i - 1];
        }
      }
    }
  }

  lemma {:induction false} WordLengthFacts(s: string)
    ensures var n := WordLength(s);
            (forall i :: 0 <= i < n ==> !IsSeparator(s[i])) && (n == |s| || IsSeparator(s[n]))
  {
    if s != [] && !IsSeparator(s[0]) {
      WordLengthFacts(s[1..]);
      var n := WordLength(s);
      forall i | 0 <= i < n ensures !IsSeparator(s[i]) {
        if i > 0 {
          assert s[i] == s[1..][i - 1];
        }
      }
      if n < |s| {
        assert s[n] == s[1..][n - 1];
      }
    }
  }

  /** `r` is `s` with every separator replaced by a whitespace character. */
  ghost predicate Corresponds(r: string, s: string) {
    |r| == |s| &&
    forall i :: 0 <= i < |s| ==>
      (IsWhitespace(r[i]) <==> IsSeparator(s[i])) && (!IsSeparator(s[i]) ==> r[i] == s[i])
  }

  lemma ReplacedCorresponds(line: string)
    ensures Corresponds(ReplaceWithSpace(ReplaceWithSpace(ReplaceWithSpace(line, '|'), '^'), ','), line)
  {
    var a := ReplaceWithSpace(line, '|');
    var b := ReplaceWithSpace(a, '^');
    var c := ReplaceWithSpace(b, ',');
    forall i | 0 <= i < |line|
      ensures c[i] == if IsDelimiter(line[i]) then ' ' else line[i]
    {
      assert a[i] == if line[i] == '|' then ' ' else line[i];
      assert b[i] == if a[i] == '^' then ' ' else a[i];
    }
  }

  function Lead(r: string): string {
    if r != [] && IsWhitespace(r[0]) then " " else ""
  }

  function Trail(r: string, s: string): string {
    if Words(s) != [] && r != [] && IsWhitespace(r[|r| - 1]) then " " else ""
  }

  lemma CorrespondsSuffix(r: string, s: string, k: nat)
    requires Corresponds(r, s) && k <= |s|
    ensures Corresponds(r[k..], s[k..])
  {
    forall i | 0 <= i < |s| - k
      ensures (IsWhitespace(r[k..][i]) <==> IsSeparator(s[k..][i]))
      ensures (!IsSeparator(s[k..][i]) ==> r[k..][i] == s[k..][i])
    {
      assert r[k..][i] == r[k + i] && s[k..][i] == s[k + i];
    }
  }

  lemma {:induction false} TrimStartCorresponds(r: string, s: string)
    requires Corresponds(r, s)
    ensures |TrimStart(r)| == |SkipSeparators(s)|
    decreases |s|
  {
    if s != [] && IsSeparator(s[0]) {
      CorrespondsSuffix(r, s, 1);
      TrimStartCorresponds(r[1..], s[1..]);
    }
  }

  lemma WordsOfSkipped(s: string)
    ensures Words(SkipSeparators(s)) == Words(s)
  {
    var t := SkipSeparators(s);
    SkipSeparatorsFacts(s);
    assert SkipSeparators(t) == t;
  }

  lemma WordsEmptyEndsInSeparator(s: string)
    requires s != [] && Words(s) == []
    ensures IsSeparator(s[|s| - 1])
  {
    SkipSeparatorsFacts(s);
    assert SkipSeparators(s) == [];
  }

  lemma {:induction false} CollapseWordPrefix(r: string, n: nat)
    requires n <= |r|
    requires forall i :: 0 <= i < n ==> !IsWhitespace(r[i])
    ensures CollapseWhitespace(r) == r[..n] + CollapseWhitespace(r[n..])
  {
    if n > 0 {
      assert forall i :: 0 <= i < n - 1 ==> r[1..][i] == r[i + 1];
      CollapseWordPrefix(r[1..], n - 1);
      assert r[1..][n - 1..] == r[n..];
      assert r[..n] == [r[0]] + r[1..][..n - 1];
    }
  }

  /** A collapsed line is the joined words with at most one space at each end. */
  lemma {:induction false} CollapseShape(r: string, s: string)
    requires Corresponds(r, s)
    ensures CollapseWhitespace(r) == Lead(r) + JoinWords(Words(s)) + Trail(r, s)
    decreases |s|
  {
    if s == [] {
      assert Words(s) == [];
    } else if IsWhitespace(r[0]) {
      var t := TrimStart(r);
      TrimStartFacts(r);
      TrimStartCorresponds(r, s);
      var k := |r| - |t|;
      CorrespondsSuffix(r, s, k);
      CollapseShape(t, s[k..]);
      CollapseShapeSpace(r, s, k);
    } else {
      var n := WordLength(s);
      CorrespondsSuffix(r, s, n);
      if n < |s| {
        CollapseShape(r[n..], s[n..]);
      }
      CollapseShapeWord(r, s, n);
    }
  }

  lemma CollapseShapeSpace(r: string, s: string, k: nat)
    requires Corresponds(r, s) && s != [] && IsWhitespace(r[0])
    requires k == |r| - |TrimStart(r)| && |TrimStart(r)| == |SkipSeparators(s)|
    requires TrimStart(r) == r[k..] && (r[k..] == [] || !IsWhitespace(r[k]))
    requires CollapseWhitespace(r[k..]) == Lead(r[k..]) + JoinWords(Words(s[k..])) + Trail(r[k..], s[k..])
    ensures CollapseWhitespace(r) == Lead(r) + JoinWords(Words(s)) + Trail(r, s)
  {
    var t := r[k..];
    SkipSeparatorsFacts(s);
    assert SkipSeparators(s) == s[k..];
    WordsOfSkipped(s);
    var j := JoinWords(Words(s));
    var tr := Trail(r, s);
    assert Words(s[k..]) == Words(s);
    assert Lead(t) == "";
    assert t != [] ==> t[|t| - 1] == r[|r| - 1];
    assert Trail(t, s[k..]) == tr;
    EmptyAppend(j, tr);
    assert CollapseWhitespace(t) == j + tr;
    assert CollapseWhitespace(r) == " " + CollapseWhitespace(t);
    assert Lead(r) == " ";
    AppendAssoc(" ", j, tr);
  }

  lemma EmptyAppend(a: string, b: string)
    ensures "" + a + b == a + b
  {
  }

  lemma AppendAssoc(a: string, b: string, c: string)
    ensures a + (b + c) == a + b + c
  {
  }

  lemma AppendAssoc4(a: string, b: string, c: string, d: string)
    ensures a + (b + c + d) == "" + (a + b + c) + d
  {
  }

  lemma CollapseShapeWord(r: string, s: string, n: nat)
    requires Corresponds(r, s) && s != [] && !IsWhitespace(r[0])
    requires n == WordLength(s)
    requires n < |s| ==>
      CollapseWhitespace(r[n..]) == Lead(r[n..]) + JoinWords(Words(s[n..])) + Trail(r[n..], s[n..])
    ensures CollapseWhitespace(r) == Lead(r) + JoinWords(Words(s)) + Trail(r, s)
  {
    WordLengthFacts(s);
    WordSplit(r, s, n);
    if n == |s| {
      LastWord(r, s, n);
    } else if Words(s[n..]) == [] {
      WordThenBlank(r, s, n);
    } else {
      WordThenMore(r, s, n);
    }
  }

  lemma WordSplit(r: string, s: string, n: nat)
    requires Corresponds(r, s) && s != [] && !IsWhitespace(r[0])
    requires n == WordLength(s)
    requires forall i :: 0 <= i < n ==> !IsSeparator(s[i])
    ensures 0 < n <= |s| && Lead(r) == ""
    ensures Words(s) == [s[..n]] + Words(s[n..])
    ensures CollapseWhitespace(r) == s[..n] + CollapseWhitespace(r[n..])
  {
    assert SkipSeparators(s) == s;
    assert r[..n] == s[..n];
    CollapseWordPrefix(r, n);
  }

  lemma LastWord(r: string, s: string, n: nat)
    requires Corresponds(r, s) && 0 < n == |s| && Lead(r) == ""
    requires forall i :: 0 <= i < n ==> !IsSeparator(s[i])
    requires Words(s) == [s[..n]] + Words(s[n..])
    requires CollapseWhitespace(r) == s[..n] + CollapseWhitespace(r[n..])
    ensures CollapseWhitespace(r) == Lead(r) + JoinWords(Words(s)) + Trail(r, s)
  {
    var w := s[..n];
    assert s[n..] == [];
    assert Words(s[n..]) == [];
    assert r[n..] == [];
    assert JoinWords(Words(s)) == w;
    assert !IsSeparator(s[n - 1]);
    assert Trail(r, s) == "";
    assert w + [] == "" + w + "";
  }

  lemma WordThenBlank(r: string, s: string, n: nat)
    requires Corresponds(r, s) && 0 < n < |s| && Lead(r) == ""
    requires IsSeparator(s[n])
    requires Words(s) == [s[..n]] + Words(s[n..]) && Words(s[n..]) == []
    requires CollapseWhitespace(r) == s[..n] + CollapseWhitespace(r[n..])
    requires CollapseWhitespace(r[n..]) == Lead(r[n..]) + JoinWords(Words(s[n..])) + Trail(r[n..], s[n..])
    ensures CollapseWhitespace(r) == Lead(r) + JoinWords(Words(s)) + Trail(r, s)
  {
    var w := s[..n];
    assert CollapseWhitespace(r[n..]) == " " by {
      CorrespondsSuffix(r, s, n);
      BlankCollapse(r[n..], s[n..]);
    }
    assert IsWhitespace(r[|r| - 1]) by {
      WordsEmptyEndsInSeparator(s[n..]);
      assert s[n..][|s[n..]| - 1] == s[|s| - 1];
      LastIsBlank(r, s);
    }
    assert JoinWords(Words(s)) == w by {
      assert Words(s) == [w];
    }
    assert Trail(r, s) == " " by {
      assert Words(s) != [];
    }
    AssembleWordBlank(CollapseWhitespace(r), w, CollapseWhitespace(r[n..]), Lead(r), JoinWords(Words(s)), Trail(r, s));
  }

  lemma AssembleWordBlank(c: string, w: string, rest: string, lead: string, join: string, trail: string)
    requires c == w + rest && rest == " " && lead == "" && join == w && trail == " "
    ensures c == lead + join + trail
  {
    assert w + " " == "" + w + " ";
  }

  lemma LastIsBlank(r: string, s: string)
    requires Corresponds(r, s) && s != [] && IsSeparator(s[|s| - 1])
    ensures IsWhitespace(r[|r| - 1])
  {
  }

  lemma BlankCollapse(r: string, s: string)
    requires Corresponds(r, s) && s != [] && IsSeparator(s[0]) && Words(s) == []
    requires CollapseWhitespace(r) == Lead(r) + JoinWords(Words(s)) + Trail(r, s)
    ensures CollapseWhitespace(r) == " "
  {
    assert Lead(r) == " ";
    assert Trail(r, s) == "";
  }

  lemma WordThenMore(r: string, s: string, n: nat)
    requires Corresponds(r, s) && 0 < n < |s| && Lead(r) == ""
    requires IsSeparator(s[n])
    requires Words(s) == [s[..n]] + Words(s[n..]) && Words(s[n..]) != []
    requires CollapseWhitespace(r) == s[..n] + CollapseWhitespace(r[n..])
    requires CollapseWhitespace(r[n..]) == Lead(r[n..]) + JoinWords(Words(s[n..])) + Trail(r[n..], s[n..])
    ensures CollapseWhitespace(r) == Lead(r) + JoinWords(Words(s)) + Trail(r, s)
  {
    var w := s[..n];
    var rest := Words(s[n..]);
    var j := JoinWords(rest);
    var tr := Trail(r, s);
    assert Lead(r[n..]) == " ";
    assert ([w] + rest)[1..] == rest;
    assert JoinWords(Words(s)) == w + " " + j;
    assert r[n..][|r[n..]| - 1] == r[|r| - 1];
    assert Trail(r[n..], s[n..]) == tr;
    assert CollapseWhitespace(r[n..]) == " " + j + tr;
    AppendAssoc4(w, " ", j, tr);
  }

  lemma {:induction false} WordsAreWords(s: string)
    ensures forall w :: w in Words(s) ==> IsWord(w)
    decreases |s|
  {
    var t := SkipSeparators(s);
    SkipSeparatorsFacts(s);
    if t != [] {
      var n := WordLength(t);
      WordLengthFacts(t);
      WordsAreWords(t[n..]);
    }
  }

  lemma {:induction false} JoinWordsEdges(ws: seq<string>)
    requires forall w :: w in ws ==> IsWord(w)
    ensures var j := JoinWords(ws);
            ws == [] <==> j == []
    ensures var j := JoinWords(ws);
            j != [] ==> !IsSeparator(j[0]) && !IsSeparator(j[|j| - 1])
  {
    if |ws| > 1 {
      JoinWordsEdges(ws[1..]);
      assert ws[0] in ws;
    } else if |ws| == 1 {
      assert ws[0] in ws;
    }
  }

  lemma TrimStartKeeps(x: string)
    requires x == [] || !IsWhitespace(x[0])
    ensures TrimStart(x) == x
  {
  }

  lemma TrimStartSpace(x: string)
    ensures TrimStart(" " + x) == TrimStart(x)
  {
    assert (" " + x)[1..] == x;
  }

  lemma TrimEndKeeps(x: string)
    requires x == [] || !IsWhitespace(x[|x| - 1])
    ensures TrimEnd(x) == x
  {
  }

  lemma TrimEndSpace(x: string)
    ensures TrimEnd(x + " ") == TrimEnd(x)
  {
    assert (x + " ")[..|x|] == x;
  }

  lemma TrimFrame(lead: string, j: string, trail: string)
    requires lead == "" || lead == " "
    requires trail == "" || trail == " "
    requires j == [] ==> trail == ""
    requires j != [] ==> !IsWhitespace(j[0]) && !IsWhitespace(j[|j| - 1])
    ensures Trim(lead + j + trail) == j
  {
    var x := j + trail;
    assert lead + j + trail == lead + x;
    TrimStartKeeps(x);
    if lead == " " {
      TrimStartSpace(x);
    } else {
      assert lead + x == x;
    }
    if trail == " " {
      TrimEndSpace(j);
    } else {
      assert x == j;
    }
    TrimEndKeeps(j);
  }

  lemma {:induction false} JoinWordsIsClean(ws: seq<string>)
    requires forall w :: w in ws ==> IsWord(w)
    ensures IsClean(JoinWords(ws))
  {
    JoinWordsEdges(ws);
    if |ws| == 1 {
      assert ws[0] in ws;
    } else if |ws| > 1 {
      var w := ws[0];
      assert w in ws;
      var rest := JoinWords(ws[1..]);
      JoinWordsIsClean(ws[1..]);
      JoinWordsEdges(ws[1..]);
      var j := w + " " + rest;
      assert JoinWords(ws) == j;
      forall i | 0 <= i < |j|
        ensures !IsDelimiter(j[i]) && (IsWhitespace(j[i]) ==> j[i] == ' ')
      {
        if i > |w| {
          assert j[i] == rest[i - |w| - 1];
        }
      }
      forall i | 0 <= i < |j| - 1
        ensures !(IsWhitespace(j[i]) && IsWhitespace(j[i + 1]))
      {
        var k := i + 1;
        if i > |w| {
          assert j[i] == rest[i - |w| - 1] && j[k] == rest[k - |w| - 1];
        } else if i == |w| {
          assert j[k] == rest[0];
        } else if i == |w| - 1 {
          assert j[i] == w[|w| - 1];
        }
      }
    }
  }

  lemma AllWordLength(t: string, w: string, rest: string)
    requires IsWord(w)
    requires t == w + rest
    requires rest == [] || IsSeparator(rest[0])
    ensures WordLength(t) == |w| && t[..|w|] == w && t[|w|..] == rest
  {
    var n := WordLength(t);
    WordLengthFacts(t);
    assert forall i :: 0 <= i < |w| ==> t[i] == w[i];
    assert rest != [] ==> t[|w|] == rest[0];
  }

  lemma SingleWord(w: string)
    requires IsWord(w)
    ensures Words(w) == [w]
  {
    assert SkipSeparators(w) == w;
    AllWordLength(w, w, "");
    assert w[|w|..] == [];
    assert Words([]) == [];
  }

  /** The words of a word followed by a separator and more text. */
  lemma WordsCons(w: string, c: char, rest: string)
    requires IsWord(w) && IsSeparator(c)
    ensures Words(w + [c] + rest) == [w] + Words(rest)
  {
    var t := w + [c] + rest;
    assert t[0] == w[0];
    assert SkipSeparators(t) == t;
    assert t == w + ([c] + rest);
    AllWordLength(t, w, [c] + rest);
    assert ([c] + rest)[1..] == rest;
    assert SkipSeparators([c] + rest) == SkipSeparators(rest);
    WordsOfSkipped([c] + rest);
    WordsOfSkipped(rest);
  }

  lemma {:induction false} WordsOfJoinWords(ws: seq<string>)
    requires forall w :: w in ws ==> IsWord(w)
    ensures Words(JoinWords(ws)) == ws
  {
    if ws == [] {
    } else if |ws| == 1 {
      assert ws[0] in ws;
      SingleWord(ws[0]);
    } else {
      assert ws[0] in ws;
      WordsCons(ws[0], ' ', JoinWords(ws[1..]));
      WordsOfJoinWords(ws[1..]);
    }
  }
}
