/** The client-side cross-check total (`calculateTotalAmount`): every line is scanned for
    tokens matching the JavaScript regular expression `\b\d+\.\d{1,4}\b`; the tokens whose
    value lies strictly between 0 and 1,000,000 are rounded to cents and summed.
    All arithmetic is exact: values are kept in ten-thousandths and totals in cents. */
module Amounts {
  import opened Common

  /** JavaScript's `\d`. */
  predicate IsDigit(c: char) {
    '0' <= c <= '9'
  }

  /** JavaScript's `\w`, the characters a word boundary `\b` looks at. */
  predicate IsWordChar(c: char) {
    ('a' <= c <= 'z') || ('A' <= c <= 'Z') || IsDigit(c) || c == '_'
  }

  /** The end of the run of digits that starts at `i`. */
  function DigitRunEnd(s: string, i: nat): (j: nat)
    requires i <= |s|
    ensures i <= j <= |s|
    decreases |s| - i
  {
    if i < |s| && IsDigit(s[i]) then DigitRunEnd(s, i + 1) else i
  }

  /** One attempt of `\b\d+\.\d{1,4}\b` at position `i`, with the regular expression
      engine's backtracking worked out: `\d+` can only be followed by the dot if it takes the
      whole run of digits, and `\d{1,4}` can only be followed by a word boundary if it takes
      the whole run after the dot. Gives the end of the match. */
  function MatchAt(s: string, i: nat): (m: Option<nat>)
    requires i <= |s|
    ensures m.Some? ==> i < m.value <= |s|
  {
    if i > 0 && IsWordChar(s[i - 1]) then None
    else
      var d := DigitRunEnd(s, i);
      if d == i || d == |s| || s[d] != '.' then None
      else
        var e := DigitRunEnd(s, d + 1);
        if e == d + 1 || e > d + 5 || (e < |s| && IsWordChar(s[e])) then None
        else Some(e)
  }

  /** What the regular expression means: `s[i..e]` is a run of digits, the dot at `d`, one to
      four digits, with no word character immediately before `i` or at `e`. */
  ghost predicate TokenAt(s: string, i: nat, d: nat, e: nat) {
    i < d && d + 1 < e <= |s| && e <= d + 5
    && (i == 0 || !IsWordChar(s[i - 1]))
    && (forall k :: i <= k < d ==> IsDigit(s[k]))
    && s[d] == '.'
    && (forall k :: d < k < e ==> IsDigit(s[k]))
    && (e == |s| || !IsWordChar(s[e]))
  }

  /** `line.match(/\b\d+\.\d{1,4}\b/g)` from position `i` on: the leftmost match, then the
      scan resumes where it ended (matches never overlap). No match gives the empty list,
      which is where the source's `if (matches)` test on `null` lands too. */
  function MatchesFrom(s: string, i: nat): seq<string>
    requires i <= |s|
    decreases |s| - i
  {
    if i == |s| then []
    else
      match MatchAt(s, i)
      case Some(e) => [s[i..e]] + MatchesFrom(s, e)
      case None => MatchesFrom(s, i + 1)
  }

  function Matches(line: string): seq<string> {
    MatchesFrom(line, 0)
  }

  // ---------------------------------------------------------------------------------------
  // Exact values.

  function DigitValue(c: char): nat {
    if IsDigit(c) then (c as int) - ('0' as int) else 0
  }

  /** The decimal value of a string of digits, most significant digit first. */
  function DigitsValue(ds: string): nat {
    if ds == [] then 0 else DigitsValue(ds[..|ds| - 1]) * 10 + DigitValue(ds[|ds| - 1])
  }

  function Pow10(n: nat): (p: nat)
    ensures p >= 1
  {
    if n == 0 then 1 else 10 * Pow10(n - 1)
  }

  /** The index of the first dot of `t`, or `|t|` when there is none. */
  function DotIndex(t: string): (d: nat)
    ensures d <= |t|
  {
    if t == [] || t[0] == '.' then 0 else 1 + DotIndex(t[1..])
  }

  /** `parseFloat(token)` on a matched token, in ten-thousandths: the integer part times
      10000 plus the (at most four) fractional digits scaled up to four places. */
  function ScaledValue(t: string): nat {
    var d := DotIndex(t);
    var whole := DigitsValue(t[..d]);
    var frac := if d < |t| then t[d + 1..] else "";
    var f := if |frac| <= 4 then frac else frac[..4];
    whole * 10000 + DigitsValue(f) * Pow10(4 - |f|)
  }

  /** 1,000,000 in ten-thousandths: the exclusive upper bound on an amount. */
  const Limit: nat := 1000000 * 10000

  /** `amount > 0 && amount < 1000000`; `isNaN` never holds of a matched token. */
  predicate InRange(v: nat) {
    0 < v < Limit
  }

  /** `Math.round(amount * 100)` on a value in ten-thousandths: the nearest number of cents,
      halves rounded up. */
  function RoundToCents(v: nat): (c: nat)
    ensures 100 * c <= v + 50 < 100 * c + 100
  {
    (v + 50) / 100
  }

  /** What one matched token adds to the total, in cents. */
  function TokenCents(t: string): (c: nat)
    ensures c <= 100000000
  {
    var v := ScaledValue(t);
    if InRange(v) then RoundToCents(v) else 0
  }

  /** The sum over a list of tokens, added left to right. */
  function SumCents(ts: seq<string>): nat {
    if ts == [] then 0 else SumCents(ts[..|ts| - 1]) + TokenCents(ts[|ts| - 1])
  }

  /** What one line adds to the total, in cents. */
  function LineCents(line: string): nat {
    SumCents(Matches(line))
  }

  /** The sum over the lines, added in order. */
  function TotalCents(lines: seq<string>): nat {
    if lines == [] then 0 else TotalCents(lines[..|lines| - 1]) + LineCents(lines[|lines| - 1])
  }

  /** The argument of `calculateTotalAmount`: anything that is not an array (including `null`)
      or an array of lines. */
  datatype Contents = NotAnArray | Lines(lines: seq<string>)

  function TotalAmount(contents: Contents): nat {
    match contents
    case NotAnArray => 0
    case Lines(lines) => TotalCents(lines)
  }

  /** `calculateTotalAmount`, with the total in cents (the source returns it divided by 100;
      its final `Math.round(total * 100) / 100` leaves a whole number of cents unchanged). */
  method CalculateTotalAmount(contents: Contents) returns (total: nat)
    ensures total == TotalAmount(contents)
    ensures contents.NotAnArray? ==> total == 0
  {
    if contents.NotAnArray? {
      return 0;
    }
    var lines := contents.lines;
    total := 0;
    var i := 0;
    while i < |lines|
      invariant 0 <= i <= |lines|
      invariant total == TotalCents(lines[..i])
    {
      var line := lines[i];
      var matches := Matches(line);
      var k := 0;
      while k < |matches|
        invariant 0 <= k <= |matches|
        invariant total == TotalCents(lines[..i]) + SumCents(matches[..k])
      {
        var amount := ScaledValue(matches[k]);
        if InRange(amount) {
          total := total + RoundToCents(amount);
        }
        assert matches[..k + 1][..k] == matches[..k];
        k := k + 1;
      }
      assert matches[..k] == matches;
      assert lines[..i + 1][..i] == lines[..i];
      i := i + 1;
    }
    assert lines[..i] == lines;
  }

  // ---------------------------------------------------------------------------------------
  // Properties.

  lemma {:induction false} DigitRunFacts(s: string, i: nat)
    requires i <= |s|
    ensures var j := DigitRunEnd(s, i);
            (forall k :: i <= k < j ==> IsDigit(s[k])) && (j == |s| || !IsDigit(s[j]))
    decreases |s| - i
  {
    if i < |s| && IsDigit(s[i]) {
      DigitRunFacts(s, i + 1);
    }
  }

  /** The matcher finds a token at `i` exactly when the regular expression has a match
      starting there, and then the match it reports is the only one. */
  lemma MatchAtIsRegex(s: string, i: nat)
    requires i <= |s|
    ensures MatchAt(s, i).Some? ==> exists d: nat :: TokenAt(s, i, d, MatchAt(s, i).value)
    ensures forall d: nat, e: nat :: TokenAt(s, i, d, e) ==> MatchAt(s, i) == Some(e)
  {
    DigitRunFacts(s, i);
    var d := DigitRunEnd(s, i);
    if d < |s| && s[d] == '.' {
      DigitRunFacts(s, d + 1);
      if MatchAt(s, i).Some? {
        assert TokenAt(s, i, d, MatchAt(s, i).value);
      }
    }
    forall d': nat, e: nat | TokenAt(s, i, d', e) ensures MatchAt(s, i) == Some(e) {
      TokenAtIsMaximal(s, i, d', e);
    }
  }

  lemma TokenAtIsMaximal(s: string, i: nat, d: nat, e: nat)
    requires TokenAt(s, i, d, e)
    ensures DigitRunEnd(s, i) == d && DigitRunEnd(s, d + 1) == e
  {
    DigitRunEndAt(s, i, d);
    DigitRunEndAt(s, d + 1, e);
  }

  lemma {:induction false} DigitRunEndAt(s: string, i: nat, j: nat)
    requires i <= j <= |s|
    requires forall k :: i <= k < j ==> IsDigit(s[k])
    requires j == |s| || !IsDigit(s[j])
    ensures DigitRunEnd(s, i) == j
    decreases j - i
  {
    if i < j {
      DigitRunEndAt(s, i + 1, j);
    }
  }

  /** A matched token has the shape `digits '.' digits`, with one to four digits after the dot. */
  ghost predicate IsAmountToken(t: string) {
    exists d :: 0 < d && d + 1 < |t| <= d + 5 && t[d] == '.'
      && (forall k :: 0 <= k < d ==> IsDigit(t[k]))
      && (forall k :: d < k < |t| ==> IsDigit(t[k]))
  }

  /** Every token the scan reports is an amount token. The word boundaries around it are
      stated by `MatchAtIsRegex`. */
  lemma {:induction false} MatchesAreTokens(s: string, i: nat)
    requires i <= |s|
    ensures forall t :: t in MatchesFrom(s, i) ==> IsAmountToken(t)
    decreases |s| - i
  {
    if i < |s| {
      match MatchAt(s, i)
      case Some(e) =>
        MatchAtIsRegex(s, i);
        var d: nat :| TokenAt(s, i, d, e);
        var t := s[i..e];
        assert t[d - i] == '.';
        assert forall k :: 0 <= k < d - i ==> t[k] == s[i + k];
        assert forall k :: d - i < k < |t| ==> t[k] == s[i + k];
        assert IsAmountToken(t);
        MatchesAreTokens(s, e);
      case None =>
        MatchesAreTokens(s, i + 1);
    }
  }

  /** The value of a token `digits '.' digits{1,4}` is its integer part plus its fraction. */
  lemma TokenValue(t: string, d: nat)
    requires 0 < d && d + 1 < |t| <= d + 5 && t[d] == '.'
    requires forall k :: 0 <= k < d ==> IsDigit(t[k])
    ensures ScaledValue(t) == DigitsValue(t[..d]) * 10000 + DigitsValue(t[d + 1..]) * Pow10(5 + d - |t|)
  {
    NoDotBefore(t, d);
  }

  /** Read without its dot, a token is the integer that its value in ten-thousandths gives once
      scaled by ten for each fractional digit: `12.5` is 125000 ten-thousandths and `125`. */
  lemma TokenValueWithoutDot(t: string, d: nat)
    requires 0 < d && d + 1 < |t| <= d + 5 && t[d] == '.'
    requires forall k :: 0 <= k < d ==> IsDigit(t[k])
    ensures ScaledValue(t) * Pow10(|t| - d - 1) == DigitsValue(t[..d] + t[d + 1..]) * 10000
  {
    var w, f := t[..d], t[d + 1..];
    var m, n := 5 + d - |t|, |t| - d - 1;
    TokenValue(t, d);
    DigitsValueAppend(w, f);
    assert |f| == n;
    Pow10Add(m, n);
    assert Pow10(m + n) == 10000;
    Rescale(ScaledValue(t), DigitsValue(w + f), DigitsValue(w), DigitsValue(f), Pow10(m), Pow10(n));
  }

  lemma Rescale(v: nat, r: nat, a: nat, b: nat, p: nat, q: nat)
    requires p * q == 10000 && v == a * 10000 + b * p && r == a * q + b
    ensures v * q == r * 10000
  {
    calc {
      (a * 10000 + b * p) * q;
      a * 10000 * q + b * p * q;
      a * q * 10000 + b * (p * q);
    }
  }

  lemma {:induction false} DigitsValueAppend(a: string, b: string)
    ensures DigitsValue(a + b) == DigitsValue(a) * Pow10(|b|) + DigitsValue(b)
    decreases |b|
  {
    if b == [] {
      assert a + b == a;
    } else {
      var b' := b[..|b| - 1];
      assert DigitsValue(a + b) == DigitsValue(a + b') * 10 + DigitValue(b[|b| - 1]) by {
        assert (a + b)[..|a + b| - 1] == a + b';
        assert (a + b)[|a + b| - 1] == b[|b| - 1];
      }
      DigitsValueAppend(a, b');
      AppendDigit(DigitsValue(a), Pow10(|b'|), DigitsValue(b'), DigitValue(b[|b| - 1]));
    }
  }

  lemma AppendDigit(x: nat, y: nat, z: nat, c: nat)
    ensures (x * y + z) * 10 + c == x * (10 * y) + (z * 10 + c)
  {
  }

  lemma {:induction false} Pow10Add(m: nat, n: nat)
    ensures Pow10(m + n) == Pow10(m) * Pow10(n)
  {
    if m > 0 {
      Pow10Add(m - 1, n);
      assert Pow10(m + n) == 10 * Pow10(m - 1 + n);
    }
  }

  lemma {:induction false} NoDotBefore(t: string, d: nat)
    requires d < |t| && t[d] == '.'
    requires forall k :: 0 <= k < d ==> t[k] != '.'
    ensures DotIndex(t) == d
  {
    if d > 0 {
      NoDotBefore(t[1..], d - 1);
    }
  }

  lemma {:induction false} TotalCentsAppend(a: seq<string>, b: seq<string>)
    ensures TotalCents(a + b) == TotalCents(a) + TotalCents(b)
    decreases |b|
  {
    if b == [] {
      assert a + b == a;
    } else {
      assert (a + b)[..|a + b| - 1] == a + b[..|b| - 1];
      TotalCentsAppend(a, b[..|b| - 1]);
    }
  }

  lemma TotalCentsSingle(line: string)
    ensures TotalCents([line]) == LineCents(line)
  {
    assert [line][..0] == [];
  }

  /** Taking one line out of the middle takes exactly its share out of the total. */
  lemma {:induction false} TotalCentsRemove(b: seq<string>, k: nat)
    requires k < |b|
    ensures TotalCents(b) == TotalCents(b[..k] + b[k + 1..]) + LineCents(b[k])
  {
    var p, x, q := b[..k], b[k], b[k + 1..];
    assert b == p + ([x] + q);
    TotalCentsAppend(p, [x] + q);
    TotalCentsAppend([x], q);
    TotalCentsAppend(p, q);
    TotalCentsSingle(x);
  }

  /** The last line of `a` occurs somewhere in `b`, and what remains of both still agrees. */
  lemma MatchLast(a: seq<string>, b: seq<string>) returns (k: nat)
    requires a != [] && multiset(a) == multiset(b)
    ensures k < |b| && b[k] == a[|a| - 1]
    ensures multiset(a[..|a| - 1]) == multiset(b[..k] + b[k + 1..])
  {
    var x := a[|a| - 1];
    assert a == a[..|a| - 1] + [x];
    assert x in multiset(b);
    k :| 0 <= k < |b| && b[k] == x;
    var b' := b[..k] + b[k + 1..];
    assert b == b[..k] + [x] + b[k + 1..];
    assert multiset(b) == multiset(b[..k]) + multiset{x} + multiset(b[k + 1..]);
    assert multiset(b') == multiset(b[..k]) + multiset(b[k + 1..]);
    assert multiset(a) == multiset(a[..|a| - 1]) + multiset{x};
    assert multiset(a[..|a| - 1]) == multiset(a) - multiset{x};
    assert multiset(b') == multiset(b) - multiset{x};
  }

  /** The total does not depend on the order of the lines. */
  lemma {:induction false} TotalCentsIsOrderIndependent(a: seq<string>, b: seq<string>)
    requires multiset(a) == multiset(b)
    ensures TotalCents(a) == TotalCents(b)
    decreases |a|
  {
    if a == [] {
      assert |b| == |multiset(b)| == 0;
    } else {
      var k := MatchLast(a, b);
      TotalCentsRemove(b, k);
      TotalCentsIsOrderIndependent(a[..|a| - 1], b[..k] + b[k + 1..]);
    }
  }
}
