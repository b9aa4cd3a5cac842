/** The names used when a report is exported: the base name sent to the report service
    (the uploaded file's name without its last extension) and the name the downloaded archive
    is saved under (the `filename` parameter of the reply's `Content-Disposition` header,
    with quotes removed, or `<base>_<area>.zip`). */
module ReportFilename {
  import opened Common

  // ---------------------------------------------------------------------------------------
  // `split` and `join` with a one-character separator.

  /** `s.split(sep)`: the pieces between separators; there is always at least one. */
  function Split(s: string, sep: char): (r: seq<string>)
    ensures |r| >= 1
    decreases |s|
  {
    if s == [] then [""]
    else
      var rest := Split(s[1..], sep);
      if s[0] == sep then [""] + rest else [[s[0]] + rest[0]] + rest[1..]
  }

  /** `parts.join(sep)`; the empty list joins to the empty string. */
  function Join(parts: seq<string>, sep: char): string {
    if parts == [] then ""
    else if |parts| == 1 then parts[0]
    else parts[0] + [sep] + Join(parts[1..], sep)
  }

  /** `originalFileName.split('.').slice(0, -1).join('.')`. */
  function BaseFileName(name: string): string {
    var parts := Split(name, '.');
    Join(parts[..|parts| - 1], '.')
  }

  /** `uploadedFile?.name || 'report'`. */
  function OriginalFileName(uploadedName: Option<string>): (r: string)
    ensures r != ""
    ensures uploadedName.Some? && uploadedName.value != "" ==> r == uploadedName.value
    ensures uploadedName.None? || uploadedName.value == "" ==> r == "report"
  {
    OrElse(uploadedName, "report")
  }

  // ---------------------------------------------------------------------------------------
  // The `Content-Disposition` header: `/filename[^;=\n]*=((['"]).*?\2|[^;\n]*)/`.

  const Key: string := "filename"

  /** The characters JavaScript's `.` does not match. */
  predicate IsLineTerminator(c: char) {
    c == '\n' || c == '\r' || c == '\U{2028}' || c == '\U{2029}'
  }

  predicate IsQuote(c: char) {
    c == '\'' || c == '"'
  }

  /** The end of the longest run from `i` of characters other than `;`, `=` and newline:
      `[^;=\n]*`, which can only be followed by `=` when it takes the whole run. */
  function NameEnd(h: string, i: nat): (j: nat)
    requires i <= |h|
    ensures i <= j <= |h|
    decreases |h| - i
  {
    if i < |h| && h[i] != ';' && h[i] != '=' && h[i] != '\n' then NameEnd(h, i + 1) else i
  }

  /** The end of the longest run from `i` of characters other than `;` and newline:
      `[^;\n]*`, greedy. */
  function ValueEnd(h: string, i: nat): (j: nat)
    requires i <= |h|
    ensures i <= j <= |h|
    decreases |h| - i
  {
    if i < |h| && h[i] != ';' && h[i] != '\n' then ValueEnd(h, i + 1) else i
  }

  /** `.*?\2`: the first `q` from `i` on, provided no line terminator comes before it. */
  function ClosingQuote(h: string, i: nat, q: char): (k: Option<nat>)
    requires i <= |h|
    ensures k.Some? ==> i <= k.value < |h|
    decreases |h| - i
  {
    if i == |h| || IsLineTerminator(h[i]) then None
    else if h[i] == q then Some(i)
    else ClosingQuote(h, i + 1, q)
  }

  /** The first group, for a value starting at `e`: a quoted value, quotes included, when a
      matching closing quote follows on the same line; otherwise everything up to the next
      `;` or newline. */
  function Group(h: string, e: nat): (g: string)
    requires e <= |h|
  {
    if e < |h| && IsQuote(h[e]) && ClosingQuote(h, e + 1, h[e]).Some? then
      h[e..ClosingQuote(h, e + 1, h[e]).value + 1]
    else h[e..ValueEnd(h, e)]
  }

  /** One attempt of the regular expression at position `p`, giving its first group. */
  function AttemptAt(h: string, p: nat): (g: Option<string>)
    requires p <= |h|
  {
    if !StartsWith(h[p..], Key) then None
    else
      var j := NameEnd(h, p + |Key|);
      if j == |h| || h[j] != '=' then None
      else Some(Group(h, j + 1))
  }

  /** `exec`: the first position from `p` on where an attempt succeeds. */
  function ExecFrom(h: string, p: nat): Option<string>
    requires p <= |h|
    decreases |h| - p
  {
    match AttemptAt(h, p)
    case Some(g) => Some(g)
    case None => if p == |h| then None else ExecFrom(h, p + 1)
  }

  /** `.replace(/['"]/g, '')`. */
  function StripQuotes(s: string): (r: string)
    ensures forall i :: 0 <= i < |r| ==> !IsQuote(r[i])
    ensures |r| <= |s|
  {
    if s == [] then []
    else (if IsQuote(s[0]) then [] else [s[0]]) + StripQuotes(s[1..])
  }

  /** The name taken from the header, if any: the header must be present and non-empty, the
      expression must match, and its first group must be non-empty. */
  function HeaderFilename(contentDisposition: Option<string>): Option<string> {
    if contentDisposition.None? || contentDisposition.value == "" then None
    else
      match ExecFrom(contentDisposition.value, 0)
      case None => None
      case Some(g) => if g == "" then None else Some(StripQuotes(g))
  }

  /** `${baseFileName}_${selectedArea}.zip`. */
  function Fallback(base: string, area: string): (r: string)
    ensures |r| == |base| + |area| + 5
    ensures r[..|base|] == base && r[|base|] == '_' && r[|base| + 1..|base| + 1 + |area|] == area
    ensures r[|r| - 4..] == ".zip"
  {
    base + "_" + area + ".zip"
  }

  /** The name the downloaded archive is saved under: the header's name when it is not
      empty, and the fallback otherwise. A name from the header is never empty and holds no
      quote. */
  function DownloadName(contentDisposition: Option<string>, base: string, area: string): (r: string)
    ensures r == Fallback(base, area) || (r != "" && forall i :: 0 <= i < |r| ==> !IsQuote(r[i]))
    ensures contentDisposition.None? ==> r == Fallback(base, area)
  {
    var name := HeaderFilename(contentDisposition);
    if name.Some? && name.value != "" then name.value else Fallback(base, area)
  }

  // ---------------------------------------------------------------------------------------
  // Properties of the base name.

  lemma {:induction false} SplitWithoutSeparator(s: string, sep: char)
    requires sep !in s
    ensures Split(s, sep) == [s]
  {
    if s != [] {
      SplitWithoutSeparator(s[1..], sep);
      assert [s[0]] + s[1..] == s;
    }
  }

  /** Splitting at a separator splits each side. */
  lemma {:induction false} SplitAtSeparator(p: string, sep: char, q: string)
    ensures Split(p + [sep] + q, sep) == Split(p, sep) + Split(q, sep)
    decreases |p|
  {
    if p == [] {
      assert p + [sep] + q == [sep] + q;
      SplitCons(sep, q, sep);
    } else {
      var c, p' := p[0], p[1..];
      var t := p' + [sep] + q;
      var a, b := Split(p', sep), Split(q, sep);
      assert Split(p + [sep] + q, sep) == SplitStep(c, a + b, sep) by {
        assert p + [sep] + q == [c] + t;
        SplitCons(c, t, sep);
        SplitAtSeparator(p', sep, q);
      }
      assert Split(p, sep) == SplitStep(c, a, sep) by {
        assert p == [c] + p';
        SplitCons(c, p', sep);
      }
      SplitStepAppend(c, a, b, sep);
    }
  }

  /** How `split` treats one more leading character. */
  function SplitStep(c: char, rest: seq<string>, sep: char): seq<string>
    requires |rest| >= 1
  {
    if c == sep then [""] + rest else [[c] + rest[0]] + rest[1..]
  }

  lemma SplitCons(c: char, t: string, sep: char)
    ensures Split([c] + t, sep) == SplitStep(c, Split(t, sep), sep)
  {
    assert ([c] + t)[0] == c && ([c] + t)[1..] == t;
  }

  lemma SplitStepAppend(c: char, a: seq<string>, b: seq<string>, sep: char)
    requires |a| >= 1
    ensures SplitStep(c, a + b, sep) == SplitStep(c, a, sep) + b
  {
    assert (a + b)[0] == a[0];
    assert (a + b)[1..] == a[1..] + b;
  }

  /** No piece contains the separator. */
  lemma {:induction false} SplitPiecesAreClean(s: string, sep: char)
    ensures forall k :: 0 <= k < |Split(s, sep)| ==> sep !in Split(s, sep)[k]
  {
    if s != [] {
      SplitPiecesAreClean(s[1..], sep);
    }
  }

  /** Splitting is stable: the join of a split splits back into the same dot-free pieces. */
  lemma SplitJoinSplit(s: string, sep: char)
    ensures Split(Join(Split(s, sep), sep), sep) == Split(s, sep)
    ensures forall k :: 0 <= k < |Split(s, sep)| ==> sep !in Split(s, sep)[k]
  {
    SplitPiecesAreClean(s, sep);
    SplitJoin(Split(s, sep), sep);
  }

  /** Joining the pieces gives back the string: `split` loses nothing. */
  lemma {:induction false} JoinSplit(s: string, sep: char)
    ensures Join(Split(s, sep), sep) == s
  {
    if s != [] {
      var rest := Split(s[1..], sep);
      JoinSplit(s[1..], sep);
      if s[0] == sep {
        assert [""] + rest == [""] + rest;
        assert ([""] + rest)[1..] == rest;
        assert s == [sep] + s[1..];
      } else {
        var parts := [[s[0]] + rest[0]] + rest[1..];
        if |rest| == 1 {
          assert s == [s[0]] + s[1..];
        } else {
          assert parts[1..] == rest[1..];
          assert Join(rest, sep) == rest[0] + [sep] + Join(rest[1..], sep);
          assert s == [s[0]] + s[1..];
        }
      }
    }
  }

  /** Splitting a join of separator-free pieces gives back the pieces. */
  lemma {:induction false} SplitJoin(parts: seq<string>, sep: char)
    requires |parts| >= 1
    requires forall k :: 0 <= k < |parts| ==> sep !in parts[k]
    ensures Split(Join(parts, sep), sep) == parts
  {
    if |parts| == 1 {
      SplitWithoutSeparator(parts[0], sep);
    } else {
      SplitJoin(parts[1..], sep);
      SplitAtSeparator(parts[0], sep, Join(parts[1..], sep));
      SplitWithoutSeparator(parts[0], sep);
      assert [parts[0]] + parts[1..] == parts;
    }
  }

  /** The base name is everything before the last dot. */
  lemma BaseFileNameBeforeLastDot(name: string, k: nat)
    requires k < |name| && name[k] == '.' && '.' !in name[k + 1..]
    ensures BaseFileName(name) == name[..k]
  {
    var p, q := name[..k], name[k + 1..];
    assert name == p + ['.'] + q;
    SplitAtSeparator(p, '.', q);
    SplitWithoutSeparator(q, '.');
    var parts := Split(p, '.') + [q];
    assert parts[..|parts| - 1] == Split(p, '.');
    JoinSplit(p, '.');
  }

  /** A name without a dot has an empty base name. */
  lemma BaseFileNameWithoutDot(name: string)
    requires '.' !in name
    ensures BaseFileName(name) == ""
  {
    SplitWithoutSeparator(name, '.');
  }

  /** With no uploaded file, the name `report` is used, whose base name is empty. */
  lemma NoUploadGivesEmptyBase()
    ensures BaseFileName(OriginalFileName(None)) == ""
  {
    BaseFileNameWithoutDot("report");
  }

  // ---------------------------------------------------------------------------------------
  // Properties of the header.

  lemma {:induction false} ClosingQuoteAt(h: string, i: nat, q: char, k: nat)
    requires i <= k < |h| && h[k] == q
    requires forall m :: i <= m < k ==> h[m] != q && !IsLineTerminator(h[m])
    requires !IsLineTerminator(q)
    ensures ClosingQuote(h, i, q) == Some(k)
    decreases k - i
  {
    if i < k {
      ClosingQuoteAt(h, i + 1, q, k);
    }
  }

  lemma {:induction false} NameEndAt(h: string, i: nat, j: nat)
    requires i <= j < |h| && h[j] == '='
    requires forall m :: i <= m < j ==> h[m] != ';' && h[m] != '=' && h[m] != '\n'
    ensures NameEnd(h, i) == j
    decreases j - i
  {
    if i < j {
      NameEndAt(h, i + 1, j);
    }
  }

  lemma {:induction false} ValueEndAt(h: string, i: nat, j: nat)
    requires i <= j <= |h|
    requires forall m :: i <= m < j ==> h[m] != ';' && h[m] != '\n'
    requires j == |h| || h[j] == ';' || h[j] == '\n'
    ensures ValueEnd(h, i) == j
    decreases j - i
  {
    if i < j {
      ValueEndAt(h, i + 1, j);
    }
  }

  /** The first position from which `filename` is spelled out is the one `exec` reports. */
  lemma {:induction false} ExecSkipsTo(h: string, p: nat, k: nat)
    requires p <= k <= |h|
    requires forall m :: p <= m < k ==> !StartsWith(h[m..], Key)
    ensures ExecFrom(h, p) == ExecFrom(h, k)
    decreases k - p
  {
    if p < k {
      ExecSkipsTo(h, p + 1, k);
    }
  }

  lemma {:induction false} StripQuotesOfClean(s: string)
    requires forall i :: 0 <= i < |s| ==> !IsQuote(s[i])
    ensures StripQuotes(s) == s
  {
    if s != [] {
      StripQuotesOfClean(s[1..]);
      assert [s[0]] + s[1..] == s;
    }
  }

  lemma StripQuotesOfQuoted(q: char, v: string)
    requires IsQuote(q)
    ensures StripQuotes([q] + v + [q]) == StripQuotes(v)
  {
    var s := [q] + v + [q];
    assert s[1..] == v + [q];
    StripQuotesAppend(v, [q]);
    assert [q][1..] == [];
    assert v + [] == v;
  }

  lemma {:induction false} StripQuotesAppend(a: string, b: string)
    ensures StripQuotes(a + b) == StripQuotes(a) + StripQuotes(b)
  {
    if a == [] {
      assert a + b == b;
    } else {
      assert (a + b)[1..] == a[1..] + b;
      StripQuotesAppend(a[1..], b);
    }
  }

  /** `filename=` spelled out at `k` is matched there, with the value starting just after
      the `=`. */
  lemma AttemptAtKey(h: string, k: nat)
    requires k <= |h| && StartsWith(h[k..], Key + "=")
    ensures AttemptAt(h, k) == Some(Group(h, k + |Key| + 1))
  {
    assert h[k..][..|Key|] == (Key + "=")[..|Key|] == Key;
    assert h[k + |Key|] == h[k..][|Key|] == '=';
    NameEndAt(h, k + |Key|, k + |Key|);
  }

  lemma GroupQuoted(h: string, e: nat, q: char, v: string)
    requires IsQuote(q) && q !in v && forall i :: 0 <= i < |v| ==> !IsLineTerminator(v[i])
    requires e <= |h| && StartsWith(h[e..], [q] + v + [q])
    ensures Group(h, e) == [q] + v + [q]
  {
    var w := [q] + v + [q];
    var close := e + 1 + |v|;
    assert forall m :: 0 <= m < |w| ==> h[e + m] == w[m] by {
      assert forall m :: 0 <= m < |w| ==> h[e + m] == h[e..][..|w|][m];
    }
    assert h[e] == q && h[close] == q by {
      assert w[0] == q && w[|w| - 1] == q;
    }
    assert ClosingQuote(h, e + 1, q) == Some(close) by {
      forall m | e + 1 <= m < close
        ensures h[m] != q && !IsLineTerminator(h[m])
      {
        assert h[e + (m - e)] == w[m - e] == v[m - e - 1];
      }
      ClosingQuoteAt(h, e + 1, q, close);
    }
    assert h[e..close + 1] == w by {
      assert h[e..close + 1] == h[e..][..|w|];
    }
  }

  lemma GroupUnquoted(h: string, e: nat, v: string)
    requires v != "" && !IsQuote(v[0]) && ';' !in v && '\n' !in v
    requires e <= |h| && StartsWith(h[e..], v)
    requires e + |v| == |h| || h[e + |v|] == ';' || h[e + |v|] == '\n'
    ensures Group(h, e) == v
  {
    assert forall m :: e <= m < e + |v| ==> h[m] == h[e..][..|v|][m - e] == v[m - e];
    assert h[e..e + |v|] == h[e..][..|v|];
    ValueEndAt(h, e, e + |v|);
  }

  /** A quoted `filename` parameter (the first `filename` in the header, the parameter name
      followed directly by `=`): the download is named by what lies between the quotes,
      quotes removed, unless that is empty. */
  lemma QuotedParameter(h: string, k: nat, q: char, v: string, base: string, area: string)
    requires IsQuote(q) && q !in v && forall i :: 0 <= i < |v| ==> !IsLineTerminator(v[i])
    requires k <= |h| && StartsWith(h[k..], Key + "=" + ([q] + v + [q]))
    requires forall m :: 0 <= m < k ==> !StartsWith(h[m..], Key)
    ensures DownloadName(Some(h), base, area)
            == if StripQuotes(v) != "" then StripQuotes(v) else Fallback(base, area)
  {
    var w := [q] + v + [q];
    var e := k + |Key| + 1;
    ParameterAt(h, k, w);
    GroupQuoted(h, e, q, v);
    DownloadNameOfGroup(h, w, base, area);
    StripQuotesOfQuoted(q, v);
  }

  /** An unquoted `filename` parameter runs to the next `;` or newline; any quotes inside it
      are removed. */
  lemma UnquotedParameter(h: string, k: nat, v: string, base: string, area: string)
    requires v != "" && !IsQuote(v[0]) && ';' !in v && '\n' !in v
    requires k <= |h| && StartsWith(h[k..], Key + "=" + v)
    requires var e := k + |Key| + 1 + |v|; e == |h| || h[e] == ';' || h[e] == '\n'
    requires forall m :: 0 <= m < k ==> !StartsWith(h[m..], Key)
    ensures DownloadName(Some(h), base, area)
            == if StripQuotes(v) != "" then StripQuotes(v) else Fallback(base, area)
  {
    var e := k + |Key| + 1;
    ParameterAt(h, k, v);
    GroupUnquoted(h, e, v);
    DownloadNameOfGroup(h, v, base, area);
  }

  /** The first `filename=` of the header is the one matched, and its value starts right
      after the `=`. */
  lemma ParameterAt(h: string, k: nat, w: string)
    requires k <= |h| && StartsWith(h[k..], Key + "=" + w)
    requires forall m :: 0 <= m < k ==> !StartsWith(h[m..], Key)
    ensures k + |Key| + 1 <= |h| && StartsWith(h[k + |Key| + 1..], w)
    ensures ExecFrom(h, 0) == Some(Group(h, k + |Key| + 1))
  {
    var kw := Key + "=";
    var n := |kw|;
    assert ExecFrom(h, 0) == ExecFrom(h, k) by {
      ExecSkipsTo(h, 0, k);
    }
    assert StartsWith(h[k..], kw) by {
      PrefixOfPrefix(h[k..], kw, w);
    }
    assert ExecFrom(h, k) == Some(Group(h, k + n)) by {
      AttemptAtKey(h, k);
    }
    assert h[k..k + n] == kw by {
      assert h[k..k + n] == h[k..][..n];
    }
    SuffixStartsWith(h, k, n, w);
  }

  lemma DownloadNameOfGroup(h: string, g: string, base: string, area: string)
    requires ExecFrom(h, 0) == Some(g) && g != ""
    ensures DownloadName(Some(h), base, area)
            == if StripQuotes(g) != "" then StripQuotes(g) else Fallback(base, area)
  {
    assert h != [];
  }

  lemma PrefixOfPrefix(s: string, a: string, b: string)
    requires StartsWith(s, a + b)
    ensures StartsWith(s, a)
  {
    assert s[..|a|] == s[..|a + b|][..|a|] == (a + b)[..|a|] == a;
  }

  lemma SuffixStartsWith(h: string, k: nat, n: nat, w: string)
    requires k <= |h| && n <= |h| - k
    requires StartsWith(h[k..], h[k..k + n] + w)
    ensures StartsWith(h[k + n..], w)
  {
    var s := h[k..];
    assert s[..n + |w|] == h[k..k + n] + w;
    assert forall m :: 0 <= m < |w| ==> h[k + n..][m] == s[n + m] == w[m];
    assert h[k + n..][..|w|] == w;
  }

  /** Without `filename` followed by `=`, the fallback name is used. */
  lemma {:induction false} NoParameterGivesFallback(h: string, base: string, area: string)
    requires forall m :: 0 <= m <= |h| ==> !StartsWith(h[m..], Key)
    ensures DownloadName(Some(h), base, area) == Fallback(base, area)
  {
    ExecSkipsTo(h, 0, |h|);
  }
}
