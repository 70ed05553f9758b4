/** The JavaScript string operations the site uses, on `seq<char>`:
    `indexOf`/`includes`, `replace` of a literal pattern, `split`/`join` on one
    character, `toUpperCase` of a first character, `trim`, and the decimal
    rendering of a non-negative integer in a template literal. */
module Text {
  import opened Wrappers
  import opened Seqs

  // ---------------------------------------------------------------------------
  // Searching

  /** `pat` occurs in `s` starting at index `i`. */
  ghost predicate OccursAt(s: string, pat: string, i: int) {
    0 <= i && i + |pat| <= |s| && s[i..i + |pat|] == pat
  }

  /** Character-by-character comparison of `pat[j..]` against `s` at offset `k + j`. */
  predicate MatchFrom(s: string, pat: string, k: nat, j: nat)
    requires k + |pat| <= |s| && j <= |pat|
    decreases |pat| - j
  {
    j == |pat| || (s[k + j] == pat[j] && MatchFrom(s, pat, k, j + 1))
  }

  lemma {:induction false} MatchFromSlice(s: string, pat: string, k: nat, j: nat)
    requires k + |pat| <= |s| && j <= |pat|
    ensures MatchFrom(s, pat, k, j) <==> s[k + j..k + |pat|] == pat[j..]
    decreases |pat| - j
  {
    if j < |pat| {
      MatchFromSlice(s, pat, k, j + 1);
      assert s[k + j..k + |pat|] == [s[k + j]] + s[k + j + 1..k + |pat|];
      assert pat[j..] == [pat[j]] + pat[j + 1..];
    }
  }

  /** The first occurrence of `pat` in `s` at or after index `k`. */
  function IndexFrom(s: string, pat: string, k: nat): (r: Option<nat>)
    ensures r.Some? ==> k <= r.value && OccursAt(s, pat, r.value)
    ensures r.Some? ==> forall j :: k <= j < r.value ==> !OccursAt(s, pat, j)
    ensures r.None? ==> forall j :: k <= j ==> !OccursAt(s, pat, j)
    decreases |s| - k
  {
    if k + |pat| > |s| then None
    else
      MatchFromSlice(s, pat, k, 0);
      if MatchFrom(s, pat, k, 0) then Some(k) else IndexFrom(s, pat, k + 1)
  }

  /** `s.indexOf(pat)`, with `None` for JavaScript's -1. */
  function IndexOf(s: string, pat: string): (r: Option<nat>)
    ensures r.Some? <==> exists i :: OccursAt(s, pat, i)
    ensures r.Some? ==> OccursAt(s, pat, r.value) && forall j :: 0 <= j < r.value ==> !OccursAt(s, pat, j)
  {
    IndexFrom(s, pat, 0)
  }

  /** `s.includes(pat)`. */
  predicate Contains(s: string, pat: string) {
    IndexOf(s, pat).Some?
  }

  /** Every character of a pattern that occurs in `s` occurs in `s`; so a
      pattern with a character `s` lacks is not contained in it. */
  lemma ContainsChars(s: string, pat: string)
    ensures Contains(s, pat) ==> forall k :: 0 <= k < |pat| ==> pat[k] in s
  {
    if Contains(s, pat) {
      var i := IndexOf(s, pat).value;
      forall k | 0 <= k < |pat|
        ensures pat[k] in s
      {
        assert s[i..i + |pat|][k] == s[i + k];
      }
    }
  }

  /** `s.replace(pat, "")` with a string pattern: only the FIRST occurrence is removed. */
  function RemoveFirst(s: string, pat: string): (r: string)
    ensures IndexOf(s, pat).None? ==> r == s
    ensures IndexOf(s, pat).Some? ==>
              var i := IndexOf(s, pat).value;
              i + |pat| <= |s| && |r| == |s| - |pat| && r[..i] + pat + r[i..] == s
  {
    match IndexOf(s, pat)
    case None => s
    case Some(i) =>
      assert s == s[..i] + s[i..i + |pat|] + s[i + |pat|..];
      s[..i] + s[i + |pat|..]
  }

  /** Position by position, `s` with `pat` cut out at `i` keeps what comes
      before `i` and shifts what comes after it left by `|pat|`. */
  lemma CutAt(s: string, pat: string, r: string, i: nat)
    requires i <= |r| && r[..i] + pat + r[i..] == s
    ensures forall k :: 0 <= k < i ==> r[k] == s[k]
    ensures forall k :: i <= k < |r| ==> r[k] == s[k + |pat|]
  {
    forall k | 0 <= k < i
      ensures r[k] == s[k]
    {
      assert s[k] == r[..i][k];
    }
    forall k | i <= k < |r|
      ensures r[k] == s[k + |pat|]
    {
      assert s[k + |pat|] == r[i..][k - i];
    }
  }

  /** If `s` is `base` followed by `pat` and `pat` does not occur earlier,
      removing the first `pat` gives back `base`. */
  lemma RemoveFirstSuffix(base: string, pat: string)
    requires forall j :: 0 <= j < |base| ==> !OccursAt(base + pat, pat, j)
    ensures RemoveFirst(base + pat, pat) == base
  {
    var s := base + pat;
    assert s[|base|..|base| + |pat|] == pat;
    assert OccursAt(s, pat, |base|);
    var i := IndexOf(s, pat).value;
    assert i == |base|;
    assert s[..i] == base;
  }

  // ---------------------------------------------------------------------------
  // Characters

  /** `c.toUpperCase()` restricted to ASCII: `a`..`z` become `A`..`Z`. */
  function Upper(c: char): (r: char)
    ensures 'a' <= c <= 'z' ==> 'A' <= r <= 'Z' && r as int - 'A' as int == c as int - 'a' as int
    ensures !('a' <= c <= 'z') ==> r == c
  {
    if 'a' <= c <= 'z' then (c as int - 'a' as int + 'A' as int) as char else c
  }

  /** `w.charAt(0).toUpperCase() + w.slice(1)`; the empty word stays empty. */
  function Capitalize(w: string): (r: string)
    ensures |r| == |w|
    ensures |w| > 0 ==> r[0] == Upper(w[0]) && r[1..] == w[1..]
  {
    if |w| == 0 then "" else [Upper(w[0])] + w[1..]
  }

  /** Number of occurrences of `c` in `s`. */
  function Count(s: string, c: char): nat
    decreases |s|
  {
    if |s| == 0 then 0 else (if s[0] == c then 1 else 0) + Count(s[1..], c)
  }

  lemma {:induction false} CountConcat(a: string, b: string, c: char)
    ensures Count(a + b, c) == Count(a, c) + Count(b, c)
    decreases |a|
  {
    if |a| == 0 {
      assert a + b == b;
    } else {
      assert (a + b)[1..] == a[1..] + b;
      CountConcat(a[1..], b, c);
    }
  }

  lemma {:induction false} CountAbsent(s: string, c: char)
    requires c !in s
    ensures Count(s, c) == 0
    decreases |s|
  {
    if |s| > 0 {
      CountAbsent(s[1..], c);
    }
  }

  // ---------------------------------------------------------------------------
  // split / join

  /** `s.split(c)`: the pieces between the occurrences of `c`; `""` gives `[""]`. */
  function Split(s: string, c: char): (r: seq<string>)
    ensures |r| >= 1
    decreases |s|
  {
    if c !in s then [s]
    else
      var i := FirstIndex(s, c);
      [s[..i]] + Split(s[i + 1..], c)
  }

  /** Splitting at the first separator: the piece before it, then the split of
      what follows it; the piece before it holds no separator. */
  lemma SplitAtFirst(s: string, c: char)
    requires c in s
    ensures var i := FirstIndex(s, c);
            && Split(s, c) == [s[..i]] + Split(s[i + 1..], c)
            && Split(s[..i], c) == [s[..i]]
  {
  }

  /** `ws.join([sep])`. */
  function Join(ws: seq<string>, sep: char): string
    decreases |ws|
  {
    if |ws| == 0 then ""
    else if |ws| == 1 then ws[0]
    else ws[0] + [sep] + Join(ws[1..], sep)
  }

  lemma JoinCons(w: string, rest: seq<string>, sep: char)
    requires |rest| >= 1
    ensures Join([w] + rest, sep) == w + [sep] + Join(rest, sep)
  {
    assert ([w] + rest)[0] == w && ([w] + rest)[1..] == rest;
  }

  /** Splitting yields one more piece than there are separators, and no piece
      holds the separator. */
  lemma SplitShape(s: string, c: char)
    ensures |Split(s, c)| == Count(s, c) + 1
    ensures forall k :: 0 <= k < |Split(s, c)| ==> c !in Split(s, c)[k]
  {
    SplitCount(s, c);
    SplitPieces(s, c);
  }

  lemma {:induction false} SplitCount(s: string, c: char)
    ensures |Split(s, c)| == Count(s, c) + 1
    decreases |s|
  {
    if c !in s {
      CountAbsent(s, c);
    } else {
      var i := FirstIndex(s, c);
      SplitCount(s[i + 1..], c);
      assert s == s[..i] + [c] + s[i + 1..];
      CountConcat(s[..i] + [c], s[i + 1..], c);
      CountConcat(s[..i], [c], c);
      CountAbsent(s[..i], c);
      assert |Split(s, c)| == 1 + |Split(s[i + 1..], c)|;
    }
  }

  lemma {:induction false} SplitPieces(s: string, c: char)
    ensures forall k :: 0 <= k < |Split(s, c)| ==> c !in Split(s, c)[k]
    decreases |s|
  {
    if c in s {
      var i := FirstIndex(s, c);
      SplitPieces(s[i + 1..], c);
      var rest := Split(s[i + 1..], c);
      assert Split(s, c) == [s[..i]] + rest;
      forall k | 0 <= k < |Split(s, c)|
        ensures c !in Split(s, c)[k]
      {
        if k > 0 {
          assert Split(s, c)[k] == rest[k - 1];
        }
      }
    }
  }

  /** Joining the pieces with the separator gives back the original string. */
  lemma {:induction false} JoinSplit(s: string, c: char)
    ensures Join(Split(s, c), c) == s
    decreases |s|
  {
    if c in s {
      var i := FirstIndex(s, c);
      var rest := Split(s[i + 1..], c);
      assert Split(s, c) == [s[..i]] + rest;
      JoinSplit(s[i + 1..], c);
      JoinCons(s[..i], rest, c);
      assert s == s[..i] + [c] + s[i + 1..];
    }
  }

  // ---------------------------------------------------------------------------
  // trim

  /** The characters `String.prototype.trim` removes: ECMAScript WhiteSpace
      (tab, vertical tab, form feed, space, no-break space, byte order mark
      and the space separators of Unicode category Zs) and LineTerminator. */
  predicate IsWhite(c: char) {
    || c == '\t' || c == '\U{000B}' || c == '\U{000C}' || c == ' ' || c == '\U{00A0}'
    || c == '\U{FEFF}' || c == '\U{1680}' || ('\U{2000}' <= c <= '\U{200A}')
    || c == '\U{202F}' || c == '\U{205F}' || c == '\U{3000}'
    || c == '\n' || c == '\r' || c == '\U{2028}' || c == '\U{2029}'
  }

  /** Every character of `s[lo..hi]` is white. */
  ghost predicate WhiteBetween(s: string, lo: int, hi: int) {
    forall k :: lo <= k < hi && 0 <= k < |s| ==> IsWhite(s[k])
  }

  /** Length of the run of white characters at the start of `s`. */
  function LeadingWhite(s: string): (n: nat)
    ensures n <= |s| && WhiteBetween(s, 0, n) && (n == |s| || !IsWhite(s[n]))
    decreases |s|
  {
    if |s| > 0 && IsWhite(s[0]) then LeadingWhite(s[1..]) + 1 else 0
  }

  /** Length of the run of white characters at the end of `s`. */
  function TrailingWhite(s: string): (n: nat)
    ensures n <= |s| && WhiteBetween(s, |s| - n, |s|) && (n == |s| || !IsWhite(s[|s| - n - 1]))
    decreases |s|
  {
    if |s| > 0 && IsWhite(s[|s| - 1]) then TrailingWhite(s[..|s| - 1]) + 1 else 0
  }

  /** `s.trim()`: `s` without its leading and trailing white characters. */
  function Trim(s: string): (r: string)
    ensures |r| == 0 || (!IsWhite(r[0]) && !IsWhite(r[|r| - 1]))
    ensures exists i, j :: 0 <= i <= j <= |s| && r == s[i..j] && WhiteBetween(s, 0, i) && WhiteBetween(s, j, |s|)
  {
    var i := LeadingWhite(s);
    if i == |s| then
      assert s[i..i] == "";
      ""
    else
      var j := |s| - TrailingWhite(s);
      s[i..j]
  }

  /** Trimming twice is trimming once. */
  lemma TrimIdempotent(s: string)
    ensures Trim(Trim(s)) == Trim(s)
  {
    var r := Trim(s);
    if |r| > 0 {
      assert LeadingWhite(r) == 0;
      assert TrailingWhite(r) == 0;
      assert r[0..|r|] == r;
    }
  }

  // ---------------------------------------------------------------------------
  // Decimal numerals

  predicate IsDigit(c: char) {
    '0' <= c <= '9'
  }

  /** The decimal numeral of `n` as a template literal renders it. */
  function NatToString(n: nat): (r: string)
    ensures |r| >= 1 && (r[0] == '0' ==> n == 0)
    ensures forall k :: 0 <= k < |r| ==> IsDigit(r[k])
    decreases n
  {
    var d := (n % 10 + '0' as int) as char;
    if n < 10 then [d] else NatToString(n / 10) + [d]
  }

  /** The value of a string of decimal digits. */
  function ParseNat(s: string): nat
    requires forall k :: 0 <= k < |s| ==> IsDigit(s[k])
    decreases |s|
  {
    if |s| == 0 then 0
    else
      assert IsDigit(s[|s| - 1]);
      ParseNat(s[..|s| - 1]) * 10 + (s[|s| - 1] as int - '0' as int)
  }

  /** Reading the numeral back gives the number. */
  lemma {:induction false} ParseNatToString(n: nat)
    ensures ParseNat(NatToString(n)) == n
    decreases n
  {
    var s := NatToString(n);
    if n >= 10 {
      ParseNatToString(n / 10);
      assert s[..|s| - 1] == NatToString(n / 10);
    }
  }

  /** Different numbers have different numerals. */
  lemma NatToStringInjective(m: nat, n: nat)
    requires NatToString(m) == NatToString(n)
    ensures m == n
  {
    ParseNatToString(m);
    ParseNatToString(n);
  }
}
