/**
  The parts of Go's `strings`, `strconv` and `regexp` character classes that
  the modelled code relies on, stated over `string` (a sequence of Unicode
  scalar values).  A Go string is a byte sequence; the model treats each
  character as one unit, which agrees with Go whenever the code only looks at
  ASCII characters.
*/
module GoStrings {

  datatype Option<T> = None | Some(value: T)

  datatype Result<T> = Ok(value: T) | Err(msg: string)

  // ---------------------------------------------------------------------
  // Character classes

  /** unicode.IsSpace, used by strings.TrimSpace and strings.Fields */
  predicate IsSpace(c: char) {
    c == ' ' || ('\t' <= c <= '\r') || c == '\U{85}' || c == '\U{A0}' || c == '\U{1680}'
    || ('\U{2000}' <= c <= '\U{200A}') || c == '\U{2028}' || c == '\U{2029}'
    || c == '\U{202F}' || c == '\U{205F}' || c == '\U{3000}'
  }

  /** The regexp class `\s`: `[\t\n\f\r ]` */
  predicate IsReSpace(c: char) {
    c == ' ' || c == '\t' || c == '\n' || c == '\U{C}' || c == '\r'
  }

  /** The regexp class `\w`: `[0-9A-Za-z_]` */
  predicate IsWordChar(c: char) {
    ('0' <= c <= '9') || ('A' <= c <= 'Z') || ('a' <= c <= 'z') || c == '_'
  }

  predicate IsDigit(c: char) { '0' <= c <= '9' }

  predicate IsAlnum(c: char) {
    ('0' <= c <= '9') || ('A' <= c <= 'Z') || ('a' <= c <= 'z')
  }

  predicate AllWordChars(s: string) {
    forall i :: 0 <= i < |s| ==> IsWordChar(s[i])
  }

  // ---------------------------------------------------------------------
  // Case mapping (ASCII letters only)

  function UpperChar(c: char): char {
    if 'a' <= c <= 'z' then (c as int - 32) as char else c
  }

  function LowerChar(c: char): char {
    if 'A' <= c <= 'Z' then (c as int + 32) as char else c
  }

  function ToUpper(s: string): (r: string)
    ensures |r| == |s| && forall i :: 0 <= i < |s| ==> r[i] == UpperChar(s[i])
  {
    if s == [] then [] else [UpperChar(s[0])] + ToUpper(s[1..])
  }

  function ToLower(s: string): (r: string)
    ensures |r| == |s| && forall i :: 0 <= i < |s| ==> r[i] == LowerChar(s[i])
  {
    if s == [] then [] else [LowerChar(s[0])] + ToLower(s[1..])
  }

  // ---------------------------------------------------------------------
  // Prefixes, suffixes, containment

  predicate HasPrefix(s: string, p: string) { p <= s }

  predicate HasSuffix(s: string, p: string) {
    |p| <= |s| && s[|s| - |p|..] == p
  }

  /** strings.Contains */
  predicate Contains(s: string, t: string)
    decreases |s|
  {
    t <= s || (|s| > 0 && Contains(s[1..], t))
  }

  /** A string without the needle's first character cannot contain the needle */
  lemma {:induction false} ContainsNeedsFirst(s: string, t: string)
    requires t != [] && forall i :: 0 <= i < |s| ==> s[i] != t[0]
    ensures !Contains(s, t)
    decreases |s|
  {
    if s != [] {
      var r := s[1..];
      forall i | 0 <= i < |r| ensures r[i] != t[0] {
        assert r[i] == s[i + 1];
      }
      ContainsNeedsFirst(r, t);
      assert !(t <= s) by {
        assert s[0] != t[0];
      }
    }
  }

  /** Nor can one where the needle's first two characters never appear side by side */
  lemma {:induction false} ContainsNeedsPair(s: string, t: string)
    requires |t| >= 2 && forall i :: 0 <= i < |s| - 1 ==> s[i] != t[0] || s[i + 1] != t[1]
    ensures !Contains(s, t)
    decreases |s|
  {
    if s != [] {
      var r := s[1..];
      forall i | 0 <= i < |r| - 1 ensures r[i] != t[0] || r[i + 1] != t[1] {
        assert r[i] == s[i + 1] && r[i + 1] == s[i + 2];
      }
      ContainsNeedsPair(r, t);
      assert !(t <= s) by {
        if |s| >= 2 {
          assert s[0] != t[0] || s[1] != t[1];
        }
      }
    }
  }

  // ---------------------------------------------------------------------
  // Trimming

  function TrimLeft(s: string): (r: string)
    ensures |r| <= |s| && r == s[|s| - |r|..]
    ensures r == [] || !IsSpace(r[0])
    ensures forall i :: 0 <= i < |s| - |r| ==> IsSpace(s[i])
  {
    if s == [] || !IsSpace(s[0]) then s else TrimLeft(s[1..])
  }

  function TrimRight(s: string): (r: string)
    ensures |r| <= |s| && r == s[..|r|]
    ensures r == [] || !IsSpace(r[|r| - 1])
    ensures forall i :: |r| <= i < |s| ==> IsSpace(s[i])
  {
    if s == [] || !IsSpace(s[|s| - 1]) then s else TrimRight(s[..|s| - 1])
  }

  /** strings.TrimSpace */
  function TrimSpace(s: string): string {
    TrimRight(TrimLeft(s))
  }

  lemma TrimSpaceOfUnspaced(s: string)
    requires s != [] && !IsSpace(s[0]) && !IsSpace(s[|s| - 1])
    ensures TrimSpace(s) == s
  {
  }

  // ---------------------------------------------------------------------
  // Fields: maximal runs of non-space characters

  /** The longest prefix of s holding no space */
  function NonSpacePrefix(s: string): (r: string)
    ensures r <= s
    ensures forall i :: 0 <= i < |r| ==> !IsSpace(r[i])
    ensures |r| < |s| ==> IsSpace(s[|r|])
  {
    if s == [] || IsSpace(s[0]) then [] else [s[0]] + NonSpacePrefix(s[1..])
  }

  predicate IsField(w: string) {
    w != [] && forall i :: 0 <= i < |w| ==> !IsSpace(w[i])
  }

  /** strings.Fields */
  function Fields(s: string): (r: seq<string>)
    ensures forall i :: 0 <= i < |r| ==> IsField(r[i])
    decreases |s|
  {
    if s == [] then []
    else if IsSpace(s[0]) then Fields(s[1..])
    else
      var w := NonSpacePrefix(s);
      [w] + Fields(s[|w|..])
  }

  // ---------------------------------------------------------------------
  // Joining and splitting

  /** strings.Join */
  function Join(parts: seq<string>, sep: string): string {
    if parts == [] then []
    else if |parts| == 1 then parts[0]
    else parts[0] + sep + Join(parts[1..], sep)
  }

  lemma JoinAppend(parts: seq<string>, last: string, sep: string)
    ensures Join(parts + [last], sep) == if parts == [] then last else Join(parts, sep) + sep + last
  {
    if |parts| > 1 {
      assert (parts + [last])[1..] == parts[1..] + [last];
      JoinAppend(parts[1..], last, sep);
    } else if |parts| == 1 {
      assert (parts + [last])[1..] == [last];
    }
  }

  lemma {:induction false} FieldsOfJoin(ws: seq<string>)
    requires forall i :: 0 <= i < |ws| ==> IsField(ws[i])
    ensures Fields(Join(ws, " ")) == ws
    decreases |ws|
  {
    if ws == [] {
    } else if |ws| == 1 {
      FieldsOfField(ws[0], []);
      assert ws[0] + [] == ws[0];
    } else {
      var rest := Join(ws[1..], " ");
      FieldsOfJoin(ws[1..]);
      assert Join(ws, " ") == ws[0] + (" " + rest);
      FieldsOfField(ws[0], " " + rest);
      assert Fields(" " + rest) == Fields(rest) by {
        assert (" " + rest)[1..] == rest;
      }
    }
  }

  lemma {:induction false} FieldsOfField(w: string, tail: string)
    requires IsField(w)
    requires tail == [] || IsSpace(tail[0])
    ensures Fields(w + tail) == [w] + Fields(tail)
  {
    NonSpacePrefixOf(w, tail);
    assert (w + tail)[|w|..] == tail;
  }

  lemma {:induction false} NonSpacePrefixOf(w: string, tail: string)
    requires forall i :: 0 <= i < |w| ==> !IsSpace(w[i])
    requires tail == [] || IsSpace(tail[0])
    ensures NonSpacePrefix(w + tail) == w
    decreases |w|
  {
    if w == [] {
    } else {
      assert (w + tail)[1..] == w[1..] + tail;
      NonSpacePrefixOf(w[1..], tail);
    }
  }

  /** strings.Split with a one-character separator */
  function Split(s: string, sep: char): (r: seq<string>)
    ensures |r| > 0
    ensures forall i :: 0 <= i < |r| ==> sep !in r[i]
    ensures Join(r, [sep]) == s
  {
    if s == [] then [[]]
    else if s[0] == sep then
      var rest := Split(s[1..], sep);
      assert Join([[]] + rest, [sep]) == [sep] + Join(rest, [sep]) by {
        assert ([[]] + rest)[1..] == rest;
      }
      [[]] + rest
    else
      var rest := Split(s[1..], sep);
      var r := [[s[0]] + rest[0]] + rest[1..];
      assert Join(r, [sep]) == [s[0]] + Join(rest, [sep]) by {
        if |rest| > 1 {
          assert r[1..] == rest[1..];
        }
      }
      r
  }

  /** The first part of a join, and what follows it */
  lemma JoinHead(p: seq<string>, sep: char)
    requires |p| > 0
    ensures |Join(p, [sep])| >= |p[0]| && Join(p, [sep])[..|p[0]|] == p[0]
    ensures |p| == 1 ==> Join(p, [sep]) == p[0]
    ensures |p| > 1 ==> (|Join(p, [sep])| > |p[0]| && Join(p, [sep])[|p[0]|] == sep &&
                         Join(p, [sep])[|p[0]| + 1..] == Join(p[1..], [sep]))
  {
    if |p| > 1 {
      assert Join(p, [sep]) == p[0] + [sep] + Join(p[1..], [sep]);
    }
  }

  /** Joining parts free of the separator loses nothing */
  lemma {:induction false} JoinInjective(p: seq<string>, q: seq<string>, sep: char)
    requires |p| > 0 && |q| > 0
    requires forall i :: 0 <= i < |p| ==> sep !in p[i]
    requires forall i :: 0 <= i < |q| ==> sep !in q[i]
    requires Join(p, [sep]) == Join(q, [sep])
    ensures p == q
    decreases |p|
  {
    var s := Join(p, [sep]);
    JoinHead(p, sep);
    JoinHead(q, sep);
    assert p[0] == q[0];
    if |p| > 1 && |q| > 1 {
      forall i | 0 <= i < |p[1..]| ensures sep !in p[1..][i] {
        assert p[1..][i] == p[i + 1];
      }
      forall i | 0 <= i < |q[1..]| ensures sep !in q[1..][i] {
        assert q[1..][i] == q[i + 1];
      }
      JoinInjective(p[1..], q[1..], sep);
      assert p == [p[0]] + p[1..];
      assert q == [q[0]] + q[1..];
    }
  }

  /** strings.Split undoes strings.Join over parts free of the separator */
  lemma SplitJoin(parts: seq<string>, sep: char)
    requires |parts| > 0 && forall i :: 0 <= i < |parts| ==> sep !in parts[i]
    ensures Split(Join(parts, [sep]), sep) == parts
  {
    JoinInjective(Split(Join(parts, [sep]), sep), parts, sep);
  }

  /** Four parts joined by one separator */
  lemma JoinFour(a: string, b: string, c: string, d: string, sep: char)
    ensures Join([a, b, c, d], [sep]) == a + [sep] + b + [sep] + c + [sep] + d
  {
    assert [a, b, c, d][1..] == [b, c, d];
    assert [b, c, d][1..] == [c, d];
    assert [c, d][1..] == [d];
    assert Join([c, d], [sep]) == c + [sep] + d;
    assert Join([b, c, d], [sep]) == b + [sep] + (c + [sep] + d);
  }

  /** Split yields one more part than there are separators */
  lemma {:induction false} SplitCount(s: string, sep: char)
    ensures |Split(s, sep)| == multiset(s)[sep] + 1
    decreases |s|
  {
    if s != [] {
      SplitCount(s[1..], sep);
      assert s == [s[0]] + s[1..];
      assert multiset(s) == multiset([s[0]]) + multiset(s[1..]);
    }
  }

  /** The index of the first occurrence of c in s */
  function IndexOfChar(s: string, c: char): (r: Option<nat>)
    ensures r.Some? ==> r.value < |s| && s[r.value] == c && c !in s[..r.value]
    ensures r.None? ==> c !in s
  {
    if s == [] then None
    else if s[0] == c then Some(0)
    else match IndexOfChar(s[1..], c)
      case None => None
      case Some(k) => Some(k + 1)
  }

  /** strings.SplitN(s, sep, 2) with a one-character separator */
  function SplitOnce(s: string, sep: char): (r: seq<string>)
    ensures 1 <= |r| <= 2
    ensures |r| == 1 <==> sep !in s
    ensures |r| == 1 ==> r[0] == s
    ensures |r| == 2 ==> sep !in r[0] && s == r[0] + [sep] + r[1]
  {
    match IndexOfChar(s, sep)
    case None => [s]
    case Some(k) =>
      assert s == s[..k] + [sep] + s[k + 1..];
      [s[..k], s[k + 1..]]
  }

  // ---------------------------------------------------------------------
  // Replacing

  /** strings.ReplaceAll for a non-empty pattern: leftmost, non-overlapping */
  function ReplaceAll(s: string, pat: string, rep: string): (r: string)
    requires pat != []
    decreases |s|
  {
    if |s| < |pat| then s
    else if pat <= s then rep + ReplaceAll(s[|pat|..], pat, rep)
    else [s[0]] + ReplaceAll(s[1..], pat, rep)
  }

  /** No occurrence of `pat` starts before position k of s */
  predicate NoMatchBefore(s: string, pat: string, k: nat)
    requires k <= |s|
  {
    forall i :: 0 <= i < k ==> !(pat <= s[i..])
  }

  lemma {:induction false} ReplaceAllSkip(s: string, pat: string, rep: string, k: nat)
    requires pat != [] && k <= |s| && NoMatchBefore(s, pat, k)
    ensures ReplaceAll(s, pat, rep) == s[..k] + ReplaceAll(s[k..], pat, rep)
    decreases k
  {
    if k > 0 {
      if |s| < |pat| {
        ReplaceAllShort(s, pat, rep);
        ReplaceAllShort(s[k..], pat, rep);
        assert s[..k] + s[k..] == s;
      } else {
        NoMatchBeforeTail(s, pat, k);
        ReplaceAllNoMatch(s, pat, rep);
        ReplaceAllSkip(s[1..], pat, rep, k - 1);
        SkipRegroup(s, k, ReplaceAll(s[k..], pat, rep));
      }
    }
  }

  /** One character that starts no occurrence is copied */
  lemma ReplaceAllNoMatch(s: string, pat: string, rep: string)
    requires pat != [] && |s| >= |pat| && !(pat <= s)
    ensures ReplaceAll(s, pat, rep) == [s[0]] + ReplaceAll(s[1..], pat, rep)
  {
  }

  lemma NoMatchBeforeTail(s: string, pat: string, k: nat)
    requires 0 < k <= |s| && NoMatchBefore(s, pat, k)
    ensures !(pat <= s) && s[1..][k - 1..] == s[k..] && NoMatchBefore(s[1..], pat, k - 1)
  {
    assert !(pat <= s[0..]);
    assert s[0..] == s;
    forall i | 0 <= i < k - 1 ensures !(pat <= s[1..][i..]) {
      assert s[1..][i..] == s[i + 1..];
    }
  }

  lemma SkipRegroup(s: string, k: nat, t: string)
    requires 0 < k <= |s|
    ensures [s[0]] + (s[1..][..k - 1] + t) == s[..k] + t
  {
    assert s[..k] == [s[0]] + s[1..][..k - 1];
  }

  lemma ReplaceAllShort(s: string, pat: string, rep: string)
    requires pat != [] && |s| < |pat|
    ensures ReplaceAll(s, pat, rep) == s
  {
  }

  lemma ReplaceAllAbsent(s: string, pat: string, rep: string)
    requires pat != [] && NoMatchBefore(s, pat, |s|)
    ensures ReplaceAll(s, pat, rep) == s
  {
    ReplaceAllSkip(s, pat, rep, |s|);
    assert s[|s|..] == [];
  }

  /** No proper suffix of p is also a prefix of p, so two occurrences never overlap */
  predicate Unbordered(p: string) {
    forall k :: 0 < k < |p| ==> p[k..] != p[..|p| - k]
  }

  /**
    ReplaceAll works piecewise when no occurrence of the pattern starts in
    the last |pat|-1 characters of the first piece.
  */
  lemma {:induction false} ReplaceAllConcat(a: string, b: string, pat: string, rep: string)
    requires pat != []
    requires forall i :: 0 <= i < |a| && |a| - |pat| < i ==> !(pat <= (a + b)[i..])
    ensures ReplaceAll(a + b, pat, rep) == ReplaceAll(a, pat, rep) + ReplaceAll(b, pat, rep)
    decreases |a|
  {
    var s := a + b;
    if |a| < |pat| {
      ReplaceAllShort(a, pat, rep);
      ReplaceAllSkip(s, pat, rep, |a|);
      assert s[..|a|] == a && s[|a|..] == b;
    } else if pat <= a {
      assert pat <= s;
      assert s[|pat|..] == a[|pat|..] + b;
      forall i | 0 <= i < |a[|pat|..]| && |a[|pat|..]| - |pat| < i
        ensures !(pat <= (a[|pat|..] + b)[i..])
      {
        assert (a[|pat|..] + b)[i..] == s[i + |pat|..];
      }
      ReplaceAllConcat(a[|pat|..], b, pat, rep);
    } else {
      assert !(pat <= s);
      assert s[1..] == a[1..] + b;
      forall i | 0 <= i < |a[1..]| && |a[1..]| - |pat| < i
        ensures !(pat <= (a[1..] + b)[i..])
      {
        assert (a[1..] + b)[i..] == s[i + 1..];
      }
      ReplaceAllConcat(a[1..], b, pat, rep);
    }
  }

  /** Every occurrence of an unbordered pattern is replaced where it stands */
  lemma ReplaceAllAround(a: string, b: string, pat: string, rep: string)
    requires pat != [] && Unbordered(pat)
    ensures ReplaceAll(a + pat + b, pat, rep) == ReplaceAll(a, pat, rep) + rep + ReplaceAll(b, pat, rep)
  {
    var t := pat + b;
    assert a + pat + b == a + t;
    forall i | 0 <= i < |a| && |a| - |pat| < i ensures !(pat <= (a + t)[i..]) {
      var k := |a| - i;
      assert pat[k..] != pat[..|pat| - k];
    }
    ReplaceAllConcat(a, t, pat, rep);
    assert pat <= t && t[|pat|..] == b;
  }

  /** pat occurs in s starting at position i */
  predicate OccursAt(s: string, pat: string, i: nat) {
    i + |pat| <= |s| && s[i..i + |pat|] == pat
  }

  /** pat occurs nowhere in x */
  predicate NoOccurrence(x: string, pat: string) {
    forall i: nat :: i <= |x| ==> !OccursAt(x, pat, i)
  }

  /** No occurrence of pat starts before position k */
  predicate NoneBefore(s: string, pat: string, k: nat) {
    forall i: nat :: i < k ==> !OccursAt(s, pat, i)
  }

  /** The prefix test that ReplaceAll uses, restated as an occurrence */
  lemma OccursAtPrefix(s: string, pat: string, i: nat)
    requires i <= |s|
    ensures OccursAt(s, pat, i) == (pat <= s[i..])
  {
    if i + |pat| <= |s| {
      assert s[i..][..|pat|] == s[i..i + |pat|];
    }
  }

  lemma NoOccurrenceNoMatch(s: string, pat: string)
    requires NoOccurrence(s, pat)
    ensures NoMatchBefore(s, pat, |s|)
  {
    forall i | 0 <= i < |s| ensures !(pat <= s[i..]) {
      OccursAtPrefix(s, pat, i);
    }
  }

  /** A character of pat that x lacks rules out every occurrence */
  lemma NoOccurrenceByChar(x: string, pat: string, k: nat)
    requires k < |pat| && pat[k] !in x
    ensures NoOccurrence(x, pat)
  {
  }

  /**
    In x + pat + y, where x holds no occurrence, the first occurrence of an
    unbordered pattern is the displayed one.
  */
  lemma Shielded(x: string, pat: string, y: string)
    requires pat != [] && Unbordered(pat) && NoOccurrence(x, pat)
    ensures OccursAt(x + pat + y, pat, |x|)
    ensures NoneBefore(x + pat + y, pat, |x|)
  {
    var s := x + pat + y;
    assert s[|x|..|x| + |pat|] == pat;
    forall i: nat | i < |x| ensures !OccursAt(s, pat, i) {
      if i + |pat| <= |x| {
        assert s[i..i + |pat|] == x[i..i + |pat|];
        assert !OccursAt(x, pat, i);
      } else {
        var k := |x| - i;
        assert s[i + k..i + |pat|] == pat[..|pat| - k];
        assert pat[k..] != pat[..|pat| - k];
      }
    }
  }

  // ---------------------------------------------------------------------
  // Integers

  const MinInt64: int := -0x8000_0000_0000_0000
  const MaxInt64: int := 0x7FFF_FFFF_FFFF_FFFF

  /** Two's-complement wrap-around of Go's 64-bit `int` */
  function Wrap64(x: int): (r: int)
    ensures MinInt64 <= r <= MaxInt64
    ensures MinInt64 <= x <= MaxInt64 ==> r == x
  {
    (x - MinInt64) % 0x1_0000_0000_0000_0000 + MinInt64
  }

  predicate IsDigits(s: string) {
    s != [] && forall i :: 0 <= i < |s| ==> IsDigit(s[i])
  }

  function DigitsValue(s: string): (n: int)
    requires forall i :: 0 <= i < |s| ==> IsDigit(s[i])
    ensures n >= 0
  {
    if s == [] then 0
    else
      var h := DigitsValue(s[..|s| - 1]);
      assert IsDigit(s[|s| - 1]);
      assert h * 10 >= 0;
      h * 10 + (s[|s| - 1] as int - '0' as int)
  }

  /** The largest `int` plus one is the smallest */
  lemma Wrap64Max()
    ensures Wrap64(MaxInt64 + 1) == MinInt64
  {
  }

  /** strconv.Atoi: an optional sign and at least one decimal digit, within int64 */
  function Atoi(s: string): (r: Option<int>)
    ensures r.Some? ==> MinInt64 <= r.value <= MaxInt64
  {
    var neg := |s| > 0 && s[0] == '-';
    var digits := if |s| > 0 && (s[0] == '-' || s[0] == '+') then s[1..] else s;
    if !IsDigits(digits) then None
    else
      var v: int := if neg then -DigitsValue(digits) else DigitsValue(digits);
      if MinInt64 <= v <= MaxInt64 then Some(v) else None
  }

  function DigitChar(d: nat): char
    requires d < 10
  {
    ('0' as int + d) as char
  }

  /** Decimal digits of a natural number (no sign) */
  function NatToString(n: nat): (r: string)
    ensures IsDigits(r)
    ensures DigitsValue(r) == n
    ensures r[0] == '0' ==> n == 0
    decreases n
  {
    if n < 10 then [DigitChar(n)]
    else
      var p := NatToString(n / 10);
      var r := p + [DigitChar(n % 10)];
      assert r[..|r| - 1] == p;
      r
  }

  /** fmt's `%d` / strconv.Itoa */
  function Itoa(n: int): (r: string)
  {
    if n < 0 then "-" + NatToString(-n) else NatToString(n)
  }

  lemma AtoiItoa(n: int)
    requires MinInt64 <= n <= MaxInt64
    ensures Atoi(Itoa(n)) == Some(n)
  {
    if n < 0 {
      assert Itoa(n)[1..] == NatToString(-n);
    }
  }

  lemma ItoaNoDot(n: int)
    ensures '.' !in Itoa(n)
  {
    var d := NatToString(if n < 0 then -n else n);
    assert forall i :: 0 <= i < |d| ==> d[i] != '.';
  }

  /** A run of k zeros */
  function Zeros(k: nat): (r: string)
    ensures |r| == k && forall i :: 0 <= i < k ==> r[i] == '0'
  {
    if k == 0 then [] else "0" + Zeros(k - 1)
  }

  /** `d` left-padded with zeros to width `w` */
  function PadZeros(d: string, w: nat): (r: string)
    ensures |r| >= w
  {
    (if |d| < w then Zeros(w - |d|) else "") + d
  }

  /** fmt's `%03d`: zero-padded to a width of three, the sign counting in the width */
  function Pad3(n: int): (r: string)
    ensures |r| >= 3
  {
    if n < 0 then "-" + PadZeros(NatToString(-n), 2) else PadZeros(NatToString(n), 3)
  }


  /** A string of zeros has value 0 */
  lemma {:induction false} AllZerosValue(s: string)
    requires forall i :: 0 <= i < |s| ==> s[i] == '0'
    ensures forall i :: 0 <= i < |s| ==> IsDigit(s[i])
    ensures DigitsValue(s) == 0
  {
    if s != [] {
      AllZerosValue(s[..|s| - 1]);
    }
  }

  /** Leading zeros do not change a decimal value */
  lemma {:induction false} LeadingZerosValue(z: string, d: string)
    requires forall i :: 0 <= i < |z| ==> z[i] == '0'
    requires forall i :: 0 <= i < |d| ==> IsDigit(d[i])
    ensures forall i :: 0 <= i < |z + d| ==> IsDigit((z + d)[i])
    ensures DigitsValue(z + d) == DigitsValue(d)
  {
    AllZerosValue(z);
    if d == [] {
      assert z + d == z;
    } else {
      var n := |d| - 1;
      LeadingZerosValue(z, d[..n]);
      assert (z + d)[..|z + d| - 1] == z + d[..n];
    }
  }

  lemma PadZerosValue(d: string, w: nat)
    requires IsDigits(d)
    ensures IsDigits(PadZeros(d, w)) && DigitsValue(PadZeros(d, w)) == DigitsValue(d)
  {
    LeadingZerosValue(if |d| < w then Zeros(w - |d|) else "", d);
  }

  /** Reading back `%03d` gives the number that was written */
  lemma AtoiPad3(n: int)
    requires MinInt64 <= n <= MaxInt64
    ensures Atoi(Pad3(n)) == Some(n)
  {
    if n < 0 {
      var p := PadZeros(NatToString(-n), 2);
      PadZerosValue(NatToString(-n), 2);
      assert Pad3(n)[1..] == p;
    } else {
      PadZerosValue(NatToString(n), 3);
    }
  }

  /** Some prefix of the list starts `s`, as a loop of HasPrefix checks */
  function AnyPrefix(s: string, prefixes: seq<string>): (r: bool)
    ensures r <==> exists i :: 0 <= i < |prefixes| && HasPrefix(s, prefixes[i])
  {
    if prefixes == [] then false
    else HasPrefix(s, prefixes[0]) || AnyPrefix(s, prefixes[1..])
  }

  /** Some suffix of the list ends `s`, as a loop of HasSuffix checks */
  function AnySuffix(s: string, suffixes: seq<string>): (r: bool)
    ensures r <==> exists i :: 0 <= i < |suffixes| && HasSuffix(s, suffixes[i])
  {
    if suffixes == [] then false
    else HasSuffix(s, suffixes[0]) || AnySuffix(s, suffixes[1..])
  }

  lemma ToLowerIdempotent(s: string)
    ensures ToLower(ToLower(s)) == ToLower(s)
  {
    var l := ToLower(s);
    forall i | 0 <= i < |s|
      ensures LowerChar(l[i]) == l[i]
    {
    }
  }
}
