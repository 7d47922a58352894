/**
  The query helpers of common/queries.go: the `$N` placeholder count, the
  parameter description derived from SQL comments, the default parameters
  of two introspection queries, and the statement classification that
  picks how a query is executed.
*/
module Queries {
  import opened GoStrings

  // ---------------------------------------------------------------------
  // CountQueryParameters

  /** The run of decimal digits a string starts with */
  function LeadingDigits(s: string): (r: string)
    ensures r <= s
    ensures forall i :: 0 <= i < |r| ==> IsDigit(r[i])
    ensures |r| < |s| ==> !IsDigit(s[|r|])
  {
    if s == [] || !IsDigit(s[0]) then [] else [s[0]] + LeadingDigits(s[1..])
  }

  /** The digits end exactly where the first non-digit is */
  lemma {:induction false} LeadingDigitsAt(s: string, i: nat)
    requires i <= |s| && forall j :: 0 <= j < i ==> IsDigit(s[j])
    requires i == |s| || !IsDigit(s[i])
    ensures LeadingDigits(s) == s[..i]
  {
    if i > 0 {
      LeadingDigitsAt(s[1..], i - 1);
      assert s[..i] == [s[0]] + s[1..][..i - 1];
    }
  }

  /** The placeholder number a word stands for: `$`, then digits, anything after them ignored */
  function WordParam(w: string): Option<int> {
    if HasPrefix(w, "$") then Atoi(LeadingDigits(w[1..])) else None
  }

  /** The largest placeholder number among the words, or 0 when there is none */
  function MaxParam(words: seq<string>): (m: int)
    ensures m >= 0
  {
    if words == [] then 0
    else
      var m := MaxParam(words[..|words| - 1]);
      var p := WordParam(words[|words| - 1]);
      if p.Some? && p.value > m then p.value else m
  }

  /** MaxParam is the maximum: no word names a larger number, and a non-zero result is named by some word */
  lemma MaxParamIsMax(words: seq<string>)
    ensures forall i :: 0 <= i < |words| && WordParam(words[i]).Some? ==> WordParam(words[i]).value <= MaxParam(words)
    ensures MaxParam(words) == 0 || exists i :: 0 <= i < |words| && WordParam(words[i]) == Some(MaxParam(words))
  {
    MaxParamBounds(words);
    MaxParamAttained(words);
  }

  lemma {:induction false} MaxParamBounds(words: seq<string>)
    ensures forall i :: 0 <= i < |words| && WordParam(words[i]).Some? ==> WordParam(words[i]).value <= MaxParam(words)
  {
    if words != [] {
      var init := words[..|words| - 1];
      MaxParamBounds(init);
      assert forall i :: 0 <= i < |init| ==> init[i] == words[i];
    }
  }

  lemma {:induction false} MaxParamAttained(words: seq<string>)
    ensures MaxParam(words) == 0 || exists i :: 0 <= i < |words| && WordParam(words[i]) == Some(MaxParam(words))
  {
    if words != [] {
      var init := words[..|words| - 1];
      if MaxParam(words) != 0 && MaxParam(words) == MaxParam(init) {
        MaxParamAttained(init);
        var i :| 0 <= i < |init| && WordParam(init[i]) == Some(MaxParam(init));
        assert words[i] == init[i];
      }
    }
  }

  /** The inner loop of CountQueryParameters: cut the word at its first non-digit */
  method TrimTrailing(numStr: string) returns (r: string)
    ensures r == LeadingDigits(numStr)
  {
    var i := 0;
    while i < |numStr| && IsDigit(numStr[i])
      invariant 0 <= i <= |numStr|
      invariant forall j :: 0 <= j < i ==> IsDigit(numStr[j])
    {
      i := i + 1;
    }
    LeadingDigitsAt(numStr, i);
    r := numStr[..i];
  }

  /** CountQueryParameters */
  method CountQueryParameters(query: string) returns (maxParam: int)
    ensures maxParam == MaxParam(Fields(query))
  {
    maxParam := 0;
    var words := Fields(query);
    var k := 0;
    while k < |words|
      invariant 0 <= k <= |words|
      invariant maxParam == MaxParam(words[..k])
    {
      var word := words[k];
      assert words[..k + 1][..k] == words[..k];
      if HasPrefix(word, "$") {
        var numStr := word[1..];
        numStr := TrimTrailing(numStr);
        var num := Atoi(numStr);
        if num.Some? && num.value > maxParam {
          maxParam := num.value;
        }
      }
      k := k + 1;
    }
    assert words[..|words|] == words;
  }

  /** Punctuation after the digits is ignored: `$` + digits + a non-digit tail names the digits' value */
  lemma WordParamIgnoresTail(d: string, tail: string)
    requires IsDigits(d) && DigitsValue(d) <= MaxInt64
    requires tail == [] || !IsDigit(tail[0])
    ensures WordParam("$" + d + tail) == Some(DigitsValue(d))
  {
    var w := "$" + d + tail;
    assert w[1..] == d + tail;
    LeadingDigitsAt(d + tail, |d|);
    assert (d + tail)[..|d|] == d;
  }

  /** The word `$2,` counts as placeholder 2 */
  lemma WordParamExample(d: string)
    requires d == "2"
    ensures WordParam("$" + d + ",") == Some(2)
  {
    WordParamIgnoresTail(d, ",");
  }

  // ---------------------------------------------------------------------
  // ExtractParameterDetails

  /** A line starting `-- $` holds no `:` before its fourth character */
  lemma DocPrefixColon(t: string, parts: seq<string>)
    requires HasPrefix(t, "-- $") && |parts| == 2 && ':' !in parts[0] && t == parts[0] + [':'] + parts[1]
    ensures |parts[0]| >= 4
  {
    assert t[|parts[0]|] == ':';
    assert forall i :: 0 <= i < 4 ==> t[i] == "-- $"[i] != ':';
  }

  /** The `$N=desc` entry a comment line `-- $N: desc` documents, if the line is one */
  function DetailOf(line: string): Option<string> {
    var t := TrimSpace(line);
    if !HasPrefix(t, "-- $") then None
    else
      var parts := SplitOnce(t, ':');
      if |parts| == 2 then
        DocPrefixColon(t, parts);
        Some(TrimSpace(parts[0][3..]) + "=" + TrimSpace(parts[1]))
      else None
  }

  /** The defined results of f over the items, in order */
  function FilterMap(items: seq<string>, f: string -> Option<string>): seq<string> {
    if items == [] then []
    else
      var d := FilterMap(items[..|items| - 1], f);
      match f(items[|items| - 1])
      case Some(x) => d + [x]
      case None => d
  }

  /** Results of consecutive blocks of items follow each other */
  lemma {:induction false} FilterMapAppend(a: seq<string>, b: seq<string>, f: string -> Option<string>)
    ensures FilterMap(a + b, f) == FilterMap(a, f) + FilterMap(b, f)
    decreases |b|
  {
    if b == [] {
      assert a + b == a;
    } else {
      var b' := b[..|b| - 1];
      FilterMapAppend(a, b', f);
      assert (a + b)[..|a + b| - 1] == a + b';
      assert (a + b)[|a + b| - 1] == b[|b| - 1];
    }
  }

  /** Every result is one f gave for some item */
  lemma {:induction false} FilterMapFrom(items: seq<string>, f: string -> Option<string>, i: nat)
    requires i < |FilterMap(items, f)|
    ensures exists k :: 0 <= k < |items| && f(items[k]) == Some(FilterMap(items, f)[i])
  {
    var init := items[..|items| - 1];
    var d := FilterMap(init, f);
    if i < |d| {
      FilterMapFrom(init, f, i);
      var k :| 0 <= k < |init| && f(init[k]) == Some(d[i]);
      assert items[k] == init[k];
    } else {
      assert f(items[|items| - 1]) == Some(FilterMap(items, f)[i]);
    }
  }

  /** The documented entries of the lines, in line order */
  function Details(lines: seq<string>): seq<string> {
    FilterMap(lines, DetailOf)
  }

  /** One more line adds its entry, if it documents one */
  lemma DetailsSnoc(lines: seq<string>, k: nat, line: string)
    requires k < |lines| && line == lines[k]
    ensures Details(lines[..k + 1]) == Details(lines[..k]) + (if DetailOf(line).Some? then [DetailOf(line).value] else [])
  {
    assert lines[..k + 1][..k] == lines[..k];
  }

  /** `$1`, ..., `$k` */
  function GenericParams(k: nat): (r: seq<string>)
    ensures |r| == k && forall i :: 0 <= i < k ==> r[i] == "$" + Itoa(i + 1)
  {
    if k == 0 then [] else GenericParams(k - 1) + ["$" + Itoa(k)]
  }

  /** What ExtractParameterDetails returns */
  function ParameterDetails(query: string): string {
    var details := Details(Split(query, '\n'));
    if details != [] then Join(details, ", ")
    else
      var n := MaxParam(Fields(query));
      if n > 0 then Join(GenericParams(n), ", ") else ""
  }

  /** The first loop of ExtractParameterDetails: one entry per documenting line */
  method CollectDetails(lines: seq<string>) returns (details: seq<string>)
    ensures details == Details(lines)
  {
    details := [];
    var k := 0;
    while k < |lines|
      invariant 0 <= k <= |lines|
      invariant details == Details(lines[..k])
    {
      DetailsSnoc(lines, k, lines[k]);
      ghost var entry := DetailOf(lines[k]);
      ghost var before := details;
      var line := TrimSpace(lines[k]);
      if HasPrefix(line, "-- $") {
        var parts := SplitOnce(line, ':');
        if |parts| == 2 {
          DocPrefixColon(line, parts);
          var param := TrimSpace(parts[0][3..]);
          var desc := TrimSpace(parts[1]);
          assert entry == Some(param + "=" + desc);
          details := details + [param + "=" + desc];
        } else {
          assert entry.None?;
        }
      } else {
        assert entry.None?;
      }
      assert details == before + (if entry.Some? then [entry.value] else []);
      k := k + 1;
    }
    assert lines[..|lines|] == lines;
  }

  /** The fallback loop of ExtractParameterDetails: `$1` to `$n` */
  method GenericParamList(paramCount: int) returns (genericParams: seq<string>)
    requires paramCount >= 0
    ensures genericParams == GenericParams(paramCount)
  {
    genericParams := [];
    var i := 1;
    while i <= paramCount
      invariant 1 <= i <= paramCount + 1
      invariant genericParams == GenericParams(i - 1)
    {
      genericParams := genericParams + ["$" + Itoa(i)];
      i := i + 1;
    }
  }

  /** ExtractParameterDetails */
  method ExtractParameterDetails(query: string) returns (r: string)
    ensures r == ParameterDetails(query)
  {
    var lines := Split(query, '\n');
    var details := CollectDetails(lines);
    if |details| > 0 {
      return Join(details, ", ");
    }
    var paramCount := CountQueryParameters(query);
    if paramCount > 0 {
      var genericParams := GenericParamList(paramCount);
      return Join(genericParams, ", ");
    }
    return "";
  }

  /** SplitN(s, ":", 2) cuts at the first colon */
  lemma SplitOnceAt(a: string, b: string)
    requires ':' !in a
    ensures SplitOnce(a + [':'] + b, ':') == [a, b]
  {
    var s := a + [':'] + b;
    var r := SplitOnce(s, ':');
    assert s[|a|] == ':';
    assert r[0] == s[..|a|] == a;
    assert r[1] == s[|a| + 1..] == b;
  }

  /** A documenting comment `-- $N:desc` yields the entry `$N=desc` */
  lemma DetailOfDoc(n: string, d: string)
    requires ':' !in n && (n == [] || !IsSpace(n[|n| - 1]))
    requires d == [] || (!IsSpace(d[0]) && !IsSpace(d[|d| - 1]))
    ensures DetailOf("-- $" + n + ":" + d) == Some("$" + n + "=" + d)
  {
    var a := "-- $" + n;
    assert "-- $" + n + ":" + d == a + [':'] + d;
    DetailOfSplit(a, d);
    DocParam(n);
    if d != [] {
      TrimSpaceOfUnspaced(d);
    }
  }

  lemma DocParam(n: string)
    requires n == [] || !IsSpace(n[|n| - 1])
    ensures ("-- $" + n)[3..] == "$" + n && TrimSpace("$" + n) == "$" + n
  {
    assert ("-- $" + n)[3..] == "$" + n;
    TrimSpaceOfUnspaced("$" + n);
  }

  lemma DetailOfSplit(a: string, d: string)
    requires HasPrefix(a, "-- $") && ':' !in a && (d == [] || !IsSpace(d[|d| - 1]))
    ensures DetailOf(a + [':'] + d) == Some(TrimSpace(a[3..]) + "=" + TrimSpace(d))
  {
    var line := a + [':'] + d;
    TrimSpaceOfUnspaced(line);
    assert HasPrefix(line, "-- $");
    SplitOnceAt(a, d);
  }

  /** Every entry of the description is non-empty */
  lemma DetailOfNonEmpty(line: string)
    ensures DetailOf(line).Some? ==> DetailOf(line).value != []
  {
  }

  lemma DetailsNonEmpty(lines: seq<string>)
    requires Details(lines) != []
    ensures Details(lines)[0] != []
  {
    FilterMapFrom(lines, DetailOf, 0);
    var k :| 0 <= k < |lines| && DetailOf(lines[k]) == Some(Details(lines)[0]);
    DetailOfNonEmpty(lines[k]);
  }

  lemma {:induction false} JoinEmpty(parts: seq<string>, sep: string)
    requires parts != [] && parts[0] != []
    ensures Join(parts, sep) != []
  {
  }

  /** The description is empty exactly when no line documents a parameter and no `$N` appears */
  lemma ParameterDetailsEmpty(query: string)
    ensures ParameterDetails(query) == ""
        <==> Details(Split(query, '\n')) == [] && MaxParam(Fields(query)) == 0
  {
    var details := Details(Split(query, '\n'));
    if details != [] {
      DetailsNonEmpty(Split(query, '\n'));
      JoinEmpty(details, ", ");
    } else {
      var n := MaxParam(Fields(query));
      if n > 0 {
        JoinEmpty(GenericParams(n), ", ");
      }
    }
  }

  // ---------------------------------------------------------------------
  // AddDefaultParameters

  /** A query parameter as it arrives from a JSON request */
  datatype Param = Text(s: string) | Number(n: int) | Flag(b: bool) | NullParam

  const PublicSchema := Text("public")

  /** AddDefaultParameters */
  function AddDefaultParameters(queryName: string, params: seq<Param>): seq<Param> {
    if queryName == "ListDatabaseTables" && |params| == 0 then params + [PublicSchema]
    else if queryName == "GetTableColumns" && |params| == 1 then [PublicSchema] + params
    else params
  }

  /**
    The given parameters are kept, in order, at the end; at most one schema
    argument is added, always `"public"`, and only to the two queries that
    take it.
  */
  lemma AddDefaultsKeepsParams(queryName: string, params: seq<Param>)
    ensures var r := AddDefaultParameters(queryName, params);
      |params| <= |r| <= |params| + 1
      && r[|r| - |params|..] == params
      && (forall i :: 0 <= i < |r| - |params| ==> r[i] == PublicSchema)
      && (|r| > |params| <==>
           (queryName == "ListDatabaseTables" && params == []) || (queryName == "GetTableColumns" && |params| == 1))
  {
  }

  /** Adding defaults twice adds nothing more */
  lemma AddDefaultsIdempotent(queryName: string, params: seq<Param>)
    ensures AddDefaultParameters(queryName, AddDefaultParameters(queryName, params))
         == AddDefaultParameters(queryName, params)
  {
  }

  // ---------------------------------------------------------------------
  // Query classification (executeQueryInternal)

  datatype QueryKind = SelectQuery | ModifyQuery | GenericQuery

  /** The statement kind, by the upper-cased trimmed text's first keyword; SELECT is tried first */
  function Classify(query: string): QueryKind {
    var u := ToUpper(TrimSpace(query));
    if HasPrefix(u, "SELECT") then SelectQuery
    else if HasPrefix(u, "INSERT") || HasPrefix(u, "UPDATE") || HasPrefix(u, "DELETE") then ModifyQuery
    else GenericQuery
  }

  lemma LowerSpace(c: char)
    ensures IsSpace(LowerChar(c)) == IsSpace(c)
  {
  }

  lemma {:induction false} TrimLeftLower(s: string)
    ensures TrimLeft(ToLower(s)) == ToLower(TrimLeft(s))
  {
    if s != [] {
      LowerSpace(s[0]);
      if IsSpace(s[0]) {
        assert ToLower(s)[1..] == ToLower(s[1..]);
        TrimLeftLower(s[1..]);
      }
    }
  }

  lemma {:induction false} TrimRightLower(s: string)
    ensures TrimRight(ToLower(s)) == ToLower(TrimRight(s))
  {
    if s != [] {
      LowerSpace(s[|s| - 1]);
      if IsSpace(s[|s| - 1]) {
        assert ToLower(s)[..|s| - 1] == ToLower(s[..|s| - 1]);
        TrimRightLower(s[..|s| - 1]);
      }
    }
  }

  lemma UpperOfLower(s: string)
    ensures ToUpper(ToLower(s)) == ToUpper(s)
  {
    assert forall i :: 0 <= i < |s| ==> UpperChar(LowerChar(s[i])) == UpperChar(s[i]);
  }

  /** Keywords are recognised in any letter case */
  lemma ClassifyCaseInsensitive(query: string)
    ensures Classify(ToLower(query)) == Classify(query)
  {
    TrimLeftLower(query);
    TrimRightLower(TrimLeft(query));
    UpperOfLower(TrimSpace(query));
  }

  /** Leading and trailing white space does not change the kind */
  lemma ClassifyIgnoresPadding(w: string, query: string)
    requires forall i :: 0 <= i < |w| ==> IsSpace(w[i])
    ensures Classify(w + query + w) == Classify(query)
  {
    TrimPadding(w, query);
  }

  lemma {:induction false} TrimPadding(w: string, s: string)
    requires forall i :: 0 <= i < |w| ==> IsSpace(w[i])
    ensures TrimSpace(w + s + w) == TrimSpace(s)
  {
    assert w + s + w == w + (s + w);
    TrimLeftPadding(w, s + w);
    TrimLeftAppend(s, w);
    TrimRightSpaces(TrimLeft(s), w);
  }

  lemma {:induction false} TrimLeftPadding(w: string, s: string)
    requires forall i :: 0 <= i < |w| ==> IsSpace(w[i])
    ensures TrimLeft(w + s) == TrimLeft(s)
    decreases |w|
  {
    if w != [] {
      assert (w + s)[1..] == w[1..] + s;
      TrimLeftPadding(w[1..], s);
    } else {
      assert w + s == s;
    }
  }

  lemma {:induction false} TrimLeftAppend(s: string, w: string)
    requires forall i :: 0 <= i < |w| ==> IsSpace(w[i])
    ensures TrimLeft(s + w) == if TrimLeft(s) == [] then [] else TrimLeft(s) + w
    decreases |s|
  {
    if s == [] {
      assert s + w == w;
      TrimLeftPadding(w, []);
      assert w + [] == w;
    } else if IsSpace(s[0]) {
      assert (s + w)[1..] == s[1..] + w;
      TrimLeftAppend(s[1..], w);
    }
  }

  lemma {:induction false} TrimRightSpaces(t: string, w: string)
    requires forall i :: 0 <= i < |w| ==> IsSpace(w[i])
    ensures TrimRight(t + w) == TrimRight(t)
    decreases |w|
  {
    if w == [] {
      assert t + w == t;
    } else {
      assert (t + w)[..|t + w| - 1] == t + w[..|w| - 1];
      TrimRightSpaces(t, w[..|w| - 1]);
    }
  }
}
