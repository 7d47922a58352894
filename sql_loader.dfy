/**
  The named-SQL loader of common/sql_loader.go: a `.sql` file is read line
  by line, a `-- name: X` directive starts query X, the lines after it that
  are not comments form its body, and each finished body is stored,
  trimmed, in the package-wide query map that GetSQL and MustGetSQL read.
*/
module SqlLoader {
  import opened GoStrings

  // ---------------------------------------------------------------------
  // The directive pattern `--\s*name:\s*(\S+)`, searched leftmost

  /** The first index at or after j whose character is not `\s` */
  function SkipReSpace(t: string, j: nat): (k: nat)
    requires j <= |t|
    ensures j <= k <= |t| && (k < |t| ==> !IsReSpace(t[k]))
    decreases |t| - j
  {
    if j == |t| || !IsReSpace(t[j]) then j else SkipReSpace(t, j + 1)
  }

  /** The first index at or after j whose character is `\s`, or the end */
  function ReSpaceAt(t: string, j: nat): (k: nat)
    requires j <= |t|
    ensures j <= k <= |t| && (k < |t| ==> IsReSpace(t[k]))
    decreases |t| - j
  {
    if j == |t| || IsReSpace(t[j]) then j else ReSpaceAt(t, j + 1)
  }

  lemma {:induction false} ReSpaceAtRun(t: string, j: nat)
    requires j <= |t|
    ensures forall i :: j <= i < ReSpaceAt(t, j) ==> !IsReSpace(t[i])
    decreases |t| - j
  {
    if j < |t| && !IsReSpace(t[j]) {
      ReSpaceAtRun(t, j + 1);
    }
  }

  /** The name captured by a match of the directive pattern starting exactly at p */
  function MatchAt(t: string, p: nat): Option<string>
    requires p <= |t|
  {
    if p + 2 > |t| || t[p] != '-' || t[p + 1] != '-' then None
    else
      var j := SkipReSpace(t, p + 2);
      if !OccursAt(t, "name:", j) then None
      else
        var k := SkipReSpace(t, j + 5);
        var e := ReSpaceAt(t, k);
        if e == k then None else Some(t[k..e])
  }

  /** The leftmost match at or after p */
  function DirectiveFrom(t: string, p: nat): Option<string>
    requires p <= |t|
    decreases |t| - p
  {
    match MatchAt(t, p)
    case Some(n) => Some(n)
    case None => if p == |t| then None else DirectiveFrom(t, p + 1)
  }

  /** `queryNameRegex.FindStringSubmatch`: the query name a line declares, if any */
  function NameDirective(t: string): Option<string> {
    DirectiveFrom(t, 0)
  }

  lemma {:induction false} ReSpaceRun(t: string, j: nat, k: nat)
    requires j <= k <= |t| && (forall i :: j <= i < k ==> IsReSpace(t[i])) && (k == |t| || !IsReSpace(t[k]))
    ensures SkipReSpace(t, j) == k
    decreases k - j
  {
    if j < k {
      ReSpaceRun(t, j + 1, k);
    }
  }

  lemma {:induction false} NonReSpaceRun(t: string, j: nat, k: nat)
    requires j <= k <= |t| && (forall i :: j <= i < k ==> !IsReSpace(t[i])) && (k == |t| || IsReSpace(t[k]))
    ensures ReSpaceAt(t, j) == k
    decreases k - j
  {
    if j < k {
      NonReSpaceRun(t, j + 1, k);
    }
  }

  /** A name without white space */
  predicate IsQueryName(x: string) {
    x != [] && forall i :: 0 <= i < |x| ==> !IsReSpace(x[i])
  }

  /** The directive line `-- name: X` declares query X */
  lemma NameDirectiveCanonical(x: string)
    requires IsQueryName(x)
    ensures NameDirective("-- name: " + x) == Some(x)
  {
    var t := "-- name: " + x;
    assert t[..9] == "-- name: ";
    assert t[2] == ' ' && t[3] == 'n';
    ReSpaceRun(t, 2, 3);
    assert t[3..8] == "name:";
    assert OccursAt(t, "name:", 3);
    assert t[8] == ' ' && t[9] == x[0];
    ReSpaceRun(t, 8, 9);
    assert forall i :: 9 <= i < |t| ==> t[i] == x[i - 9];
    NonReSpaceRun(t, 9, |t|);
    assert t[9..] == x;
    assert SkipReSpace(t, 2) == 3;
    assert SkipReSpace(t, 8) == 9;
    assert ReSpaceAt(t, 9) == |t|;
    assert t[9..|t|] == x;
    assert MatchAt(t, 0) == Some(x);
  }

  /** A line holding no `-` declares nothing */
  lemma {:induction false} NoDashNoDirective(t: string, p: nat)
    requires p <= |t| && '-' !in t
    ensures DirectiveFrom(t, p).None?
    decreases |t| - p
  {
    if p < |t| {
      NoDashNoDirective(t, p + 1);
    }
  }

  /** What the directive captures is a non-empty run without white space */
  lemma {:induction false} DirectiveIsName(t: string, p: nat)
    requires p <= |t|
    ensures DirectiveFrom(t, p).Some? ==> IsQueryName(DirectiveFrom(t, p).value)
    decreases |t| - p
  {
    if MatchAt(t, p).None? {
      if p < |t| {
        DirectiveIsName(t, p + 1);
      }
    } else {
      var j := SkipReSpace(t, p + 2);
      ReSpaceAtRun(t, SkipReSpace(t, j + 5));
    }
  }

  // ---------------------------------------------------------------------
  // parseSQLFile, as a function over the file's lines

  /** Store the accumulated body, trimmed, when there is a name and a body */
  function Flush(m: map<string, string>, name: string, body: string): map<string, string> {
    if name != "" && |body| > 0 then m[name := TrimSpace(body)] else m
  }

  /** The map after the remaining lines, while query `name` has accumulated `body` */
  function ParseFrom(lines: seq<string>, m: map<string, string>, name: string, body: string): map<string, string>
  {
    if lines == [] then Flush(m, name, body)
    else
      var line := lines[0];
      var t := TrimSpace(line);
      match NameDirective(t)
      case Some(n) => ParseFrom(lines[1..], Flush(m, name, body), n, "")
      case None =>
        if name != "" && !HasPrefix(t, "--") then ParseFrom(lines[1..], m, name, body + line + "\n")
        else ParseFrom(lines[1..], m, name, body)
  }

  /** The query map after parsing one file into m */
  function Loaded(m: map<string, string>, lines: seq<string>): map<string, string> {
    ParseFrom(lines, m, "", "")
  }

  /** A line that adds to the current body: neither a directive nor a comment */
  predicate IsBodyLine(line: string) {
    NameDirective(TrimSpace(line)).None? && !HasPrefix(TrimSpace(line), "--")
  }

  /** A line that is skipped: a comment which is not a directive */
  predicate IsComment(line: string) {
    NameDirective(TrimSpace(line)).None? && HasPrefix(TrimSpace(line), "--")
  }

  /** Each body line followed by a newline */
  function Body(lines: seq<string>): string {
    if lines == [] then "" else lines[0] + "\n" + Body(lines[1..])
  }

  lemma ParseDirective(lines: seq<string>, m: map<string, string>, name: string, body: string, x: string)
    requires lines != [] && NameDirective(TrimSpace(lines[0])) == Some(x)
    ensures ParseFrom(lines, m, name, body) == ParseFrom(lines[1..], Flush(m, name, body), x, "")
  {
  }

  lemma ParseBodyLine(lines: seq<string>, m: map<string, string>, name: string, body: string)
    requires lines != [] && name != "" && IsBodyLine(lines[0])
    ensures ParseFrom(lines, m, name, body) == ParseFrom(lines[1..], m, name, body + lines[0] + "\n")
  {
  }

  lemma ParseSkipped(lines: seq<string>, m: map<string, string>, name: string, body: string)
    requires lines != [] && NameDirective(TrimSpace(lines[0])).None?
    requires name == "" || HasPrefix(TrimSpace(lines[0]), "--")
    ensures ParseFrom(lines, m, name, body) == ParseFrom(lines[1..], m, name, body)
  {
    var t := TrimSpace(lines[0]);
    assert !(name != "" && !HasPrefix(t, "--"));
  }

  /** While no query is named, lines that are not directives are ignored */
  lemma {:induction false} UnnamedIgnored(pre: seq<string>, rest: seq<string>, m: map<string, string>, body: string)
    requires forall i :: 0 <= i < |pre| ==> NameDirective(TrimSpace(pre[i])).None?
    ensures ParseFrom(pre + rest, m, "", body) == ParseFrom(rest, m, "", body)
  {
    if pre != [] {
      assert (pre + rest)[0] == pre[0];
      assert (pre + rest)[1..] == pre[1..] + rest;
      ParseSkipped(pre + rest, m, "", body);
      UnnamedIgnored(pre[1..], rest, m, body);
    } else {
      assert pre + rest == rest;
    }
  }

  /** Comment lines inside a query leave its body as it is */
  lemma {:induction false} CommentsSkipped(cs: seq<string>, rest: seq<string>, m: map<string, string>, name: string, body: string)
    requires forall i :: 0 <= i < |cs| ==> IsComment(cs[i])
    ensures ParseFrom(cs + rest, m, name, body) == ParseFrom(rest, m, name, body)
  {
    if cs != [] {
      assert (cs + rest)[0] == cs[0];
      assert (cs + rest)[1..] == cs[1..] + rest;
      ParseSkipped(cs + rest, m, name, body);
      CommentsSkipped(cs[1..], rest, m, name, body);
    } else {
      assert cs + rest == rest;
    }
  }

  /** Body lines of a named query are appended, each with a newline */
  lemma {:induction false} BodyAppended(b: seq<string>, rest: seq<string>, m: map<string, string>, name: string, body: string)
    requires name != "" && forall i :: 0 <= i < |b| ==> IsBodyLine(b[i])
    ensures ParseFrom(b + rest, m, name, body) == ParseFrom(rest, m, name, body + Body(b))
  {
    if b != [] {
      var lines := b + rest;
      var body1 := body + b[0] + "\n";
      assert lines[0] == b[0];
      assert lines[1..] == b[1..] + rest;
      ParseBodyLine(lines, m, name, body);
      BodyAppended(b[1..], rest, m, name, body1);
      BodySnoc(body, b);
      ParseChain(ParseFrom(lines, m, name, body), ParseFrom(b[1..] + rest, m, name, body1),
                 ParseFrom(rest, m, name, body1 + Body(b[1..])), ParseFrom(rest, m, name, body + Body(b)));
    } else {
      assert b + rest == rest;
      assert body + Body(b) == body;
    }
  }

  lemma ParseChain(a: map<string, string>, b: map<string, string>, c: map<string, string>, d: map<string, string>)
    requires a == b && b == c && c == d
    ensures a == d
  {
  }

  lemma BodySnoc(body: string, b: seq<string>)
    requires b != []
    ensures body + b[0] + "\n" + Body(b[1..]) == body + Body(b)
  {
  }

  /** A name without white space, not ending in a character that trimming removes */
  predicate PlainName(x: string) {
    IsQueryName(x) && !IsSpace(x[|x| - 1])
  }

  /** A directive line stores the query before it and starts a new one */
  lemma DirectiveStarts(x: string, rest: seq<string>, m: map<string, string>, name: string, body: string)
    requires PlainName(x)
    ensures ParseFrom(["-- name: " + x] + rest, m, name, body) == ParseFrom(rest, Flush(m, name, body), x, "")
  {
    var d := "-- name: " + x;
    NameDirectiveCanonical(x);
    assert d[|d| - 1] == x[|x| - 1];
    TrimSpaceOfUnspaced(d);
    assert ([d] + rest)[0] == d && ([d] + rest)[1..] == rest;
    ParseDirective([d] + rest, m, name, body, x);
  }

  lemma BodyNonEmpty(b: seq<string>)
    requires b != []
    ensures |Body(b)| > 0
  {
  }

  /** A directive and its body lines define the query as the trimmed body */
  lemma QueryDefined(x: string, b: seq<string>, m: map<string, string>)
    requires PlainName(x) && b != [] && forall i :: 0 <= i < |b| ==> IsBodyLine(b[i])
    ensures Loaded(m, ["-- name: " + x] + b) == m[x := TrimSpace(Body(b))]
  {
    DirectiveFirst(x, b, m);
    RedefinedBody(x, b, m);
  }

  lemma DirectiveFirst(x: string, b: seq<string>, m: map<string, string>)
    requires PlainName(x)
    ensures Loaded(m, ["-- name: " + x] + b) == ParseFrom(b, m, x, "")
  {
    DirectiveStarts(x, b, m, "", "");
    assert Flush(m, "", "") == m;
  }

  /** A name followed by no body line is not stored */
  lemma EmptyQueryNotStored(x: string, m: map<string, string>)
    requires PlainName(x)
    ensures Loaded(m, ["-- name: " + x]) == m
  {
    DirectiveStarts(x, [], m, "", "");
    assert ["-- name: " + x] + [] == ["-- name: " + x];
  }

  /** The query map holds x with value v, and every other key as in m */
  ghost predicate StoredOver(r: map<string, string>, m: map<string, string>, x: string, v: string) {
    x in r && r[x] == v && forall k :: k != x ==> (k in r <==> k in m) && (k in m ==> r[k] == m[k])
  }

  /** Defining a name again overwrites the earlier body */
  lemma RedefinitionOverwrites(x: string, b1: seq<string>, b2: seq<string>, m: map<string, string>)
    requires PlainName(x) && b2 != []
    requires forall i :: 0 <= i < |b1| ==> IsBodyLine(b1[i])
    requires forall i :: 0 <= i < |b2| ==> IsBodyLine(b2[i])
    ensures StoredOver(Loaded(m, ["-- name: " + x] + b1 + ["-- name: " + x] + b2), m, x, TrimSpace(Body(b2)))
  {
    var d := "-- name: " + x;
    var tail := [d] + b2;
    Regroup([d], b1, [d], b2);
    DirectiveStarts(x, b1 + tail, m, "", "");
    assert Flush(m, "", "") == m;
    BodyAppended(b1, tail, m, x, "");
    var m1 := Flush(m, x, "" + Body(b1));
    DirectiveStarts(x, b2, m, x, "" + Body(b1));
    RedefinedBody(x, b2, m1);
    FlushThenStore(m, x, "" + Body(b1), TrimSpace(Body(b2)));
    ParseChain(ParseFrom([d] + (b1 + tail), m, "", ""), ParseFrom(b1 + tail, m, x, ""),
               ParseFrom(tail, m, x, "" + Body(b1)), ParseFrom(b2, m1, x, ""));
  }

  lemma Regroup(a: seq<string>, b: seq<string>, c: seq<string>, d: seq<string>)
    ensures a + b + c + d == a + (b + (c + d))
  {
  }

  /** The body lines of a query started by a directive are stored under its name */
  lemma RedefinedBody(x: string, b2: seq<string>, m1: map<string, string>)
    requires x != "" && b2 != [] && forall i :: 0 <= i < |b2| ==> IsBodyLine(b2[i])
    ensures ParseFrom(b2, m1, x, "") == m1[x := TrimSpace(Body(b2))]
  {
    BodyAppended(b2, [], m1, x, "");
    assert b2 + [] == b2;
    BodyNonEmpty(b2);
    assert "" + Body(b2) == Body(b2);
  }

  /** Storing under x after a flush of x leaves every other key as it was */
  lemma FlushThenStore(m: map<string, string>, x: string, body: string, v: string)
    ensures StoredOver(Flush(m, x, body)[x := v], m, x, v)
  {
    var f := Flush(m, x, body);
    assert forall k :: k != x && k in f ==> k in m && f[k] == m[k];
    assert forall k :: k != x && k in m ==> k in f;
  }

  // ---------------------------------------------------------------------
  // The query map and its readers

  /** GetSQL's answer for a map */
  function Lookup(m: map<string, string>, name: string): (r: Result<string>)
    ensures r.Ok? <==> name in m
    ensures r.Ok? ==> r.value == m[name]
  {
    if name in m then Ok(m[name]) else Err("SQL query named '" + name + "' not found")
  }

  /** The package-wide `sqlQueries` map */
  class QueryRegistry {
    var queries: map<string, string>

    constructor()
      ensures queries == map[]
    {
      queries := map[];
    }

    /** parseSQLFile over the lines of one file */
    method ParseSQLLines(lines: seq<string>)
      modifies this
      ensures queries == Loaded(old(queries), lines)
    {
      var currentQueryName := "";
      var currentQuery := "";
      var i := 0;
      while i < |lines|
        invariant 0 <= i <= |lines|
        invariant ParseFrom(lines[i..], queries, currentQueryName, currentQuery) == Loaded(old(queries), lines)
      {
        var line := lines[i];
        var trimmedLine := TrimSpace(line);
        assert lines[i..][0] == line && lines[i..][1..] == lines[i + 1..];
        var matches := NameDirective(trimmedLine);
        if matches.Some? {
          if currentQueryName != "" && |currentQuery| > 0 {
            queries := queries[currentQueryName := TrimSpace(currentQuery)];
          }
          currentQueryName := matches.value;
          currentQuery := "";
        } else if currentQueryName != "" && !HasPrefix(trimmedLine, "--") {
          currentQuery := currentQuery + line + "\n";
        }
        i := i + 1;
      }
      if currentQueryName != "" && |currentQuery| > 0 {
        queries := queries[currentQueryName := TrimSpace(currentQuery)];
      }
    }

    /** GetSQL */
    method GetSQL(name: string) returns (r: Result<string>)
      ensures r == Lookup(queries, name)
    {
      if name !in queries {
        return Err("SQL query named '" + name + "' not found");
      }
      return Ok(queries[name]);
    }

    /** MustGetSQL: a missing name panics, so callers must ask for a loaded one */
    method MustGetSQL(name: string) returns (query: string)
      requires name in queries
      ensures query == queries[name]
    {
      var r := GetSQL(name);
      query := r.value;
    }
  }
}
