/**
 * Admin helpers: the maintenance cookie check, the build number taken from
 * APP_VERSION, and the `.env` rewrite of UpdateEnvFile. The environment, the
 * request cookie and the file are parameters; the order in which Go ranges
 * over the `updates` map is the parameter `order`.
 */
module AdminEnv {
  import opened GoStrings

  // ---------------------------------------------------------------------
  // IsMaintenanceAuthenticated

  const CookiePrefix := "authenticated_"
  /** Used in place of a version shorter than eight characters */
  const DefaultVersionSalt := "1.0.0.0_"

  /** The cookie value that authenticates against APP_VERSION `version` */
  function ExpectedCookie(version: string): (r: string)
    ensures |r| == |CookiePrefix| + 8 && r[..|CookiePrefix|] == CookiePrefix
    ensures |version| >= 8 ==> r[|CookiePrefix|..] == version[..8]
    ensures |version| < 8 ==> r[|CookiePrefix|..] == DefaultVersionSalt
  {
    var v := if |version| < 8 then DefaultVersionSalt else version;
    CookiePrefix + v[..8]
  }

  /** `cookie` is the maintenance_auth cookie, None when the request has none */
  predicate IsMaintenanceAuthenticated(cookie: Option<string>, version: string) {
    cookie.Some? && cookie.value == ExpectedCookie(version)
  }

  /** Only the first eight characters of the version matter */
  lemma MaintenanceUsesEightChars(cookie: Option<string>, v1: string, v2: string)
    requires |v1| >= 8 && |v2| >= 8 && v1[..8] == v2[..8]
    ensures IsMaintenanceAuthenticated(cookie, v1) == IsMaintenanceAuthenticated(cookie, v2)
  {
    assert ExpectedCookie(v1) == ExpectedCookie(v2);
  }

  /** Every short version behaves as the default salt */
  lemma MaintenanceShortVersion(cookie: Option<string>, v: string)
    requires |v| < 8
    ensures IsMaintenanceAuthenticated(cookie, v) == IsMaintenanceAuthenticated(cookie, DefaultVersionSalt)
  {
    assert ExpectedCookie(v) == ExpectedCookie(DefaultVersionSalt);
  }

  /** An accepted cookie is `authenticated_` followed by exactly eight characters */
  lemma MaintenanceCookieShape(c: string, v: string)
    requires IsMaintenanceAuthenticated(Some(c), v)
    ensures |c| == |CookiePrefix| + 8 && HasPrefix(c, CookiePrefix)
  {
  }

  // ---------------------------------------------------------------------
  // GetBuildNumber

  /** The fourth dot-separated part of APP_VERSION as an integer, else 0 */
  function GetBuildNumber(version: string): int {
    if version == "" then 0
    else
      var parts := Split(version, '.');
      if |parts| != 4 then 0
      else match Atoi(parts[3])
        case None => 0
        case Some(n) => n
  }

  /** `a.b.c.n` has build number n, whatever the first three parts are */
  lemma BuildNumberOfVersion(a: string, b: string, c: string, n: int)
    requires '.' !in a && '.' !in b && '.' !in c && MinInt64 <= n <= MaxInt64
    ensures GetBuildNumber(a + "." + b + "." + c + "." + Itoa(n)) == n
  {
    var v := a + "." + b + "." + c + "." + Itoa(n);
    ItoaNoDot(n);
    JoinFour(a, b, c, Itoa(n), '.');
    SplitJoin([a, b, c, Itoa(n)], '.');
    AtoiItoa(n);
    assert v != "" by {
      assert |v| >= 3;
    }
  }

  /** A version without exactly three dots has build number 0 */
  lemma BuildNumberWrongParts(version: string)
    requires multiset(version)['.'] != 3
    ensures GetBuildNumber(version) == 0
  {
    SplitCount(version, '.');
  }

  /** A fourth part that is not an integer gives 0 */
  lemma BuildNumberNotInteger(a: string, b: string, c: string, d: string)
    requires '.' !in a && '.' !in b && '.' !in c && '.' !in d && Atoi(d).None?
    ensures GetBuildNumber(a + "." + b + "." + c + "." + d) == 0
  {
    JoinFour(a, b, c, d, '.');
    SplitJoin([a, b, c, d], '.');
  }

  // ---------------------------------------------------------------------
  // UpdateEnvFile

  /** A rewritten line, and the key it updated if any */
  datatype Rewrite = Rewrite(line: string, key: Option<string>)

  /** The key a line assigns; None for blank lines, comments and lines without `=` */
  function LineKey(line: string): Option<string> {
    var trimmedLine := TrimSpace(line);
    if trimmedLine == "" || HasPrefix(trimmedLine, "#") then None
    else
      var parts := SplitOnce(trimmedLine, '=');
      if |parts| != 2 then None else Some(TrimSpace(parts[0]))
  }

  function RewriteLine(line: string, updates: map<string, string>): Rewrite {
    var key := LineKey(line);
    if key.Some? && key.value in updates then Rewrite(key.value + "=" + updates[key.value], key)
    else Rewrite(line, None)
  }

  /** Blank lines and comments are kept verbatim */
  lemma RewriteKeepsComments(line: string, updates: map<string, string>)
    requires TrimSpace(line) == "" || HasPrefix(TrimSpace(line), "#")
    ensures RewriteLine(line, updates) == Rewrite(line, None)
  {
  }

  /** Lines without `=` are kept verbatim */
  lemma RewriteKeepsMalformed(line: string, updates: map<string, string>)
    requires '=' !in TrimSpace(line)
    ensures RewriteLine(line, updates) == Rewrite(line, None)
  {
  }

  /** An assignment to an updated key takes the new value; any other assignment is kept */
  lemma RewriteAssignment(k: string, v: string, updates: map<string, string>)
    requires |k| > 0 && |v| > 0 && !IsSpace(k[0]) && !IsSpace(k[|k| - 1]) && !IsSpace(v[|v| - 1])
    requires k[0] != '#' && '=' !in k
    ensures var r := RewriteLine(k + "=" + v, updates);
      (k in updates ==> r == Rewrite(k + "=" + updates[k], Some(k))) &&
      (k !in updates ==> r == Rewrite(k + "=" + v, None))
  {
    var line := k + "=" + v;
    assert line[0] == k[0] && line[|line| - 1] == v[|v| - 1];
    TrimSpaceOfUnspaced(line);
    assert line == k + ['='] + v;
    SplitOnceAt(k, v);
    TrimSpaceOfUnspaced(k);
  }

  lemma SplitOnceAt(k: string, v: string)
    requires '=' !in k
    ensures SplitOnce(k + ['='] + v, '=') == [k, v]
  {
    var s := k + ['='] + v;
    assert s[|k|] == '=';
    var r := SplitOnce(s, '=');
    assert |r| == 2;
    assert s == r[0] + ['='] + r[1];
    assert r[0] == k;
  }

  /** Each line of the file rewritten, in order */
  function RewriteEach(lines: seq<string>, updates: map<string, string>): (r: seq<Rewrite>)
    ensures |r| == |lines|
  {
    if lines == [] then []
    else RewriteEach(lines[..|lines| - 1], updates) + [RewriteLine(lines[|lines| - 1], updates)]
  }

  lemma {:induction false} RewriteEachAt(lines: seq<string>, updates: map<string, string>, i: nat)
    requires i < |lines|
    ensures var r := RewriteEach(lines, updates)[i];
      r.line == RewriteLine(lines[i], updates).line && r.key == RewriteLine(lines[i], updates).key
  {
    var n := |lines| - 1;
    var init := lines[..n];
    assert RewriteEach(lines, updates) == RewriteEach(init, updates) + [RewriteLine(lines[n], updates)];
    if i < n {
      RewriteEachAt(init, updates, i);
      assert init[i] == lines[i];
      assert RewriteEach(lines, updates)[i] == RewriteEach(init, updates)[i];
    } else {
      assert i == n;
      assert RewriteEach(lines, updates)[i] == RewriteLine(lines[n], updates);
    }
  }

  function LinesOf(rs: seq<Rewrite>): (r: seq<string>)
    ensures |r| == |rs| && forall i :: 0 <= i < |rs| ==> r[i] == rs[i].line
  {
    if rs == [] then [] else LinesOf(rs[..|rs| - 1]) + [rs[|rs| - 1].line]
  }

  function KeysOf(rs: seq<Rewrite>): set<string> {
    if rs == [] then {}
    else
      var last := rs[|rs| - 1].key;
      KeysOf(rs[..|rs| - 1]) + (if last.Some? then {last.value} else {})
  }

  lemma {:induction false} KeysOfIff(rs: seq<Rewrite>, k: string)
    ensures k in KeysOf(rs) <==> exists i :: 0 <= i < |rs| && rs[i].key == Some(k)
  {
    if rs != [] {
      var n := |rs| - 1;
      var init := rs[..n];
      KeysOfIff(init, k);
      if exists i :: 0 <= i < n && init[i].key == Some(k) {
        var i :| 0 <= i < n && init[i].key == Some(k);
        assert rs[i] == init[i];
      }
      if exists i :: 0 <= i < |rs| && rs[i].key == Some(k) {
        var i :| 0 <= i < |rs| && rs[i].key == Some(k);
        if i < n {
          assert init[i].key == Some(k);
        }
      }
    }
  }

  /** The first loop's lines: each line rewritten in place */
  function RewriteAll(lines: seq<string>, updates: map<string, string>): seq<string> {
    LinesOf(RewriteEach(lines, updates))
  }

  /** The keys the first loop found and updated */
  function UpdatedKeys(lines: seq<string>, updates: map<string, string>): set<string> {
    KeysOf(RewriteEach(lines, updates))
  }

  lemma RewriteAllAt(lines: seq<string>, updates: map<string, string>, i: nat)
    requires i < |lines|
    ensures |RewriteAll(lines, updates)| == |lines|
    ensures RewriteAll(lines, updates)[i] == RewriteLine(lines[i], updates).line
  {
    RewriteEachAt(lines, updates, i);
  }

  /** An updated key was found on some line of the file */
  lemma UpdatedKeyLine(lines: seq<string>, updates: map<string, string>, k: string) returns (i: nat)
    requires k in UpdatedKeys(lines, updates)
    ensures i < |lines| && RewriteLine(lines[i], updates).key == Some(k)
  {
    var rs := RewriteEach(lines, updates);
    KeysOfIff(rs, k);
    var j :| 0 <= j < |rs| && rs[j].key == Some(k);
    i := j;
    RewriteEachAt(lines, updates, i);
  }

  /** Every key found on a line of the file is marked updated */
  lemma UpdatedKeysHas(lines: seq<string>, updates: map<string, string>, i: nat)
    requires i < |lines| && RewriteLine(lines[i], updates).key.Some?
    ensures RewriteLine(lines[i], updates).key.value in UpdatedKeys(lines, updates)
  {
    var rs := RewriteEach(lines, updates);
    RewriteEachAt(lines, updates, i);
    KeysOfIff(rs, rs[i].key.value);
  }

  /** A found key is one of the updates, and its line takes the new value */
  lemma RewriteKeyInUpdates(line: string, updates: map<string, string>)
    requires RewriteLine(line, updates).key.Some?
    ensures var r := RewriteLine(line, updates);
      r.key.value in updates && r.line == r.key.value + "=" + updates[r.key.value]
  {
  }

  /** The keys of `order` not in `done`, in order */
  function Missing(order: seq<string>, done: set<string>): (r: seq<string>)
    ensures forall k :: k in r <==> k in order && k !in done
  {
    if order == [] then []
    else
      var prev := Missing(order[..|order| - 1], done);
      var k := order[|order| - 1];
      assert order == order[..|order| - 1] + [k];
      if k !in done then prev + [k] else prev
  }

  predicate Distinct(s: seq<string>) {
    forall i, j :: 0 <= i < j < |s| ==> s[i] != s[j]
  }

  /** `order` lists each update key once: how Go ranges over the map */
  ghost predicate IsListing(order: seq<string>, updates: map<string, string>) {
    Distinct(order) && forall k :: k in order <==> k in updates
  }

  lemma {:induction false} MissingDistinct(order: seq<string>, done: set<string>)
    requires Distinct(order)
    ensures Distinct(Missing(order, done))
  {
    if order != [] {
      var init := order[..|order| - 1];
      assert Distinct(init);
      MissingDistinct(init, done);
      var k := order[|order| - 1];
      assert k !in init;
    }
  }

  /** `key=value` for each key */
  function Assignments(keys: seq<string>, updates: map<string, string>): (r: seq<string>)
    requires forall k :: k in keys ==> k in updates
    ensures |r| == |keys| && forall i :: 0 <= i < |keys| ==> r[i] == keys[i] + "=" + updates[keys[i]]
  {
    if keys == [] then []
    else Assignments(keys[..|keys| - 1], updates) + [keys[|keys| - 1] + "=" + updates[keys[|keys| - 1]]]
  }

  /** The new lines of the file: rewritten lines, then the updates never seen */
  function UpdateEnvLines(lines: seq<string>, updates: map<string, string>, order: seq<string>): seq<string>
    requires IsListing(order, updates)
  {
    RewriteAll(lines, updates) + Assignments(Missing(order, UpdatedKeys(lines, updates)), updates)
  }

  /** The new file content */
  function UpdateEnvContent(content: string, updates: map<string, string>, order: seq<string>): string
    requires IsListing(order, updates)
  {
    Join(UpdateEnvLines(Split(content, '\n'), updates, order), "\n")
  }

  /** Every update ends up in the file as `key=value` */
  lemma UpdatesAllWritten(lines: seq<string>, updates: map<string, string>, order: seq<string>, k: string)
    requires IsListing(order, updates) && k in updates
    ensures k + "=" + updates[k] in UpdateEnvLines(lines, updates, order)
  {
    var done := UpdatedKeys(lines, updates);
    var rewritten := RewriteAll(lines, updates);
    var miss := Missing(order, done);
    var out := rewritten + Assignments(miss, updates);
    if k in done {
      var i := UpdatedKeyLine(lines, updates, k);
      RewriteKeyInUpdates(lines[i], updates);
      RewriteAllAt(lines, updates, i);
      assert out[i] == rewritten[i];
    } else {
      var j :| 0 <= j < |miss| && miss[j] == k;
      assert out[|rewritten| + j] == Assignments(miss, updates)[j];
    }
  }

  /** A key already assigned in the file is not appended again */
  lemma PresentNotAppended(lines: seq<string>, updates: map<string, string>, order: seq<string>, i: nat)
    requires IsListing(order, updates) && i < |lines| && RewriteLine(lines[i], updates).key.Some?
    ensures RewriteLine(lines[i], updates).key.value !in Missing(order, UpdatedKeys(lines, updates))
  {
    UpdatedKeysHas(lines, updates, i);
  }

  /** Lines that assign no updated key are kept as they were */
  lemma OtherLinesKept(lines: seq<string>, updates: map<string, string>, order: seq<string>, i: nat)
    requires IsListing(order, updates) && i < |lines| && RewriteLine(lines[i], updates).key.None?
    ensures UpdateEnvLines(lines, updates, order)[i] == lines[i]
  {
    RewriteAllAt(lines, updates, i);
  }

  /** Each update key absent from the file is appended exactly once; no other line is added */
  lemma AppendedOnce(lines: seq<string>, updates: map<string, string>, order: seq<string>)
    requires IsListing(order, updates)
    ensures var miss := Missing(order, UpdatedKeys(lines, updates));
      Distinct(miss) && (forall k :: k in miss <==> k in updates && k !in UpdatedKeys(lines, updates)) &&
      UpdateEnvLines(lines, updates, order) == RewriteAll(lines, updates) + Assignments(miss, updates)
  {
    MissingDistinct(order, UpdatedKeys(lines, updates));
  }

  lemma RewriteNothing(lines: seq<string>)
    ensures RewriteAll(lines, map[]) == lines
  {
    var r := RewriteAll(lines, map[]);
    forall i | 0 <= i < |lines|
      ensures r[i] == lines[i]
    {
      RewriteAllAt(lines, map[], i);
    }
  }

  /** With nothing to update, the file is left exactly as it was */
  lemma NoUpdatesNoChange(content: string)
    ensures UpdateEnvContent(content, map[], []) == content
  {
    var lines := Split(content, '\n');
    RewriteNothing(lines);
    assert Missing([], UpdatedKeys(lines, map[])) == [];
    assert Assignments([], map[]) == [];
    assert lines + [] == lines;
    assert UpdateEnvLines(lines, map[], []) == lines;
    assert Join(lines, "\n") == content;
  }

  /** A missing file reads as empty, so the appended keys follow one empty line */
  lemma UpdateEmptyFile(k: string, v: string)
    ensures UpdateEnvContent("", map[k := v], [k]) == "\n" + k + "=" + v
  {
    var updates := map[k := v];
    assert Split("", '\n') == [""];
    assert RewriteLine("", updates) == Rewrite("", None);
    assert [""][..0] == [];
    var rs := RewriteEach([""], updates);
    assert rs == [Rewrite("", None)];
    assert rs[..0] == [];
    assert KeysOf(rs) == KeysOf(rs[..0]) + {};
    assert RewriteAll([""], updates) == [""];
    assert UpdatedKeys([""], updates) == {};
    assert Missing([k], {}) == [k];
    var out := [""] + Assignments([k], updates);
    assert out == ["", k + "=" + v];
    assert Join(out, "\n") == "" + "\n" + Join([k + "=" + v], "\n");
  }

  lemma RewriteStep(lines: seq<string>, updates: map<string, string>, i: nat)
    requires i < |lines|
    ensures RewriteAll(lines[..i + 1], updates) == RewriteAll(lines[..i], updates) + [RewriteLine(lines[i], updates).line]
    ensures var k := RewriteLine(lines[i], updates).key;
      UpdatedKeys(lines[..i + 1], updates) == UpdatedKeys(lines[..i], updates) + (if k.Some? then {k.value} else {})
  {
    assert lines[..i + 1][..i] == lines[..i];
    var rs := RewriteEach(lines[..i], updates);
    var x := RewriteLine(lines[i], updates);
    assert RewriteEach(lines[..i + 1], updates) == rs + [x];
    RewritesSnoc(rs, x);
  }

  lemma RewritesSnoc(rs: seq<Rewrite>, x: Rewrite)
    ensures LinesOf(rs + [x]) == LinesOf(rs) + [x.line]
    ensures KeysOf(rs + [x]) == KeysOf(rs) + (if x.key.Some? then {x.key.value} else {})
  {
    assert (rs + [x])[..|rs|] == rs;
  }

  lemma MissingStep(order: seq<string>, done: set<string>, j: nat)
    requires j < |order|
    ensures Missing(order[..j + 1], done) ==
      if order[j] in done then Missing(order[..j], done) else Missing(order[..j], done) + [order[j]]
  {
    assert order[..j + 1][..j] == order[..j];
  }

  lemma AssignmentsSnoc(keys: seq<string>, k: string, updates: map<string, string>)
    requires (forall x :: x in keys ==> x in updates) && k in updates
    ensures Assignments(keys + [k], updates) == Assignments(keys, updates) + [k + "=" + updates[k]]
  {
    assert (keys + [k])[..|keys|] == keys;
  }

  lemma AppendAssoc(a: seq<string>, b: seq<string>, c: string)
    ensures a + b + [c] == a + (b + [c])
  {
  }

  /** UpdateEnvFile's two loops over the lines of the file */
  method UpdateEnvFile(content: string, updates: map<string, string>, order: seq<string>) returns (outputContent: string)
    requires IsListing(order, updates)
    ensures outputContent == UpdateEnvContent(content, updates, order)
  {
    var lines := Split(content, '\n');
    var newLines, updatedKeys := RewriteLines(lines, updates);
    newLines := AppendMissing(newLines, updates, order, updatedKeys);
    outputContent := Join(newLines, "\n");
  }

  /** The loop over the existing lines */
  method RewriteLines(lines: seq<string>, updates: map<string, string>) returns (newLines: seq<string>, updatedKeys: set<string>)
    ensures newLines == RewriteAll(lines, updates) && updatedKeys == UpdatedKeys(lines, updates)
  {
    newLines := [];
    updatedKeys := {};
    var i := 0;
    while i < |lines|
      invariant 0 <= i <= |lines|
      invariant newLines == RewriteAll(lines[..i], updates)
      invariant updatedKeys == UpdatedKeys(lines[..i], updates)
    {
      RewriteStep(lines, updates, i);
      var line, key := RewriteOne(lines[i], updates);
      newLines := newLines + [line];
      if key.Some? {
        updatedKeys := updatedKeys + {key.value};
      }
      i := i + 1;
    }
    assert lines[..|lines|] == lines;
  }

  /** The body of that loop for one line */
  method RewriteOne(line: string, updates: map<string, string>) returns (newLine: string, updated: Option<string>)
    ensures Rewrite(newLine, updated) == RewriteLine(line, updates)
  {
    var trimmedLine := TrimSpace(line);
    if trimmedLine == "" || HasPrefix(trimmedLine, "#") {
      return line, None;
    }
    var parts := SplitOnce(trimmedLine, '=');
    if |parts| != 2 {
      return line, None;
    }
    var key := TrimSpace(parts[0]);
    assert LineKey(line) == Some(key);
    if key in updates {
      return key + "=" + updates[key], Some(key);
    }
    return line, None;
  }

  /** The loop over the updates, appending those not already written */
  method AppendMissing(lines: seq<string>, updates: map<string, string>, order: seq<string>, updatedKeys: set<string>)
    returns (newLines: seq<string>)
    requires IsListing(order, updates)
    ensures newLines == lines + Assignments(Missing(order, updatedKeys), updates)
  {
    newLines := lines;
    var j := 0;
    ghost var miss: seq<string> := [];
    while j < |order|
      invariant 0 <= j <= |order|
      invariant miss == Missing(order[..j], updatedKeys)
      invariant forall k :: k in miss ==> k in updates
      invariant newLines == lines + Assignments(miss, updates)
    {
      var key := order[j];
      MissingStep(order, updatedKeys, j);
      if key !in updatedKeys {
        AssignmentsSnoc(miss, key, updates);
        AppendAssoc(lines, Assignments(miss, updates), key + "=" + updates[key]);
        newLines := newLines + [key + "=" + updates[key]];
        miss := miss + [key];
      }
      j := j + 1;
    }
    assert order[..|order|] == order;
  }
}
