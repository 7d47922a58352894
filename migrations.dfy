/**
 * Schema migrations: which files in `migrations/` are applied, in which
 * order, and how MIGRATION_START and the DB_* settings are written back to
 * `.env`. The directory listing, the environment and the file contents are
 * parameters; executing the SQL is left to the caller.
 */
module Migrations {
  import opened GoStrings
  import AdminEnv

  // ---------------------------------------------------------------------
  // sort.Strings: lexicographic order on strings

  /** `a` sorts before or equal to `b` */
  predicate LessEq(a: string, b: string)
    decreases |a|
  {
    a == [] || (b != [] && (a[0] < b[0] || (a[0] == b[0] && LessEq(a[1..], b[1..]))))
  }

  lemma {:induction false} LessEqTotal(a: string, b: string)
    ensures LessEq(a, b) || LessEq(b, a)
    decreases |a|
  {
    if a != [] && b != [] && a[0] == b[0] {
      LessEqTotal(a[1..], b[1..]);
    }
  }

  lemma {:induction false} LessEqTrans(a: string, b: string, c: string)
    requires LessEq(a, b) && LessEq(b, c)
    ensures LessEq(a, c)
    decreases |a|
  {
    if a != [] && a[0] == b[0] && b[0] == c[0] {
      LessEqTrans(a[1..], b[1..], c[1..]);
    }
  }

  ghost predicate Sorted(s: seq<string>) {
    forall i, j :: 0 <= i < j < |s| ==> LessEq(s[i], s[j])
  }

  function Insert(x: string, s: seq<string>): (r: seq<string>)
    ensures |r| == |s| + 1
  {
    if s == [] then [x]
    else if LessEq(x, s[0]) then [x] + s
    else [s[0]] + Insert(x, s[1..])
  }

  lemma {:induction false} InsertMultiset(x: string, s: seq<string>)
    ensures multiset(Insert(x, s)) == multiset(s) + multiset{x}
  {
    if s != [] && !LessEq(x, s[0]) {
      InsertMultiset(x, s[1..]);
      assert s == [s[0]] + s[1..];
    }
  }

  /** A bound below x and every element of s is below every element of Insert(x, s) */
  lemma {:induction false} InsertBelow(y: string, x: string, s: seq<string>)
    requires LessEq(y, x) && forall i :: 0 <= i < |s| ==> LessEq(y, s[i])
    ensures forall i :: 0 <= i < |s| + 1 ==> LessEq(y, Insert(x, s)[i])
  {
    if s != [] && !LessEq(x, s[0]) {
      InsertBelow(y, x, s[1..]);
    }
  }

  lemma {:induction false} InsertSorted(x: string, s: seq<string>)
    requires Sorted(s)
    ensures Sorted(Insert(x, s))
  {
    if s == [] {
    } else if LessEq(x, s[0]) {
      forall j | 0 <= j < |s|
        ensures LessEq(x, s[j])
      {
        if j > 0 {
          LessEqTrans(x, s[0], s[j]);
        }
      }
    } else {
      LessEqTotal(x, s[0]);
      var t := s[1..];
      InsertSorted(x, t);
      InsertBelow(s[0], x, t);
    }
  }

  /** sort.Strings, as an insertion sort */
  function SortStrings(s: seq<string>): (r: seq<string>)
    ensures |r| == |s|
  {
    if s == [] then [] else Insert(s[0], SortStrings(s[1..]))
  }

  /** The sorted list is in order and holds the same names, each as often */
  lemma {:induction false} SortStringsSpec(s: seq<string>)
    ensures Sorted(SortStrings(s)) && multiset(SortStrings(s)) == multiset(s)
  {
    if s != [] {
      SortStringsSpec(s[1..]);
      InsertSorted(s[0], SortStrings(s[1..]));
      InsertMultiset(s[0], SortStrings(s[1..]));
      assert s == [s[0]] + s[1..];
    }
  }

  // ---------------------------------------------------------------------
  // applySchema: selecting the pending migrations

  /** An entry of the migrations directory */
  datatype DirEntry = DirEntry(name: string, isDir: bool)

  /** A numbered migration file: `.sql`, starting with 0 or 1 */
  predicate IsMigrationFile(e: DirEntry) {
    !e.isDir && HasSuffix(e.name, ".sql") && (HasPrefix(e.name, "0") || HasPrefix(e.name, "1"))
  }

  /** The migration file names, in directory order */
  function Candidates(entries: seq<DirEntry>): (r: seq<string>)
    ensures |r| <= |entries|
  {
    if entries == [] then []
    else
      var last := entries[|entries| - 1];
      Candidates(entries[..|entries| - 1]) + (if IsMigrationFile(last) then [last.name] else [])
  }

  /** A name is a candidate exactly when some migration file carries it */
  lemma {:induction false} CandidatesIff(entries: seq<DirEntry>, name: string)
    ensures name in Candidates(entries) <==> exists i :: 0 <= i < |entries| && IsMigrationFile(entries[i]) && entries[i].name == name
  {
    if entries != [] {
      var n := |entries| - 1;
      var init := entries[..n];
      CandidatesIff(init, name);
      if exists i :: 0 <= i < n && IsMigrationFile(init[i]) && init[i].name == name {
        var i :| 0 <= i < n && IsMigrationFile(init[i]) && init[i].name == name;
        assert entries[i] == init[i];
      }
      if exists i :: 0 <= i < |entries| && IsMigrationFile(entries[i]) && entries[i].name == name {
        var i :| 0 <= i < |entries| && IsMigrationFile(entries[i]) && entries[i].name == name;
        if i < n {
          assert init[i] == entries[i];
        }
      }
    }
  }

  /** The number before the first `_`, as strconv.Atoi reads it */
  function MigrationNumber(name: string): Option<int> {
    Atoi(SplitOnce(name, '_')[0])
  }

  /** The last applied migration: 0 for a fresh schema, an absent or an unparsable MIGRATION_START */
  function LastApplied(schemaExists: bool, migrationStart: string): (r: int)
    ensures !schemaExists || migrationStart == "" || Atoi(migrationStart).None? ==> r == 0
    ensures schemaExists && Atoi(migrationStart).Some? ==> r == Atoi(migrationStart).value
  {
    if !schemaExists then 0
    else if migrationStart == "" then 0
    else match Atoi(migrationStart)
      case None => 0
      case Some(n) => n
  }

  /** `n` is after the last applied migration */
  predicate IsPending(name: string, lastApplied: int) {
    MigrationNumber(name).Some? && MigrationNumber(name).value > lastApplied
  }

  /** The names numbered above `lastApplied`, in the given order */
  function Pending(names: seq<string>, lastApplied: int): seq<string> {
    if names == [] then []
    else
      var last := names[|names| - 1];
      Pending(names[..|names| - 1], lastApplied) + (if IsPending(last, lastApplied) then [last] else [])
  }

  /** The migration number of each name */
  function Numbers(names: seq<string>): (r: seq<Option<int>>)
    ensures |r| == |names| && forall i :: 0 <= i < |names| ==> r[i] == MigrationNumber(names[i])
  {
    seq(|names|, i requires 0 <= i < |names| => MigrationNumber(names[i]))
  }

  /** The largest of the numbers present, at least 0 */
  function MaxNumber(nums: seq<Option<int>>): (r: int)
    ensures r >= 0
  {
    if nums == [] then 0
    else
      var h := MaxNumber(nums[..|nums| - 1]);
      match nums[|nums| - 1]
      case Some(n) => if n > h then n else h
      case None => h
  }

  /** The highest migration number among the names, at least 0 */
  function Highest(names: seq<string>): int {
    MaxNumber(Numbers(names))
  }

  lemma {:induction false} MaxNumberBounds(nums: seq<Option<int>>, i: nat)
    requires i < |nums| && nums[i].Some?
    ensures nums[i].value <= MaxNumber(nums)
  {
    var n := |nums| - 1;
    if i < n {
      MaxNumberBounds(nums[..n], i);
    }
  }

  lemma {:induction false} MaxNumberAttained(nums: seq<Option<int>>) returns (i: nat)
    ensures MaxNumber(nums) == 0 || (i < |nums| && nums[i] == Some(MaxNumber(nums)))
  {
    i := 0;
    if nums != [] {
      var n := |nums| - 1;
      var j := MaxNumberAttained(nums[..n]);
      if MaxNumber(nums) == MaxNumber(nums[..n]) {
        i := j;
      } else {
        i := n;
      }
    }
  }

  /** Pending keeps exactly the names numbered above lastApplied */
  lemma {:induction false} PendingIff(names: seq<string>, lastApplied: int, name: string)
    ensures name in Pending(names, lastApplied) <==> name in names && IsPending(name, lastApplied)
  {
    if names != [] {
      var n := |names| - 1;
      PendingIff(names[..n], lastApplied, name);
      assert names == names[..n] + [names[n]];
    }
  }

  /** Pending is a sub-sequence: it keeps the names' order */
  lemma {:induction false} PendingSorted(names: seq<string>, lastApplied: int)
    requires Sorted(names)
    ensures Sorted(Pending(names, lastApplied))
  {
    if names != [] {
      var n := |names| - 1;
      var init := names[..n];
      assert Sorted(init);
      PendingSorted(init, lastApplied);
      var p := Pending(init, lastApplied);
      forall i | 0 <= i < |p|
        ensures LessEq(p[i], names[n])
      {
        PendingIff(init, lastApplied, p[i]);
        var k :| 0 <= k < n && init[k] == p[i];
      }
    }
  }

  /** Highest bounds every parsed number */
  lemma HighestBounds(names: seq<string>, i: nat)
    requires i < |names| && MigrationNumber(names[i]).Some?
    ensures MigrationNumber(names[i]).value <= Highest(names)
  {
    MaxNumberBounds(Numbers(names), i);
  }

  /** Highest is 0 or the number of one of the names */
  lemma HighestAttained(names: seq<string>) returns (i: nat)
    ensures Highest(names) == 0 || (i < |names| && MigrationNumber(names[i]) == Some(Highest(names)))
  {
    i := MaxNumberAttained(Numbers(names));
  }

  datatype Plan = Plan(pending: seq<string>, highestApplied: int, lastApplied: int)

  const NoMigrationsError := "no migration files found in migrations directory"

  /** What applySchema decides before it executes anything */
  function PlanMigrations(entries: seq<DirEntry>, schemaExists: bool, migrationStart: string): Result<Plan> {
    var fileNames := SortStrings(Candidates(entries));
    if |fileNames| == 0 then Err(NoMigrationsError)
    else
      var last := LastApplied(schemaExists, migrationStart);
      Ok(Plan(Pending(fileNames, last), Highest(fileNames), last))
  }

  /** The MIGRATION_START written after the pending files ran, if any */
  function NewMigrationStart(p: Plan): Option<int> {
    if |p.pending| == 0 then None
    else if p.highestApplied > p.lastApplied then Some(p.highestApplied)
    else None
  }

  /** A directory without numbered `.sql` files is an error */
  lemma NoFilesIsError(entries: seq<DirEntry>, schemaExists: bool, migrationStart: string)
    requires forall i :: 0 <= i < |entries| ==> !IsMigrationFile(entries[i])
    ensures PlanMigrations(entries, schemaExists, migrationStart) == Err(NoMigrationsError)
  {
    var c := Candidates(entries);
    if c != [] {
      CandidatesIff(entries, c[0]);
    }
  }

  /** The pending files are the candidates above lastApplied, sorted, each once */
  lemma PlanPendingSpec(entries: seq<DirEntry>, schemaExists: bool, migrationStart: string, name: string)
    requires PlanMigrations(entries, schemaExists, migrationStart).Ok?
    ensures var p := PlanMigrations(entries, schemaExists, migrationStart).value;
      Sorted(p.pending) &&
      (name in p.pending <==> name in Candidates(entries) && IsPending(name, p.lastApplied))
  {
    var fileNames := SortStrings(Candidates(entries));
    var last := LastApplied(schemaExists, migrationStart);
    SortStringsSpec(Candidates(entries));
    PendingSorted(fileNames, last);
    PendingIff(fileNames, last, name);
    assert name in fileNames <==> name in multiset(fileNames);
    assert name in Candidates(entries) <==> name in multiset(Candidates(entries));
  }

  /** Whenever something is pending, MIGRATION_START moves up to the highest number */
  lemma PendingAdvancesStart(p: Plan, names: seq<string>)
    requires p.pending == Pending(names, p.lastApplied) && p.highestApplied == Highest(names)
    ensures |p.pending| == 0 <==> NewMigrationStart(p).None?
    ensures NewMigrationStart(p).Some? ==> NewMigrationStart(p).value == Highest(names) > p.lastApplied
  {
    if |p.pending| > 0 {
      PendingIff(names, p.lastApplied, p.pending[0]);
      var i :| 0 <= i < |names| && names[i] == p.pending[0];
      HighestBounds(names, i);
    }
  }

  /** After MIGRATION_START is written, running the selection again finds nothing pending */
  lemma RerunFindsNothing(names: seq<string>)
    requires Highest(names) <= MaxInt64
    ensures Pending(names, LastApplied(true, Pad3(Highest(names)))) == []
  {
    var h := Highest(names);
    AtoiPad3(h);
    assert Pad3(h) != "";
    var p := Pending(names, h);
    if p != [] {
      PendingIff(names, h, p[0]);
      var i :| 0 <= i < |names| && names[i] == p[0];
      HighestBounds(names, i);
    }
  }

  /** The directory loop of applySchema */
  method CollectMigrationNames(entries: seq<DirEntry>) returns (fileNames: seq<string>)
    ensures fileNames == Candidates(entries)
  {
    fileNames := [];
    var i := 0;
    while i < |entries|
      invariant 0 <= i <= |entries|
      invariant fileNames == Candidates(entries[..i])
    {
      var file := entries[i];
      assert entries[..i + 1][..i] == entries[..i];
      if !file.isDir && HasSuffix(file.name, ".sql") {
        if HasPrefix(file.name, "0") || HasPrefix(file.name, "1") {
          fileNames := fileNames + [file.name];
        }
      }
      i := i + 1;
    }
    assert entries[..|entries|] == entries;
  }

  /** One more name extends Pending and MaxNumber as the loop of applySchema does */
  lemma SelectStep(fileNames: seq<string>, i: nat, lastApplied: int)
    requires i < |fileNames|
    ensures Pending(fileNames[..i + 1], lastApplied) ==
      Pending(fileNames[..i], lastApplied) + if IsPending(fileNames[i], lastApplied) then [fileNames[i]] else []
    ensures var h := MaxNumber(Numbers(fileNames)[..i]);
      MaxNumber(Numbers(fileNames)[..i + 1]) ==
        match MigrationNumber(fileNames[i])
        case Some(n) => if n > h then n else h
        case None => h
  {
    assert fileNames[..i + 1][..i] == fileNames[..i];
    assert Numbers(fileNames)[..i + 1][..i] == Numbers(fileNames)[..i];
  }

  /** The filtering loop of applySchema, tracking highestApplied */
  method SelectPending(fileNames: seq<string>, lastApplied: int) returns (pendingMigrations: seq<string>, highestApplied: int)
    ensures pendingMigrations == Pending(fileNames, lastApplied) && highestApplied == Highest(fileNames)
  {
    pendingMigrations := [];
    highestApplied := 0;
    var i := 0;
    while i < |fileNames|
      invariant 0 <= i <= |fileNames|
      invariant pendingMigrations == Pending(fileNames[..i], lastApplied)
      invariant highestApplied == MaxNumber(Numbers(fileNames)[..i])
    {
      var fileName := fileNames[i];
      SelectStep(fileNames, i, lastApplied);
      var numStr := SplitOnce(fileName, '_')[0];
      var parsed := Atoi(numStr);
      if parsed.Some? {
        var num := parsed.value;
        if num > lastApplied {
          pendingMigrations := pendingMigrations + [fileName];
        }
        if num > highestApplied {
          highestApplied := num;
        }
      }
      i := i + 1;
    }
    assert fileNames[..|fileNames|] == fileNames;
    assert Numbers(fileNames)[..|fileNames|] == Numbers(fileNames);
  }

  /** applySchema up to the point where SQL is executed */
  method ApplySchemaPlan(entries: seq<DirEntry>, schemaExists: bool, migrationStart: string) returns (r: Result<Plan>)
    ensures r == PlanMigrations(entries, schemaExists, migrationStart)
  {
    var names := CollectMigrationNames(entries);
    var fileNames := SortStrings(names);
    if |fileNames| == 0 {
      return Err(NoMigrationsError);
    }
    var lastApplied := LastApplied(schemaExists, migrationStart);
    var pending, highest := SelectPending(fileNames, lastApplied);
    r := Ok(Plan(pending, highest, lastApplied));
  }

  // ---------------------------------------------------------------------
  // updateMigrationStart and UpdateDatabaseConfig: setting fixed keys in `.env`

  /** The key of a `key=value` line; None for an empty line or a line without `=` (the line itself is not trimmed) */
  function ConfigKey(line: string): Option<string> {
    if line == "" then None
    else
      var parts := SplitOnce(line, '=');
      if |parts| != 2 then None else Some(TrimSpace(parts[0]))
  }

  function ConfigLine(line: string, values: map<string, string>): AdminEnv.Rewrite {
    var key := ConfigKey(line);
    if key.Some? && key.value in values then AdminEnv.Rewrite(key.value + "=" + values[key.value], key)
    else AdminEnv.Rewrite(line, None)
  }

  /** Each line of the file with the managed keys set */
  function ConfigEach(lines: seq<string>, values: map<string, string>): (r: seq<AdminEnv.Rewrite>)
    ensures |r| == |lines|
  {
    if lines == [] then []
    else ConfigEach(lines[..|lines| - 1], values) + [ConfigLine(lines[|lines| - 1], values)]
  }

  lemma {:induction false} ConfigEachAt(lines: seq<string>, values: map<string, string>, i: nat)
    requires i < |lines|
    ensures var r := ConfigEach(lines, values)[i];
      r.line == ConfigLine(lines[i], values).line && r.key == ConfigLine(lines[i], values).key
  {
    var n := |lines| - 1;
    var init := lines[..n];
    assert ConfigEach(lines, values) == ConfigEach(init, values) + [ConfigLine(lines[n], values)];
    if i < n {
      ConfigEachAt(init, values, i);
      assert init[i] == lines[i];
      assert ConfigEach(lines, values)[i] == ConfigEach(init, values)[i];
    } else {
      assert i == n;
    }
  }

  /** The new lines: every managed key set in place, then the managed keys never seen, in `order` */
  function SetConfigLines(lines: seq<string>, values: map<string, string>, order: seq<string>): seq<string>
    requires AdminEnv.IsListing(order, values)
  {
    var rs := ConfigEach(lines, values);
    AdminEnv.LinesOf(rs) + AdminEnv.Assignments(AdminEnv.Missing(order, AdminEnv.KeysOf(rs)), values)
  }

  /** Every line holding a managed key takes its value, all of them and not only the first */
  lemma ConfigSetsEveryLine(lines: seq<string>, values: map<string, string>, order: seq<string>, i: nat)
    requires AdminEnv.IsListing(order, values) && i < |lines|
    requires ConfigKey(lines[i]).Some? && ConfigKey(lines[i]).value in values
    ensures var k := ConfigKey(lines[i]).value;
      SetConfigLines(lines, values, order)[i] == k + "=" + values[k]
  {
    ConfigEachAt(lines, values, i);
  }

  /** Every other line is kept as it was */
  lemma ConfigKeepsOtherLines(lines: seq<string>, values: map<string, string>, order: seq<string>, i: nat)
    requires AdminEnv.IsListing(order, values) && i < |lines|
    requires ConfigKey(lines[i]).None? || ConfigKey(lines[i]).value !in values
    ensures SetConfigLines(lines, values, order)[i] == lines[i]
  {
    ConfigEachAt(lines, values, i);
  }

  /** A managed key is appended, once, exactly when no line of the file holds it */
  lemma ConfigAppendsMissing(lines: seq<string>, values: map<string, string>, order: seq<string>, k: string)
    requires AdminEnv.IsListing(order, values)
    ensures var rs := ConfigEach(lines, values);
      var miss := AdminEnv.Missing(order, AdminEnv.KeysOf(rs));
      AdminEnv.Distinct(miss) && |SetConfigLines(lines, values, order)| == |lines| + |miss| &&
      (k in miss <==> k in values && forall i :: 0 <= i < |lines| ==> ConfigKey(lines[i]) != Some(k))
  {
    var rs := ConfigEach(lines, values);
    AdminEnv.MissingDistinct(order, AdminEnv.KeysOf(rs));
    ConfigMissingIff(lines, values, order, k);
  }

  lemma ConfigMissingIff(lines: seq<string>, values: map<string, string>, order: seq<string>, k: string)
    requires AdminEnv.IsListing(order, values)
    ensures k in AdminEnv.Missing(order, AdminEnv.KeysOf(ConfigEach(lines, values))) <==>
      k in values && forall i :: 0 <= i < |lines| ==> ConfigKey(lines[i]) != Some(k)
  {
    var rs := ConfigEach(lines, values);
    AdminEnv.KeysOfIff(rs, k);
    if k in values && exists i :: 0 <= i < |lines| && ConfigKey(lines[i]) == Some(k) {
      var i :| 0 <= i < |lines| && ConfigKey(lines[i]) == Some(k);
      ConfigEachAt(lines, values, i);
    }
    if exists i :: 0 <= i < |rs| && rs[i].key == Some(k) {
      var i :| 0 <= i < |rs| && rs[i].key == Some(k);
      ConfigEachAt(lines, values, i);
    }
  }

  const MigrationStartKey := "MIGRATION_START"

  /** The `.env` content after updateMigrationStart(migrationNum) */
  function MigrationStartContent(content: string, migrationNum: int): string {
    var values := map[MigrationStartKey := Pad3(migrationNum)];
    assert AdminEnv.IsListing([MigrationStartKey], values);
    Join(SetConfigLines(Split(content, '\n'), values, [MigrationStartKey]), "\n")
  }

  /** The value written is read back as the same migration number */
  lemma MigrationStartReadBack(migrationNum: int)
    requires MinInt64 <= migrationNum <= MaxInt64
    ensures LastApplied(true, Pad3(migrationNum)) == migrationNum
  {
    AtoiPad3(migrationNum);
  }

  const DbKeys := ["DB_HOST", "DB_PORT", "DB_USER", "DB_PASSWORD", "DB_NAME"]

  function DbValues(host: string, port: string, user: string, password: string, dbname: string): map<string, string> {
    map["DB_HOST" := host, "DB_PORT" := port, "DB_USER" := user, "DB_PASSWORD" := password, "DB_NAME" := dbname]
  }

  lemma DbKeysListing(host: string, port: string, user: string, password: string, dbname: string)
    ensures AdminEnv.IsListing(DbKeys, DbValues(host, port, user, password, dbname))
  {
  }

  /** The `.env` content after UpdateDatabaseConfig */
  function DatabaseConfigContent(content: string, host: string, port: string, user: string, password: string, dbname: string): string {
    var values := DbValues(host, port, user, password, dbname);
    DbKeysListing(host, port, user, password, dbname);
    Join(SetConfigLines(Split(content, '\n'), values, DbKeys), "\n")
  }

  lemma ConfigStep(lines: seq<string>, values: map<string, string>, i: nat)
    requires i < |lines|
    ensures var rs := ConfigEach(lines[..i], values);
      var x := ConfigLine(lines[i], values);
      ConfigEach(lines[..i + 1], values) == rs + [x] &&
      AdminEnv.LinesOf(rs + [x]) == AdminEnv.LinesOf(rs) + [x.line] &&
      AdminEnv.KeysOf(rs + [x]) == AdminEnv.KeysOf(rs) + (if x.key.Some? then {x.key.value} else {})
  {
    assert lines[..i + 1][..i] == lines[..i];
    AdminEnv.RewritesSnoc(ConfigEach(lines[..i], values), ConfigLine(lines[i], values));
  }

  /** The loop over the existing lines, shared by both writers */
  method RewriteConfigLines(lines: seq<string>, values: map<string, string>) returns (newLines: seq<string>, found: set<string>)
    ensures newLines == AdminEnv.LinesOf(ConfigEach(lines, values))
    ensures found == AdminEnv.KeysOf(ConfigEach(lines, values))
  {
    newLines := [];
    found := {};
    var i := 0;
    while i < |lines|
      invariant 0 <= i <= |lines|
      invariant newLines == AdminEnv.LinesOf(ConfigEach(lines[..i], values))
      invariant found == AdminEnv.KeysOf(ConfigEach(lines[..i], values))
    {
      var line := lines[i];
      ConfigStep(lines, values, i);
      ghost var rw := ConfigLine(line, values);
      ghost var before, beforeFound := newLines, found;
      if line == "" {
        newLines := newLines + [line];
      } else {
        var parts := SplitOnce(line, '=');
        if |parts| != 2 {
          newLines := newLines + [line];
        } else {
          var key := TrimSpace(parts[0]);
          assert ConfigKey(line) == Some(key);
          if key in values {
            newLines := newLines + [key + "=" + values[key]];
            found := found + {key};
          } else {
            newLines := newLines + [line];
          }
        }
      }
      assert newLines == before + [rw.line];
      assert found == beforeFound + (if rw.key.Some? then {rw.key.value} else {});
      i := i + 1;
    }
    assert lines[..|lines|] == lines;
  }

  lemma SingleMissing(k: string, v: string, found: set<string>, lines: seq<string>)
    ensures var added := AdminEnv.Assignments(AdminEnv.Missing([k], found), map[k := v]);
      lines + added == if k in found then lines else lines + [k + "=" + v]
  {
    assert [k][..0] == [];
    assert lines + [] == lines;
  }

  /** updateMigrationStart, given the old file content */
  method UpdateMigrationStart(content: string, migrationNum: int) returns (output: string)
    ensures output == MigrationStartContent(content, migrationNum)
  {
    var formattedNum := Pad3(migrationNum);
    var values := map[MigrationStartKey := formattedNum];
    var lines := Split(content, '\n');
    var newLines, found := RewriteConfigLines(lines, values);
    SingleMissing(MigrationStartKey, formattedNum, found, newLines);
    if MigrationStartKey !in found {
      newLines := newLines + [MigrationStartKey + "=" + formattedNum];
    }
    output := Join(newLines, "\n");
  }

  /** UpdateDatabaseConfig, given the old file content */
  method UpdateDatabaseConfig(content: string, host: string, port: string, user: string, password: string, dbname: string)
    returns (output: string)
    ensures output == DatabaseConfigContent(content, host, port, user, password, dbname)
  {
    var values := DbValues(host, port, user, password, dbname);
    DbKeysListing(host, port, user, password, dbname);
    var lines := Split(content, '\n');
    var newLines, found := RewriteConfigLines(lines, values);
    newLines := AdminEnv.AppendMissing(newLines, values, DbKeys, found);
    output := Join(newLines, "\n");
  }

  // ---------------------------------------------------------------------
  // mapDbTypeToColumnType

  const NumberTypes := ["integer", "bigint", "smallint", "decimal", "numeric", "real", "double precision"]
  const DateTypes := ["timestamp", "timestamp with time zone", "date", "time", "time with time zone"]

  /** The column type shown for a PostgreSQL data type */
  function ColumnType(dbType: string): (r: string)
    ensures r == "number" <==> dbType in NumberTypes
    ensures r == "boolean" <==> dbType == "boolean"
    ensures r == "date" <==> dbType in DateTypes
    ensures r == "text" <==> dbType !in NumberTypes && dbType != "boolean" && dbType !in DateTypes
  {
    match dbType
    case "integer" | "bigint" | "smallint" | "decimal" | "numeric" | "real" | "double precision" => "number"
    case "boolean" => "boolean"
    case "timestamp" | "timestamp with time zone" | "date" | "time" | "time with time zone" => "date"
    case _ => "text"
  }
}
