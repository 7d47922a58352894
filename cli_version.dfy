/**
 * The CLI's version bump: `x.y.z.w` becomes `x.y.z.(w+1)` with Go's 64-bit
 * `int` arithmetic.
 */
module CliVersion {
  import opened GoStrings
  import AdminEnv

  function FormatError(version: string): string {
    "invalid version format: " + version + " (expected x.y.z.w)"
  }

  function RevisionError(revision: string): string {
    "invalid revision number: " + revision
  }

  function IncrementRevision(version: string): Result<string> {
    var parts := Split(version, '.');
    if |parts| != 4 then Err(FormatError(version))
    else match Atoi(parts[3])
      case None => Err(RevisionError(parts[3]))
      case Some(revision) =>
        Ok(parts[0] + "." + parts[1] + "." + parts[2] + "." + Itoa(Wrap64(revision + 1)))
  }

  /** A version without exactly three dots is rejected */
  lemma IncrementWrongParts(version: string)
    requires multiset(version)['.'] != 3
    ensures IncrementRevision(version) == Err(FormatError(version))
  {
    SplitCount(version, '.');
  }

  /** A fourth part that is not an integer is rejected, naming that part */
  lemma IncrementNotInteger(a: string, b: string, c: string, d: string)
    requires '.' !in a && '.' !in b && '.' !in c && '.' !in d && Atoi(d).None?
    ensures IncrementRevision(a + "." + b + "." + c + "." + d) == Err(RevisionError(d))
  {
    JoinFour(a, b, c, d, '.');
    SplitJoin([a, b, c, d], '.');
  }

  /** `a.b.c.n` becomes `a.b.c.(n+1)` */
  lemma IncrementVersion(a: string, b: string, c: string, n: int)
    requires '.' !in a && '.' !in b && '.' !in c && MinInt64 <= n < MaxInt64
    ensures IncrementRevision(a + "." + b + "." + c + "." + Itoa(n)) == Ok(a + "." + b + "." + c + "." + Itoa(n + 1))
  {
    ItoaNoDot(n);
    JoinFour(a, b, c, Itoa(n), '.');
    SplitJoin([a, b, c, Itoa(n)], '.');
    AtoiItoa(n);
  }

  /** The new revision is the old one plus one in Go's 64-bit `int` */
  lemma IncrementBuildNumber(a: string, b: string, c: string, n: int)
    requires '.' !in a && '.' !in b && '.' !in c && MinInt64 <= n <= MaxInt64
    ensures var r := IncrementRevision(a + "." + b + "." + c + "." + Itoa(n));
      r.Ok? && AdminEnv.GetBuildNumber(r.value) == Wrap64(n + 1)
  {
    ItoaNoDot(n);
    JoinFour(a, b, c, Itoa(n), '.');
    SplitJoin([a, b, c, Itoa(n)], '.');
    AtoiItoa(n);
    AdminEnv.BuildNumberOfVersion(a, b, c, Wrap64(n + 1));
  }

  /** The largest revision wraps to the smallest `int`, as Go's addition does */
  lemma IncrementWraps(a: string, b: string, c: string, n: int)
    requires '.' !in a && '.' !in b && '.' !in c && n == MaxInt64
    ensures var r := IncrementRevision(a + "." + b + "." + c + "." + Itoa(n));
      r.Ok? && AdminEnv.GetBuildNumber(r.value) == MinInt64
  {
    IncrementBuildNumber(a, b, c, n);
    Wrap64Max();
  }

  /** A bumped version keeps its first three parts and its build number goes up by one */
  lemma IncrementBumpsBuild(version: string)
    requires IncrementRevision(version).Ok? && AdminEnv.GetBuildNumber(version) < MaxInt64
    ensures AdminEnv.GetBuildNumber(IncrementRevision(version).value) == AdminEnv.GetBuildNumber(version) + 1
    ensures var p := Split(IncrementRevision(version).value, '.');
      |p| == 4 && p[..3] == Split(version, '.')[..3]
  {
    var parts := Split(version, '.');
    assert version != "";
    var n := Atoi(parts[3]).value;
    assert '.' !in parts[0] && '.' !in parts[1] && '.' !in parts[2];
    AdminEnv.BuildNumberOfVersion(parts[0], parts[1], parts[2], n + 1);
    var next := Itoa(n + 1);
    ItoaNoDot(n + 1);
    JoinFour(parts[0], parts[1], parts[2], next, '.');
    SplitJoin([parts[0], parts[1], parts[2], next], '.');
  }
}
