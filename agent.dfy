/**
 * The command agent: its conversation history with word-budget truncation,
 * the shell-command safety filter, the synchronous part of a step, and the
 * dispatch of the assistant's reply. The language model, the shell and the
 * clock are outside the model: their answers are parameters.
 */
module AgentLoop {
  import opened GoStrings

  // ---------------------------------------------------------------------
  // History

  datatype Message = Message(role: string, content: string)

  const MaxHistoryTokens: nat := 3500

  /** len(strings.Fields(content)) */
  function Words(m: Message): nat {
    |Fields(m.content)|
  }

  /** The word count of a history */
  function Tokens(h: seq<Message>): nat {
    if h == [] then 0 else Words(h[0]) + Tokens(h[1..])
  }

  lemma {:induction false} TokensAppend(a: seq<Message>, b: seq<Message>)
    ensures Tokens(a + b) == Tokens(a) + Tokens(b)
  {
    if a != [] {
      assert (a + b)[0] == a[0];
      assert (a + b)[1..] == a[1..] + b;
      TokensAppend(a[1..], b);
    } else {
      assert a + b == b;
    }
  }

  /** Drop the oldest message that is not a leading system prompt, while over budget */
  function Truncate(h: seq<Message>, extra: nat): seq<Message>
    decreases |h|
  {
    if Tokens(h) + extra > MaxHistoryTokens && |h| > 1 then
      if h[0].role == "system" && |h| > 2 then Truncate([h[0]] + h[2..], extra)
      else if h[0].role != "system" then Truncate(h[1..], extra)
      else h
    else h
  }

  lemma SkipSecond(h: seq<Message>)
    requires |h| > 2
    ensures Tokens([h[0]] + h[2..]) == Tokens(h) - Words(h[1])
  {
    assert ([h[0]] + h[2..])[1..] == h[2..];
    assert h[1..][1..] == h[2..];
  }

  /** Within the budget nothing is removed */
  lemma TruncateUnderBudget(h: seq<Message>, extra: nat)
    requires Tokens(h) + extra <= MaxHistoryTokens
    ensures Truncate(h, extra) == h
  {
  }

  /** The truncated history is within budget unless nothing more may be removed */
  lemma {:induction false} TruncateFits(h: seq<Message>, extra: nat)
    ensures var r := Truncate(h, extra);
      Tokens(r) + extra <= MaxHistoryTokens || |r| <= 1 || (|r| == 2 && r[0].role == "system")
    decreases |h|
  {
    if Tokens(h) + extra > MaxHistoryTokens && |h| > 1 {
      if h[0].role == "system" && |h| > 2 {
        TruncateFits([h[0]] + h[2..], extra);
      } else if h[0].role != "system" {
        TruncateFits(h[1..], extra);
      }
    }
  }

  /** A leading system prompt is never removed */
  lemma {:induction false} TruncateKeepsSystem(h: seq<Message>, extra: nat)
    requires h != [] && h[0].role == "system"
    ensures Truncate(h, extra) != [] && Truncate(h, extra)[0] == h[0]
    decreases |h|
  {
    if Tokens(h) + extra > MaxHistoryTokens && |h| > 2 {
      var h' := [h[0]] + h[2..];
      TruncateKeepsSystem(h', extra);
    }
  }

  lemma InSkipSecond(h: seq<Message>)
    requires |h| > 2
    ensures forall x :: x in [h[0]] + h[2..] ==> x in h
  {
    forall x | x in [h[0]] + h[2..] ensures x in h {
      var j :| 0 <= j < |[h[0]] + h[2..]| && ([h[0]] + h[2..])[j] == x;
      if j > 0 {
        assert h[j + 1] == x;
      }
    }
  }

  lemma InTail(h: seq<Message>)
    requires h != []
    ensures forall x :: x in h[1..] ==> x in h
  {
  }

  lemma Sublist(r: seq<Message>, g: seq<Message>, h: seq<Message>)
    requires (forall i :: 0 <= i < |r| ==> r[i] in g) && (forall x :: x in g ==> x in h)
    ensures forall i :: 0 <= i < |r| ==> r[i] in h
  {
  }

  /** Only messages of the old history remain, and the newest is always kept */
  lemma {:induction false} TruncateKeepsNewest(h: seq<Message>, extra: nat)
    requires h != []
    ensures var r := Truncate(h, extra);
      0 < |r| <= |h| && r[|r| - 1] == h[|h| - 1] && forall i :: 0 <= i < |r| ==> r[i] in h
    decreases |h|, 1
  {
    if Tokens(h) + extra > MaxHistoryTokens && |h| > 1 {
      if h[0].role == "system" && |h| > 2 {
        NewestAfterSkip(h, extra);
      } else if h[0].role != "system" {
        NewestAfterDrop(h, extra);
      }
    }
  }

  lemma {:induction false} NewestAfterSkip(h: seq<Message>, extra: nat)
    requires |h| > 2
    ensures var r := Truncate([h[0]] + h[2..], extra);
      0 < |r| <= |h| && r[|r| - 1] == h[|h| - 1] && forall i :: 0 <= i < |r| ==> r[i] in h
    decreases |h|, 0
  {
    var h' := [h[0]] + h[2..];
    TruncateKeepsNewest(h', extra);
    InSkipSecond(h);
    Sublist(Truncate(h', extra), h', h);
  }

  lemma {:induction false} NewestAfterDrop(h: seq<Message>, extra: nat)
    requires |h| > 1
    ensures var r := Truncate(h[1..], extra);
      0 < |r| <= |h| && r[|r| - 1] == h[|h| - 1] && forall i :: 0 <= i < |r| ==> r[i] in h
    decreases |h|, 0
  {
    TruncateKeepsNewest(h[1..], extra);
    InTail(h);
    Sublist(Truncate(h[1..], extra), h[1..], h);
  }

  /**
    The shape a truncated history has: a suffix `h[j..]` of the old one, or
    its message `h[j]` (the kept system prompt) followed by a suffix `h[k..]`
  */
  predicate KeptForm(r: seq<Message>, h: seq<Message>, j: int, k: int) {
    0 <= j < k <= |h| && (r == h[j..] || r == [h[j]] + h[k..])
  }

  /** Truncation keeps the order of the old history: it removes a run of older messages */
  lemma TruncateKeepsOrder(h: seq<Message>, extra: nat)
    requires h != []
    ensures exists j, k :: KeptForm(Truncate(h, extra), h, j, k)
  {
    var j, k := TruncateShape(h, extra);
  }

  lemma {:induction false} TruncateShape(h: seq<Message>, extra: nat) returns (j: int, k: int)
    requires h != []
    ensures KeptForm(Truncate(h, extra), h, j, k)
    decreases |h|
  {
    j, k := 0, 1;
    assert h[0..] == h;
    if Tokens(h) + extra > MaxHistoryTokens && |h| > 1 {
      if h[0].role == "system" && |h| > 2 {
        var h' := [h[0]] + h[2..];
        var j', k' := TruncateShape(h', extra);
        j, k := ShapeAfterSkip(h, Truncate(h', extra), j', k');
      } else if h[0].role != "system" {
        var j', k' := TruncateShape(h[1..], extra);
        ShapeAfterDrop(h, Truncate(h[1..], extra), j', k');
        j, k := j' + 1, k' + 1;
      }
    }
  }

  lemma ShapeAfterSkip(h: seq<Message>, r: seq<Message>, j': int, k': int) returns (j: int, k: int)
    requires |h| > 2 && KeptForm(r, [h[0]] + h[2..], j', k')
    ensures KeptForm(r, h, j, k)
  {
    var h' := [h[0]] + h[2..];
    assert h'[1..] == h[2..];
    if r == h'[j'..] {
      if j' == 0 {
        j, k := 0, 2;
      } else {
        assert h'[j'..] == h[j' + 1..];
        j, k := j' + 1, j' + 2;
      }
    } else {
      assert h'[k'..] == h[k' + 1..];
      j, k := if j' == 0 then 0 else j' + 1, k' + 1;
      assert h'[j'] == h[j];
    }
  }

  lemma ShapeAfterDrop(h: seq<Message>, r: seq<Message>, j': int, k': int)
    requires |h| > 1 && KeptForm(r, h[1..], j', k')
    ensures KeptForm(r, h, j' + 1, k' + 1)
  {
    assert h[1..][j'..] == h[j' + 1..] && h[1..][k'..] == h[k' + 1..];
  }


  // ---------------------------------------------------------------------
  // The command safety filter

  const DataDir := "/app/data"
  const AllowedWritePrefix := "/app/data/"

  const ChmodPrefix := "chmod -R 000 /"
  const ChownPrefix := "chown -R "

  /** The forbidden prefixes as the filter lists them */
  const ForbiddenAsWritten: seq<string> := CommandPrefixes + [ChmodPrefix, ChownPrefix] + WritePrefixes

  const CommandPrefixes: seq<string> := ["rm ", "sudo rm ", "mv /", "dd ", "mkfs", "shutdown", "reboot", ":(){ :|:& };:"]
  const WritePrefixes: seq<string> := [
    "> /etc", "> /dev", "> /bin", "> /sbin", "> /usr", "> /root", "> /var", "> /tmp", "> /run",
    "| sh", "| bash", "| zsh"]

  /** The same prefixes lower-cased, as they must be to match a lower-cased command */
  const ForbiddenPrefixes: seq<string> := LowerAll(ForbiddenAsWritten)

  function LowerAll(ps: seq<string>): (r: seq<string>)
    ensures |r| == |ps| && forall i :: 0 <= i < |ps| ==> r[i] == ToLower(ps[i])
  {
    if ps == [] then [] else [ToLower(ps[0])] + LowerAll(ps[1..])
  }

  datatype Safety = Safe | Unsafe(reason: string)

  /** The first prefix from index i on that starts `lower` */
  function FirstForbidden(lower: string, prefixes: seq<string>, i: nat): (r: Option<string>)
    requires i <= |prefixes|
    decreases |prefixes| - i
  {
    if i == |prefixes| then None
    else if HasPrefix(lower, prefixes[i]) then Some(prefixes[i])
    else FirstForbidden(lower, prefixes, i + 1)
  }

  lemma {:induction false} FirstForbiddenSpec(lower: string, prefixes: seq<string>, i: nat)
    requires i <= |prefixes|
    ensures FirstForbidden(lower, prefixes, i).None? <==> forall k :: i <= k < |prefixes| ==> !HasPrefix(lower, prefixes[k])
    ensures FirstForbidden(lower, prefixes, i).Some? ==> HasPrefix(lower, FirstForbidden(lower, prefixes, i).value)
    decreases |prefixes| - i
  {
    if i < |prefixes| {
      FirstForbiddenSpec(lower, prefixes, i + 1);
    }
  }

  /** The command may touch files: a redirection or a file-manipulating command */
  predicate WriteOp(trimmed: string) {
    Contains(trimmed, ">") || Contains(trimmed, "touch ") || Contains(trimmed, "mkdir ") ||
    Contains(trimmed, "cp ") || Contains(trimmed, "mv ")
  }

  /** The field is named as the target of the last pipe segment */
  predicate IsPipeTarget(trimmed: string, field: string) {
    var parts := Split(trimmed, '|');
    |parts| > 1 && Contains(parts[|parts| - 1], field)
  }

  /** The command writes to the field by redirection, touch or mkdir */
  predicate WritesTo(trimmed: string, field: string) {
    Contains(trimmed, " > " + field) || Contains(trimmed, " >> " + field) ||
    HasPrefix(trimmed, "touch " + field) || HasPrefix(trimmed, "mkdir " + field)
  }

  /** An absolute path outside the data directory, written to outside the last pipe segment */
  predicate BlockedField(trimmed: string, field: string) {
    Contains(field, "/") && !HasPrefix(field, AllowedWritePrefix) &&
    field != ">" && field != ">>" && field != "|" && field != "&" &&
    HasPrefix(field, "/") && WritesTo(trimmed, field) && !IsPipeTarget(trimmed, field)
  }

  function FirstBlockedField(trimmed: string, fields: seq<string>, j: nat): (r: Option<string>)
    requires j <= |fields|
    decreases |fields| - j
  {
    if j == |fields| then None
    else if BlockedField(trimmed, fields[j]) then Some(fields[j])
    else FirstBlockedField(trimmed, fields, j + 1)
  }

  lemma {:induction false} FirstBlockedFieldSpec(trimmed: string, fields: seq<string>, j: nat)
    requires j <= |fields|
    ensures FirstBlockedField(trimmed, fields, j).None? <==> forall k :: j <= k < |fields| ==> !BlockedField(trimmed, fields[k])
    ensures FirstBlockedField(trimmed, fields, j).Some? ==> BlockedField(trimmed, FirstBlockedField(trimmed, fields, j).value)
    decreases |fields| - j
  {
    if j < |fields| {
      FirstBlockedFieldSpec(trimmed, fields, j + 1);
    }
  }

  /** `cd` may go to the data directory or below it, or to `.` and `..` */
  predicate CdAllowed(target: string) {
    target == DataDir || HasPrefix(target, DataDir + "/") || target == "." || target == ".."
  }

  function CdTarget(lower: string): string
    requires HasPrefix(lower, "cd ")
  {
    TrimSpace(lower[3..])
  }

  /** Every reason for refusing a command starts with this */
  const BlockedPrefix := "Command blocked: "

  function ForbiddenReason(p: string): string {
    "Command blocked: Starts with forbidden pattern '" + p + "'"
  }

  function OutsideReason(field: string): string {
    "Command blocked: Attempting file operation on '" + field + "' which is outside the allowed '" + DataDir + "' directory."
  }

  function CdReason(target: string): string {
    "Command blocked: 'cd' is only allowed to '" + DataDir + "'. Attempted: '" + target + "'"
  }

  /** The field check, run only when the command may touch files */
  function WriteCheck(trimmed: string): Option<string> {
    if WriteOp(trimmed) then FirstBlockedField(trimmed, Fields(trimmed), 0) else None
  }

  /** isCommandSafe against a list of forbidden prefixes */
  function CommandSafety(cmd: string, prefixes: seq<string>): Safety {
    var trimmed := TrimSpace(cmd);
    var lower := ToLower(trimmed);
    match FirstForbidden(lower, prefixes, 0)
    case Some(p) => Unsafe(ForbiddenReason(p))
    case None =>
      match WriteCheck(trimmed)
      case Some(f) => Unsafe(OutsideReason(f))
      case None =>
        if HasPrefix(lower, "cd ") && !CdAllowed(CdTarget(lower)) then Unsafe(CdReason(CdTarget(lower)))
        else Safe
  }

  /** The three rules, each stated outright */
  ghost predicate NoForbiddenPrefix(lower: string, prefixes: seq<string>) {
    forall k :: 0 <= k < |prefixes| ==> !HasPrefix(lower, prefixes[k])
  }

  ghost predicate WritesInside(trimmed: string) {
    WriteOp(trimmed) ==> forall k :: 0 <= k < |Fields(trimmed)| ==> !BlockedField(trimmed, Fields(trimmed)[k])
  }

  predicate CdInside(lower: string) {
    HasPrefix(lower, "cd ") ==> CdAllowed(CdTarget(lower))
  }

  /** A command is safe exactly when it passes all three rules */
  lemma CommandSafetyIff(cmd: string, prefixes: seq<string>)
    ensures CommandSafety(cmd, prefixes).Safe? <==>
      NoForbiddenPrefix(ToLower(TrimSpace(cmd)), prefixes) && WritesInside(TrimSpace(cmd)) &&
      CdInside(ToLower(TrimSpace(cmd)))
  {
    var trimmed := TrimSpace(cmd);
    FirstForbiddenSpec(ToLower(trimmed), prefixes, 0);
    WriteCheckSpec(trimmed);
  }

  lemma WriteCheckSpec(trimmed: string)
    ensures WriteCheck(trimmed).None? <==> WritesInside(trimmed)
  {
    FirstBlockedFieldSpec(trimmed, Fields(trimmed), 0);
  }

  /** Every rejection carries a non-empty reason */
  lemma UnsafeHasReason(cmd: string, prefixes: seq<string>)
    ensures CommandSafety(cmd, prefixes).Unsafe? ==>
      CommandSafety(cmd, prefixes).reason != "" && HasPrefix(CommandSafety(cmd, prefixes).reason, BlockedPrefix)
  {
    var trimmed := TrimSpace(cmd);
    var lower := ToLower(trimmed);
    match FirstForbidden(lower, prefixes, 0)
    case Some(p) =>
      assert CommandSafety(cmd, prefixes) == Unsafe(ForbiddenReason(p));
      BlockedReason("Starts with forbidden pattern '" + p + "'");
    case None =>
      match WriteCheck(trimmed)
      case Some(f) =>
        assert CommandSafety(cmd, prefixes) == Unsafe(OutsideReason(f));
        BlockedReason("Attempting file operation on '" + f + "' which is outside the allowed '" + DataDir + "' directory.");
      case None =>
        if HasPrefix(lower, "cd ") && !CdAllowed(CdTarget(lower)) {
          assert CommandSafety(cmd, prefixes) == Unsafe(CdReason(CdTarget(lower)));
          BlockedReason("'cd' is only allowed to '" + DataDir + "'. Attempted: '" + CdTarget(lower) + "'");
        }
  }

  lemma BlockedReason(rest: string)
    ensures HasPrefix(BlockedPrefix + rest, BlockedPrefix)
  {
  }

  /** A command starting with a listed prefix is rejected with that reason or an earlier one */
  lemma ForbiddenBlocked(cmd: string, prefixes: seq<string>, k: nat)
    requires k < |prefixes| && HasPrefix(ToLower(TrimSpace(cmd)), prefixes[k])
    ensures CommandSafety(cmd, prefixes).Unsafe?
  {
    FirstForbiddenSpec(ToLower(TrimSpace(cmd)), prefixes, 0);
  }

  /** A lower-cased command never holds an upper-case letter */
  lemma LowerHasNoUpper(s: string, p: string, k: nat)
    requires k < |p| && 'A' <= p[k] <= 'Z'
    ensures !HasPrefix(ToLower(s), p)
  {
  }

  /** As listed, `chmod -R 000 /` can never match, because the command is lower-cased first */
  lemma ChmodPrefixInert(cmd: string)
    ensures !HasPrefix(ToLower(TrimSpace(cmd)), ChmodPrefix)
  {
    var p := ChmodPrefix;
    assert p[7] == 'R';
    LowerHasNoUpper(TrimSpace(cmd), p, 7);
  }

  /** Likewise `chown -R ` */
  lemma ChownPrefixInert(cmd: string)
    ensures !HasPrefix(ToLower(TrimSpace(cmd)), ChownPrefix)
  {
    var p := ChownPrefix;
    assert p[7] == 'R';
    LowerHasNoUpper(TrimSpace(cmd), p, 7);
  }

  /** With the lower-cased list, any listed prefix in any letter case is rejected */
  lemma ForbiddenAnyCaseBlocked(cmd: string, k: nat)
    requires k < |ForbiddenAsWritten| && HasPrefix(ToLower(TrimSpace(cmd)), ToLower(ForbiddenAsWritten[k]))
    ensures CommandSafety(cmd, ForbiddenPrefixes).Unsafe?
  {
    ForbiddenBlocked(cmd, ForbiddenPrefixes, k);
  }

  /** A command starting with `chmod -R 000 /` in any letter case is rejected by the lower-cased list */
  lemma ChmodBlocked(cmd: string)
    requires HasPrefix(ToLower(TrimSpace(cmd)), ToLower(ChmodPrefix))
    ensures CommandSafety(cmd, ForbiddenPrefixes).Unsafe?
  {
    ChmodListed();
    ForbiddenAnyCaseBlocked(cmd, |CommandPrefixes|);
  }

  lemma ChmodListed()
    ensures |CommandPrefixes| < |ForbiddenAsWritten| && ForbiddenAsWritten[|CommandPrefixes|] == ChmodPrefix
  {
  }

  /** With the list as written, the very command the chmod entry names passes the filter */
  lemma ChmodRunsAsWritten(cmd: string)
    requires cmd == ChmodPrefix
    ensures CommandSafety(cmd, ForbiddenAsWritten).Safe?
  {
    ChmodSpelledSafe(cmd, ForbiddenAsWritten);
  }

  /** `chmod -R 000 /` spelled out character by character */
  predicate ChmodSpelled(cmd: string) {
    |cmd| == 14 && cmd[0] == 'c' && cmd[1] == 'h' && cmd[2] == 'm' && cmd[3] == 'o' && cmd[4] == 'd' &&
    cmd[5] == ' ' && cmd[6] == '-' && cmd[7] == 'R' && cmd[8] == ' ' && cmd[9] == '0' && cmd[10] == '0' &&
    cmd[11] == '0' && cmd[12] == ' ' && cmd[13] == '/'
  }

  lemma ChmodSpelledSafe(cmd: string, prefixes: seq<string>)
    requires ChmodSpelled(cmd) && prefixes == ForbiddenAsWritten
    ensures CommandSafety(cmd, prefixes).Safe?
  {
    ChmodTrim(cmd);
    ChmodLowerNotListed(cmd);
    ChmodNoWriteOp(cmd);
    SafeWhenRulesHold(cmd, prefixes);
  }

  lemma ChmodTrim(cmd: string)
    requires ChmodSpelled(cmd)
    ensures TrimSpace(cmd) == cmd
  {
    TrimSpaceOfUnspaced(cmd);
  }

  lemma SafeWhenRulesHold(cmd: string, prefixes: seq<string>)
    requires TrimSpace(cmd) == cmd && !WriteOp(cmd)
    requires NoForbiddenPrefix(ToLower(cmd), prefixes) && CdInside(ToLower(cmd))
    ensures CommandSafety(cmd, prefixes).Safe?
  {
    CommandSafetyIff(cmd, prefixes);
  }

  lemma ChmodLowerNotListed(cmd: string)
    requires ChmodSpelled(cmd)
    ensures NoForbiddenPrefix(ToLower(cmd), ForbiddenAsWritten) && CdInside(ToLower(cmd))
  {
    var lower := ToLower(cmd);
    assert lower[0] == 'c' && lower[1] == 'h' && lower[2] == 'm' && lower[7] == 'r';
    ChmodNoListedPrefix(lower);
  }

  lemma ChmodNoWriteOp(cmd: string)
    requires ChmodSpelled(cmd)
    ensures !WriteOp(cmd)
  {
    ContainsNeedsFirst(cmd, ">");
    ContainsNeedsFirst(cmd, "touch ");
    ContainsNeedsPair(cmd, "mkdir ");
    ContainsNeedsPair(cmd, "cp ");
    ContainsNeedsPair(cmd, "mv ");
  }

  /** No entry as written is a prefix of a command that starts `chm` and has a lower-case `r` at index 7 */
  lemma ChmodNoListedPrefix(lower: string)
    requires |lower| > 7 && lower[0] == 'c' && lower[2] == 'm' && lower[7] == 'r'
    ensures NoForbiddenPrefix(lower, ForbiddenAsWritten)
  {
    forall k | 0 <= k < |ForbiddenAsWritten| ensures !HasPrefix(lower, ForbiddenAsWritten[k]) {
      var p := ForbiddenAsWritten[k];
      if k == |CommandPrefixes| {
        assert p[7] == 'R';
      } else if k == |CommandPrefixes| + 1 {
        assert p[2] == 'o';
      } else {
        assert p != [] && p[0] != 'c';
      }
    }
  }

  /** `cd` to anywhere but the data directory, `.` or `..` is rejected */
  lemma CdOutsideBlocked(cmd: string, prefixes: seq<string>)
    requires HasPrefix(ToLower(TrimSpace(cmd)), "cd ") && !CdAllowed(CdTarget(ToLower(TrimSpace(cmd))))
    ensures CommandSafety(cmd, prefixes).Unsafe?
  {
  }

  /** A redirection onto an absolute path outside the data directory is rejected when there is no pipe */
  lemma RedirectOutsideBlocked(cmd: string, prefixes: seq<string>, k: nat)
    requires var t := TrimSpace(cmd);
      k < |Fields(t)| && HasPrefix(Fields(t)[k], "/") && !HasPrefix(Fields(t)[k], AllowedWritePrefix) &&
      Contains(t, " > " + Fields(t)[k]) && '|' !in t
    ensures CommandSafety(cmd, prefixes).Unsafe?
  {
    var t := TrimSpace(cmd);
    var f := Fields(t)[k];
    assert " " + ">" + (" " + f) == " > " + f;
    ContainsInner(t, " ", ">", " " + f);
    OneSegment(t);
    SlashField(f);
    assert BlockedField(t, f);
    WriteCheckSpec(t);
    WriteCheckBlocks(cmd, prefixes);
  }

  /** A field caught by the write check rejects the command */
  lemma WriteCheckBlocks(cmd: string, prefixes: seq<string>)
    requires WriteCheck(TrimSpace(cmd)).Some?
    ensures CommandSafety(cmd, prefixes).Unsafe?
  {
  }

  lemma SlashField(f: string)
    requires HasPrefix(f, "/")
    ensures Contains(f, "/") && f != ">" && f != ">>" && f != "|" && f != "&"
  {
    assert f[0] == '/';
    assert ">"[0] != '/' && ">>"[0] != '/' && "|"[0] != '/' && "&"[0] != '/';
  }

  /** Without `|` the command is a single pipe segment */
  lemma OneSegment(t: string)
    requires '|' !in t
    ensures |Split(t, '|')| == 1
  {
    var parts := Split(t, '|');
    if |parts| > 1 {
      JoinHasSep(parts, '|');
      assert false;
    }
  }

  lemma JoinHasSep(parts: seq<string>, sep: char)
    requires |parts| > 1
    ensures sep in Join(parts, [sep])
  {
    assert Join(parts, [sep]) == parts[0] + [sep] + Join(parts[1..], [sep]);
    assert Join(parts, [sep])[|parts[0]|] == sep;
  }

  /** A string containing a + b + c contains b */
  lemma {:induction false} ContainsInner(s: string, a: string, b: string, c: string)
    requires Contains(s, a + b + c)
    ensures Contains(s, b)
    decreases |s|
  {
    if a + b + c <= s {
      PrefixContains(s, a, b);
    } else {
      ContainsInner(s[1..], a, b, c);
    }
  }

  lemma {:induction false} PrefixContains(s: string, a: string, b: string)
    requires a + b <= s || a + b + [] <= s || exists c: string :: a + b + c <= s
    ensures Contains(s, b)
    decreases |a|
  {
    var c: string :| a + b + c <= s || c == [];
    if a == [] {
      assert b <= s by {
        if a + b + [] <= s || a + b <= s {
          assert a + b == b;
        }
      }
    } else {
      assert |s| > 0;
      PrefixContains(s[1..], a[1..], b);
    }
  }

  /** The filter as a loop over the prefixes and then over the fields */
  method IsCommandSafe(commandStr: string, prefixes: seq<string>) returns (safe: bool, reason: string)
    ensures (if safe then Safe else Unsafe(reason)) == CommandSafety(commandStr, prefixes)
  {
    var trimmedCmd := TrimSpace(commandStr);
    var lowerCmd := ToLower(trimmedCmd);
    var i := 0;
    while i < |prefixes|
      invariant 0 <= i <= |prefixes|
      invariant FirstForbidden(lowerCmd, prefixes, i) == FirstForbidden(lowerCmd, prefixes, 0)
    {
      if HasPrefix(lowerCmd, prefixes[i]) {
        return false, ForbiddenReason(prefixes[i]);
      }
      i := i + 1;
    }
    if WriteOp(trimmedCmd) {
      var bad := FieldLoop(trimmedCmd);
      if bad.Some? {
        return false, OutsideReason(bad.value);
      }
    }
    if HasPrefix(lowerCmd, "cd ") {
      var targetDir := TrimSpace(lowerCmd[3..]);
      if !CdAllowed(targetDir) {
        return false, CdReason(targetDir);
      }
    }
    return true, "";
  }

  method FieldLoop(trimmedCmd: string) returns (bad: Option<string>)
    ensures bad == FirstBlockedField(trimmedCmd, Fields(trimmedCmd), 0)
  {
    var fields := Fields(trimmedCmd);
    var j := 0;
    while j < |fields|
      invariant 0 <= j <= |fields|
      invariant FirstBlockedField(trimmedCmd, fields, j) == FirstBlockedField(trimmedCmd, fields, 0)
    {
      if BlockedField(trimmedCmd, fields[j]) {
        return Some(fields[j]);
      }
      j := j + 1;
    }
    return None;
  }

  // ---------------------------------------------------------------------
  // Steps and the dispatch of a reply

  datatype AgentState = Idle | Thinking | Executing | AwaitingStep | Finished | Blocked | Error

  /** The fields a step reads and writes */
  datatype Status = Status(state: AgentState, iteration: int, maxIterations: int, lastOutput: string, lastError: string)

  const MaxIterations: int := 20
  const LimitOutput := "Stopped: Reached maximum iteration limit."

  /** The synchronous part of Step */
  function StepOf(s: Status): Status {
    if s.state in {Finished, Blocked, Error, Thinking, Executing} then s
    else if s.iteration >= s.maxIterations then s.(state := Finished, lastOutput := LimitOutput)
    else s.(iteration := s.iteration + 1, lastError := "", state := Thinking)
  }

  /** Step does nothing unless the agent is idle or awaiting a step */
  lemma StepNoOp(s: Status)
    requires s.state != Idle && s.state != AwaitingStep
    ensures StepOf(s) == s
  {
  }

  /** At the iteration limit the agent finishes without counting another iteration */
  lemma StepAtLimit(s: Status)
    requires (s.state == Idle || s.state == AwaitingStep) && s.iteration >= s.maxIterations
    ensures StepOf(s).state == Finished && StepOf(s).iteration == s.iteration
    ensures StepOf(s).lastOutput == LimitOutput
  {
  }

  /** Below the limit a step counts one iteration, clears the error and starts thinking */
  lemma StepAdvances(s: Status)
    requires (s.state == Idle || s.state == AwaitingStep) && s.iteration < s.maxIterations
    ensures StepOf(s) == s.(iteration := s.iteration + 1, lastError := "", state := Thinking)
  {
  }

  /** Steps never push the iteration count past the limit */
  lemma StepKeepsBound(s: Status)
    requires 0 <= s.iteration <= s.maxIterations
    ensures 0 <= StepOf(s).iteration <= StepOf(s).maxIterations
    ensures StepOf(s).state == Thinking && s.state != Thinking ==> s.iteration < s.maxIterations
  {
  }

  /** What a reply asks for */
  datatype Action = FinalAnswer(answer: string) | EmptyCommand | Command(cmd: string) | InvalidFormat

  const FinalPrefix := "FINAL_ANSWER:"
  const CommandPrefix := "COMMAND:"

  function ParseAction(action: string): (r: Action)
    ensures r.FinalAnswer? <==> HasPrefix(action, FinalPrefix)
    ensures r.InvalidFormat? <==> !HasPrefix(action, FinalPrefix) && !HasPrefix(action, CommandPrefix)
    ensures r.Command? ==> r.cmd != "" && r.cmd == TrimSpace(action[|CommandPrefix|..])
  {
    if HasPrefix(action, FinalPrefix) then FinalAnswer(TrimSpace(action[|FinalPrefix|..]))
    else if HasPrefix(action, CommandPrefix) then
      var c := TrimSpace(action[|CommandPrefix|..]);
      if c == "" then EmptyCommand else Command(c)
    else InvalidFormat
  }

  /** executeInternal's answer: observation, finality, block reason, and the note added to history */
  datatype Outcome = Outcome(observation: string, isFinal: bool, blockReason: string, note: string)

  const EmptyCommandError := "Error: Empty command received."

  function InvalidFormatError(action: string): string {
    "Error: Invalid action format received from assistant: '" + action +
    "'. Please respond ONLY with 'COMMAND: <command>' or 'FINAL_ANSWER: <answer>'."
  }

  function BlockedNote(c: string, reason: string): string {
    "Command '" + c + "' was blocked by safety filter: " + reason +
    ". Propose a different, safe command within '" + DataDir + "'."
  }

  /** The outcome of a parsed reply; `run` is what running a safe command reports */
  function Dispatch(a: Action, action: string, run: string, prefixes: seq<string>): Outcome {
    match a
    case FinalAnswer(answer) =>
      Outcome(answer, true, "", "Result of action: Final Answer Provided\n" + answer)
    case EmptyCommand =>
      Outcome(EmptyCommandError, false, "", "Result of action: " + EmptyCommandError)
    case Command(c) =>
      (match CommandSafety(c, prefixes)
       case Unsafe(reason) =>
         Outcome("Command blocked by safety filter: " + reason, false, reason, BlockedNote(c, reason))
       case Safe =>
         Outcome(run, false, "", "Result of action '" + c + "':\n" + run))
    case InvalidFormat =>
      Outcome(InvalidFormatError(action), false, "", "Result of action: " + InvalidFormatError(action))
  }

  /** executeInternal's outcome for a reply */
  function Execute(action: string, run: string, prefixes: seq<string>): Outcome {
    Dispatch(ParseAction(action), action, run, prefixes)
  }

  lemma DispatchFlags(a: Action, action: string, run: string, prefixes: seq<string>)
    ensures Dispatch(a, action, run, prefixes).isFinal <==> a.FinalAnswer?
    ensures a.EmptyCommand? ==> Dispatch(a, action, run, prefixes).observation == EmptyCommandError
    ensures a.FinalAnswer? ==> Dispatch(a, action, run, prefixes).observation == a.answer
  {
  }

  lemma DispatchBlocks(a: Action, action: string, run: string, prefixes: seq<string>)
    ensures Dispatch(a, action, run, prefixes).blockReason != "" <==>
      a.Command? && CommandSafety(a.cmd, prefixes).Unsafe?
    ensures a.Command? && CommandSafety(a.cmd, prefixes).Safe? ==> Dispatch(a, action, run, prefixes).observation == run
  {
    match a
    case Command(c) => UnsafeHasReason(c, prefixes);
    case _ =>
  }

  /** Only a final answer is final; only an unsafe command is blocked; a safe command reports its run */
  lemma ExecuteDispatch(action: string, run: string, prefixes: seq<string>)
    ensures Execute(action, run, prefixes).isFinal <==> HasPrefix(action, FinalPrefix)
    ensures Execute(action, run, prefixes).blockReason != "" <==>
      ParseAction(action).Command? && CommandSafety(ParseAction(action).cmd, prefixes).Unsafe?
    ensures ParseAction(action).Command? && CommandSafety(ParseAction(action).cmd, prefixes).Safe? ==>
      Execute(action, run, prefixes).observation == run
    ensures HasPrefix(action, FinalPrefix) ==> Execute(action, run, prefixes).observation == TrimSpace(action[|FinalPrefix|..])
  {
    DispatchFlags(ParseAction(action), action, run, prefixes);
    DispatchBlocks(ParseAction(action), action, run, prefixes);
  }

  /** The state after executing: blocked, finished, or awaiting the next step */
  function Conclude(s: Status, o: Outcome): Status {
    if o.blockReason != "" then s.(state := Blocked, lastError := o.blockReason)
    else s.(lastOutput := o.observation, state := if o.isFinal then Finished else AwaitingStep)
  }

  lemma ConcludeStates(s: Status, action: string, run: string, prefixes: seq<string>)
    ensures var c := Conclude(s, Execute(action, run, prefixes));
      (c.state == Finished <==> HasPrefix(action, FinalPrefix)) &&
      (c.state == Blocked <==> ParseAction(action).Command? && CommandSafety(ParseAction(action).cmd, prefixes).Unsafe?) &&
      c.iteration == s.iteration && c.state != Thinking
  {
    ExecuteDispatch(action, run, prefixes);
  }

  class Agent {
    var history: seq<Message>
    var state: AgentState
    var iteration: int
    var maxIterations: int
    var lastOutput: string
    var lastError: string
    /** The filter's forbidden prefixes (a package variable of the agent) */
    var forbidden: seq<string>

    constructor()
      ensures history == [] && state == Idle && iteration == 0 && maxIterations == MaxIterations
      ensures lastOutput == "" && lastError == "" && forbidden == ForbiddenAsWritten
    {
      forbidden := ForbiddenAsWritten;
      history := [];
      state := Idle;
      iteration := 0;
      maxIterations := MaxIterations;
      lastOutput := "";
      lastError := "";
    }

    function Snapshot(): Status
      reads this
    {
      Status(state, iteration, maxIterations, lastOutput, lastError)
    }

    /** addToHistory: truncate to the word budget, then append */
    method AddToHistory(role: string, content: string)
      modifies this
      ensures history == Recorded(old(history), role, content)
      ensures Snapshot() == old(Snapshot()) && forbidden == old(forbidden)
    {
      var extra := Words(Message(role, content));
      var currentTokens := CountTokens(history);
      ghost var h0 := history;
      while currentTokens + extra > MaxHistoryTokens && |history| > 1
        invariant currentTokens == Tokens(history)
        invariant Truncate(history, extra) == Truncate(h0, extra)
        invariant Snapshot() == old(Snapshot()) && forbidden == old(forbidden)
        decreases |history|
      {
        if history[0].role == "system" && |history| > 2 {
          var removed := history[1];
          SkipSecond(history);
          history := [history[0]] + history[2..];
          currentTokens := currentTokens - Words(removed);
        } else if history[0].role != "system" {
          var removed := history[0];
          history := history[1..];
          currentTokens := currentTokens - Words(removed);
        } else {
          break;
        }
      }
      history := history + [Message(role, content)];
    }

    /** The word count, summed message by message */
    static method CountTokens(h: seq<Message>) returns (n: nat)
      ensures n == Tokens(h)
    {
      n := 0;
      var i := 0;
      while i < |h|
        invariant 0 <= i <= |h|
        invariant n == Tokens(h[..i])
      {
        assert h[..i + 1] == h[..i] + [h[i]];
        TokensAppend(h[..i], [h[i]]);
        assert [h[i]][1..] == [];
        n := n + Words(h[i]);
        i := i + 1;
      }
      assert h[..|h|] == h;
    }

    /** The synchronous part of Step; the thinking runs after it */
    method Step()
      modifies this
      ensures Snapshot() == StepOf(old(Snapshot())) && history == old(history) && forbidden == old(forbidden)
    {
      if state == Finished || state == Blocked || state == Error || state == Thinking || state == Executing {
        return;
      }
      if iteration >= maxIterations {
        state := Finished;
        lastOutput := LimitOutput;
        return;
      }
      iteration := iteration + 1;
      lastError := "";
      state := Thinking;
    }

    /** A failed call to the model: the agent stops in Error and records why */
    method ThinkingFailed(err: string)
      modifies this
      ensures state == Error && lastError == "Thinking error: " + err
      ensures iteration == old(iteration) && maxIterations == old(maxIterations) && lastOutput == old(lastOutput)
      ensures forbidden == old(forbidden)
      ensures history == Recorded(old(history), "system", ThinkingNote(err))
    {
      state := Error;
      lastError := "Thinking error: " + err;
      AddToHistory("system", ThinkingNote(err));
    }

    /** executeInternal with its history note */
    method ExecuteInternal(action: string, run: string) returns (observation: string, isFinal: bool, blockReason: string)
      modifies this
      ensures Outcome(observation, isFinal, blockReason, Execute(action, run, forbidden).note) == Execute(action, run, forbidden)
      ensures history == Recorded(old(history), "user", Execute(action, run, forbidden).note)
      ensures Snapshot() == old(Snapshot()) && forbidden == old(forbidden)
    {
      var o := Execute(action, run, forbidden);
      AddToHistory("user", o.note);
      return o.observation, o.isFinal, o.blockReason;
    }

    /** The reply is executed and the agent moves on according to the outcome */
    method ExecuteReply(action: string, run: string)
      modifies this
      ensures Snapshot() == Conclude(old(Snapshot()).(state := Executing), Execute(action, run, forbidden))
      ensures history == Recorded(old(history), "user", Execute(action, run, forbidden).note)
      ensures forbidden == old(forbidden)
    {
      state := Executing;
      var observation, isFinal, blockReason := ExecuteInternal(action, run);
      ApplyOutcome(observation, isFinal, blockReason, Execute(action, run, forbidden).note);
    }

    /** The state update that follows executeInternal */
    method ApplyOutcome(observation: string, isFinal: bool, blockReason: string, ghost note: string)
      modifies this
      ensures Snapshot() == Conclude(old(Snapshot()), Outcome(observation, isFinal, blockReason, note))
      ensures history == old(history) && forbidden == old(forbidden)
    {
      if blockReason != "" {
        state := Blocked;
        lastError := blockReason;
      } else {
        lastOutput := observation;
        if isFinal {
          state := Finished;
        } else {
          state := AwaitingStep;
        }
      }
    }
  }

  /** The history after addToHistory(role, content) */
  function Recorded(h: seq<Message>, role: string, content: string): seq<Message> {
    Truncate(h, Words(Message(role, content))) + [Message(role, content)]
  }

  function ThinkingNote(err: string): string {
    "System Error during thinking phase: " + err + ". Please analyze and proceed."
  }
}
