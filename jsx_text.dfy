/**
  String helpers of the JSX/TSX transpiler: JavaScript string escaping,
  splitting element text into literal and `{expression}` parts and turning
  those parts back into a JavaScript concatenation, title casing, the
  component-name tests and the fragment shorthand rewrite.
*/
module JsxText {
  import opened GoStrings

  // ---------------------------------------------------------------------
  // escapeJSString

  /** The escape sequence written for one character */
  function JsEscape(c: char): string {
    match c
    case '\n' => "\\n"
    case '\r' => "\\r"
    case '\t' => "\\t"
    case '\\' => "\\\\"
    case '\'' => "\\'"
    case '"' => "\\\""
    case _ => [c]
  }

  /** Every character escaped in turn */
  function EscapeJs(s: string): (r: string)
    ensures '\n' !in r && '\r' !in r && '\t' !in r
  {
    if s == [] then [] else JsEscape(s[0]) + EscapeJs(s[1..])
  }

  lemma {:induction false} EscapeJsAppend(a: string, b: string)
    ensures EscapeJs(a + b) == EscapeJs(a) + EscapeJs(b)
  {
    if a == [] {
      assert a + b == b;
    } else {
      assert (a + b)[1..] == a[1..] + b;
      EscapeJsAppend(a[1..], b);
    }
  }

  /** escapeJSString: a Builder loop over the runes */
  method EscapeJSString(s: string) returns (r: string)
    ensures r == EscapeJs(s)
  {
    r := "";
    var i := 0;
    while i < |s|
      invariant 0 <= i <= |s|
      invariant r == EscapeJs(s[..i])
    {
      EscapeJsAppend(s[..i], [s[i]]);
      assert s[..i + 1] == s[..i] + [s[i]];
      r := r + JsEscape(s[i]);
      i := i + 1;
    }
    assert s[..i] == s;
  }

  /** What a JavaScript string literal's body denotes */
  function UnescapeJs(s: string): string
    decreases |s|
  {
    if s == [] then []
    else if s[0] == '\\' && |s| >= 2 then
      [if s[1] == 'n' then '\n' else if s[1] == 'r' then '\r' else if s[1] == 't' then '\t' else s[1]]
      + UnescapeJs(s[2..])
    else [s[0]] + UnescapeJs(s[1..])
  }

  /** The escaped text, read back as a JavaScript literal, is the original */
  lemma {:induction false} UnescapeEscapeJs(s: string)
    ensures UnescapeJs(EscapeJs(s)) == s
  {
    if s != [] {
      UnescapeEscapeJs(s[1..]);
      var e := JsEscape(s[0]);
      var t := e + EscapeJs(s[1..]);
      if |e| == 2 {
        assert t[2..] == EscapeJs(s[1..]);
      } else {
        assert t[1..] == EscapeJs(s[1..]);
      }
    }
  }

  // ---------------------------------------------------------------------
  // isOnlyIndentation

  predicate IsIndent(c: char) { c == ' ' || c == '\t' || c == '\n' || c == '\r' }

  /** True exactly when every character is a space, tab, CR or LF (so also for "") */
  method IsOnlyIndentation(text: string) returns (b: bool)
    ensures b <==> forall i :: 0 <= i < |text| ==> IsIndent(text[i])
  {
    var i := 0;
    while i < |text|
      invariant 0 <= i <= |text|
      invariant forall j :: 0 <= j < i ==> IsIndent(text[j])
    {
      if !IsIndent(text[i]) {
        return false;
      }
      i := i + 1;
    }
    return true;
  }

  // ---------------------------------------------------------------------
  // parseTextInterpolation

  datatype TextPart = StringPart(value: string) | ExpressionPart(value: string)

  /** The first position at or after i that holds c, if any */
  function IndexFrom(text: string, c: char, i: nat): (r: Option<nat>)
    requires i <= |text|
    ensures r.Some? ==> i <= r.value < |text| && text[r.value] == c
    decreases |text| - i
  {
    if i == |text| then None
    else if text[i] == c then Some(i)
    else IndexFrom(text, c, i + 1)
  }

  /** Nothing between i and the position found holds c; when nothing is found, no position does */
  lemma {:induction false} IndexFromFirst(text: string, c: char, i: nat)
    requires i <= |text|
    ensures IndexFrom(text, c, i).Some? ==> c !in text[i..IndexFrom(text, c, i).value]
    ensures IndexFrom(text, c, i).None? ==> c !in text[i..]
    decreases |text| - i
  {
    if i < |text| && text[i] != c {
      IndexFromFirst(text, c, i + 1);
      var r := IndexFrom(text, c, i + 1);
      if r.Some? {
        assert text[i..r.value] == [text[i]] + text[i + 1..r.value];
      } else {
        assert text[i..] == [text[i]] + text[i + 1..];
      }
    }
  }

  /**
    The interpolation `\{([^}]+)\}` starting at p, given as the index of its
    closing brace: p holds `{` and the first `}` after it is not adjacent.
  */
  function CloseAt(text: string, p: nat): (q: Option<nat>)
    requires p < |text|
    ensures q.Some? ==> p + 2 <= q.value < |text| && text[p] == '{' && text[q.value] == '}'
  {
    if text[p] != '{' then None
    else match IndexFrom(text, '}', p + 1)
      case None => None
      case Some(k) => if k == p + 1 then None else Some(k)
  }

  /** The expression of an interpolation holds no `}` */
  lemma CloseAtFirst(text: string, p: nat)
    requires p < |text| && CloseAt(text, p).Some?
    ensures '}' !in text[p + 1..CloseAt(text, p).value]
  {
    IndexFromFirst(text, '}', p + 1);
  }

  /** The literal text between the previous interpolation and this one, if any */
  function Before(text: string, last: nat, pos: nat): seq<TextPart>
    requires last <= pos <= |text|
  {
    if pos > last then [StringPart(text[last..pos])] else []
  }

  /**
    The scan FindAll and the loop perform together: `pos` is where the next
    match is looked for, `last` the end of the previous one, `matched`
    whether there was any.
  */
  function Scan(text: string, pos: nat, last: nat, matched: bool, acc: seq<TextPart>): seq<TextPart>
    requires last <= pos <= |text|
    decreases |text| - pos
  {
    if pos == |text| then
      if last < |text| then acc + [StringPart(text[last..])]
      else if matched then acc + [StringPart("")]
      else acc
    else match CloseAt(text, pos)
      case Some(q) =>
        Scan(text, q + 1, q + 1, true, acc + Before(text, last, pos) + [ExpressionPart(text[pos + 1..q])])
      case None => Scan(text, pos + 1, last, matched, acc)
  }

  function Interpolate(text: string): seq<TextPart> {
    Scan(text, 0, 0, false, [])
  }

  /** parseTextInterpolation */
  method ParseTextInterpolation(text: string) returns (parts: seq<TextPart>)
    ensures parts == Interpolate(text)
  {
    parts := [];
    var lastIndex := 0;
    var pos := 0;
    var matched := false;
    while pos < |text|
      invariant lastIndex <= pos <= |text|
      invariant Scan(text, pos, lastIndex, matched, parts) == Interpolate(text)
      decreases |text| - pos
    {
      var close := CloseAt(text, pos);
      if close.Some? {
        var q := close.value;
        ghost var next := parts + Before(text, lastIndex, pos) + [ExpressionPart(text[pos + 1..q])];
        ScanMatch(text, pos, lastIndex, matched, parts, q);
        if pos > lastIndex {
          parts := parts + [StringPart(text[lastIndex..pos])];
        }
        parts := parts + [ExpressionPart(text[pos + 1..q])];
        assert parts == next;
        lastIndex := q + 1;
        pos := q + 1;
        matched := true;
      } else {
        ScanSkip(text, pos, lastIndex, matched, parts);
        pos := pos + 1;
      }
    }
    if lastIndex < |text| {
      parts := parts + [StringPart(text[lastIndex..])];
    } else if matched {
      parts := parts + [StringPart("")];
    }
  }

  /** Putting every expression back between braces */
  function Reassemble(parts: seq<TextPart>): string {
    if parts == [] then ""
    else
      var p := parts[|parts| - 1];
      Reassemble(parts[..|parts| - 1])
      + (if p.StringPart? then p.value else "{" + p.value + "}")
  }

  lemma ReassembleSnoc(parts: seq<TextPart>, p: TextPart)
    ensures Reassemble(parts + [p]) == Reassemble(parts) + (if p.StringPart? then p.value else "{" + p.value + "}")
  {
    assert (parts + [p])[..|parts|] == parts;
  }

  lemma ReassembleStep(text: string, last: nat, pos: nat, q: nat, acc: seq<TextPart>)
    requires last <= pos < q < |text| && text[pos] == '{' && text[q] == '}'
    requires Reassemble(acc) == text[..last]
    ensures Reassemble(acc + Before(text, last, pos) + [ExpressionPart(text[pos + 1..q])]) == text[..q + 1]
  {
    var acc1 := acc + Before(text, last, pos);
    ReassembleBefore(text, last, pos, acc);
    ReassembleSnoc(acc1, ExpressionPart(text[pos + 1..q]));
    BracedSlice(text, pos, q);
  }

  lemma ReassembleBefore(text: string, last: nat, pos: nat, acc: seq<TextPart>)
    requires last <= pos <= |text|
    requires Reassemble(acc) == text[..last]
    ensures Reassemble(acc + Before(text, last, pos)) == text[..pos]
  {
    if pos > last {
      ReassembleSnoc(acc, StringPart(text[last..pos]));
      assert text[..last] + text[last..pos] == text[..pos];
    } else {
      assert acc + Before(text, last, pos) == acc;
    }
  }

  lemma BracedSlice(text: string, pos: nat, q: nat)
    requires pos < q < |text| && text[pos] == '{' && text[q] == '}'
    ensures text[..pos] + ("{" + text[pos + 1..q] + "}") == text[..q + 1]
  {
    assert text[..q + 1] == text[..pos] + [text[pos]] + text[pos + 1..q] + [text[q]];
  }

  lemma ScanMatch(text: string, pos: nat, last: nat, matched: bool, acc: seq<TextPart>, q: nat)
    requires last <= pos < |text| && CloseAt(text, pos) == Some(q)
    ensures Scan(text, pos, last, matched, acc)
         == Scan(text, q + 1, q + 1, true, acc + Before(text, last, pos) + [ExpressionPart(text[pos + 1..q])])
  {
  }

  lemma ScanSkip(text: string, pos: nat, last: nat, matched: bool, acc: seq<TextPart>)
    requires last <= pos < |text| && CloseAt(text, pos).None?
    ensures Scan(text, pos, last, matched, acc) == Scan(text, pos + 1, last, matched, acc)
  {
  }

  lemma ReassembleEnd(text: string, last: nat, matched: bool, acc: seq<TextPart>)
    requires last <= |text|
    requires Reassemble(acc) == text[..last]
    ensures Reassemble(Scan(text, |text|, last, matched, acc)) == text
  {
    if last < |text| {
      ReassembleSnoc(acc, StringPart(text[last..]));
      assert text[..last] + text[last..] == text;
    } else if matched {
      ReassembleSnoc(acc, StringPart(""));
      assert text[..last] == text;
    } else {
      assert text[..last] == text;
    }
  }

  lemma ReassemblesSame(text: string, r: seq<TextPart>, r': seq<TextPart>)
    requires r == r' && Reassemble(r') == text
    ensures Reassemble(r) == text
  {
  }

  lemma {:induction false} ScanReassembles(text: string, pos: nat, last: nat, matched: bool, acc: seq<TextPart>)
    requires last <= pos <= |text|
    requires Reassemble(acc) == text[..last]
    ensures Reassemble(Scan(text, pos, last, matched, acc)) == text
    decreases |text| - pos, 1
  {
    if pos == |text| {
      ReassembleEnd(text, last, matched, acc);
    } else if CloseAt(text, pos).Some? {
      MatchReassembles(text, pos, last, matched, acc, CloseAt(text, pos).value);
    } else {
      ScanSkip(text, pos, last, matched, acc);
      ScanReassembles(text, pos + 1, last, matched, acc);
      ReassemblesSame(text, Scan(text, pos, last, matched, acc), Scan(text, pos + 1, last, matched, acc));
    }
  }

  lemma {:induction false} MatchReassembles(text: string, pos: nat, last: nat, matched: bool, acc: seq<TextPart>, q: nat)
    requires last <= pos < |text| && CloseAt(text, pos) == Some(q)
    requires Reassemble(acc) == text[..last]
    ensures Reassemble(Scan(text, pos, last, matched, acc)) == text
    decreases |text| - pos, 0
  {
    var next := acc + Before(text, last, pos) + [ExpressionPart(text[pos + 1..q])];
    assert Reassemble(next) == text[..q + 1] by {
      ReassembleStep(text, last, pos, q, acc);
    }
    assert Scan(text, pos, last, matched, acc) == Scan(text, q + 1, q + 1, true, next) by {
      ScanMatch(text, pos, last, matched, acc, q);
    }
    ScanReassembles(text, q + 1, q + 1, true, next);
    ReassemblesSame(text, Scan(text, pos, last, matched, acc), Scan(text, q + 1, q + 1, true, next));
  }

  /** The parts are the text in order: putting each expression back in braces gives the text */
  lemma InterpolateReassembles(text: string)
    ensures Reassemble(Interpolate(text)) == text
  {
    ScanReassembles(text, 0, 0, false, []);
  }

  /** Every part but a final literal is non-empty, and no expression holds `}` */
  predicate WellFormedParts(parts: seq<TextPart>) {
    forall i :: 0 <= i < |parts| ==> parts[i].value != "" && (parts[i].ExpressionPart? ==> '}' !in parts[i].value)
  }

  lemma WellFormedStep(text: string, last: nat, pos: nat, q: nat, acc: seq<TextPart>)
    requires last <= pos < |text| && CloseAt(text, pos) == Some(q)
    requires WellFormedParts(acc)
    ensures WellFormedParts(acc + Before(text, last, pos) + [ExpressionPart(text[pos + 1..q])])
  {
    CloseAtFirst(text, pos);
  }

  /** What InterpolateShape states about the parts of a text */
  predicate Shaped(text: string, r: seq<TextPart>) {
    (|r| > 0 ==> WellFormedParts(r[..|r| - 1])) && (text != "" ==> |r| > 0 && r[|r| - 1].StringPart?)
  }

  lemma ShapedSame(text: string, r: seq<TextPart>, r': seq<TextPart>)
    requires r == r' && Shaped(text, r')
    ensures Shaped(text, r)
  {
  }

  lemma WellFormedEnd(text: string, last: nat, matched: bool, acc: seq<TextPart>)
    requires last <= |text|
    requires WellFormedParts(acc)
    requires matched || last == 0
    ensures Shaped(text, Scan(text, |text|, last, matched, acc))
  {
    var r := Scan(text, |text|, last, matched, acc);
    if last < |text| {
      assert r == acc + [StringPart(text[last..])];
      assert r[..|r| - 1] == acc;
    } else if matched {
      assert r == acc + [StringPart("")];
      assert r[..|r| - 1] == acc;
    } else {
      assert text == "" && r == acc;
    }
  }

  lemma {:induction false} ScanWellFormed(text: string, pos: nat, last: nat, matched: bool, acc: seq<TextPart>)
    requires last <= pos <= |text|
    requires WellFormedParts(acc)
    requires matched || last == 0
    ensures Shaped(text, Scan(text, pos, last, matched, acc))
    decreases |text| - pos
  {
    if pos == |text| {
      WellFormedEnd(text, last, matched, acc);
    } else {
      var c := CloseAt(text, pos);
      if c.Some? {
        var q := c.value;
        var next := acc + Before(text, last, pos) + [ExpressionPart(text[pos + 1..q])];
        WellFormedStep(text, last, pos, q, acc);
        ScanWellFormed(text, q + 1, q + 1, true, next);
        ScanMatch(text, pos, last, matched, acc, q);
        ShapedSame(text, Scan(text, pos, last, matched, acc), Scan(text, q + 1, q + 1, true, next));
      } else {
        ScanWellFormed(text, pos + 1, last, matched, acc);
        ScanSkip(text, pos, last, matched, acc);
        ShapedSame(text, Scan(text, pos, last, matched, acc), Scan(text, pos + 1, last, matched, acc));
      }
    }
  }

  /**
    A non-empty text always ends with a literal part (the empty literal
    when it ends in an interpolation), and every earlier part is non-empty;
    an expression is the non-empty text between the braces.
  */
  lemma InterpolateShape(text: string)
    ensures var r := Interpolate(text);
      (text == "" <==> r == [])
      && (text != "" ==> r[|r| - 1].StringPart? && WellFormedParts(r[..|r| - 1]))
      && forall i :: 0 <= i < |r| && r[i].ExpressionPart? ==> r[i].value != "" && '}' !in r[i].value
  {
    ScanWellFormed(text, 0, 0, false, []);
    var r := Interpolate(text);
    if text != "" {
      forall i | 0 <= i < |r| && r[i].ExpressionPart? ensures r[i].value != "" && '}' !in r[i].value {
        assert i < |r| - 1;
        assert r[..|r| - 1][i] == r[i];
      }
    }
  }

  lemma {:induction false} ScanNoBraces(text: string, pos: nat)
    requires 0 <= pos <= |text| && '{' !in text
    ensures Scan(text, pos, 0, false, []) == if text == "" then [] else [StringPart(text)]
    decreases |text| - pos
  {
    if pos < |text| {
      ScanNoBraces(text, pos + 1);
    } else {
      assert text[0..] == text;
    }
  }

  /**
    Text without braces is one literal part; the closing check of
    parseTextInterpolation, for texts that produced no part, can therefore
    never add one: only "" yields no parts.
  */
  lemma InterpolateWithoutBraces(text: string)
    requires '{' !in text
    ensures Interpolate(text) == if text == "" then [] else [StringPart(text)]
  {
    ScanNoBraces(text, 0);
  }

  /** Text ending in an interpolation gets a trailing empty literal */
  lemma InterpolateExample()
    ensures Interpolate("{a}") == [ExpressionPart("a"), StringPart("")]
  {
    var u := "{a}";
    assert CloseAt(u, 0) == Some(2) by {
      assert IndexFrom(u, '}', 1) == Some(2);
    }
    assert Scan(u, 0, 0, false, []) == Scan(u, 3, 3, true, [ExpressionPart("a")]) by {
      assert Before(u, 0, 0) == [];
      assert u[1..2] == "a";
    }
  }

  // ---------------------------------------------------------------------
  // buildTextConcatenation

  /** One part inside a concatenation: a quoted literal or a parenthesised expression */
  function Piece(p: TextPart): string {
    if p.StringPart? then "'" + EscapeJs(p.value) + "'" else "(" + p.value + ")"
  }

  function Pieces(parts: seq<TextPart>): (r: seq<string>)
    ensures |r| == |parts| && forall i :: 0 <= i < |parts| ==> r[i] == Piece(parts[i])
  {
    if parts == [] then [] else [Piece(parts[0])] + Pieces(parts[1..])
  }

  /**
    The JavaScript expression for a list of parts: nothing for no parts, a
    lone literal quoted, a lone expression bare, otherwise every piece
    joined with ` + `.
  */
  function Concatenation(parts: seq<TextPart>): string {
    if parts == [] then ""
    else if |parts| == 1 then
      if parts[0].StringPart? then "'" + EscapeJs(parts[0].value) + "'" else parts[0].value
    else Join(Pieces(parts), " + ")
  }

  /** buildTextConcatenation: a Builder loop over the parts */
  method BuildTextConcatenation(parts: seq<TextPart>) returns (r: string)
    ensures r == Concatenation(parts)
  {
    if |parts| == 0 {
      return "";
    }
    if |parts| == 1 {
      if parts[0].StringPart? {
        var e := EscapeJSString(parts[0].value);
        return "'" + e + "'";
      } else {
        return parts[0].value;
      }
    }
    r := JoinPieces(parts);
  }

  /** The loop of buildTextConcatenation for two or more parts */
  method JoinPieces(parts: seq<TextPart>) returns (r: string)
    ensures r == Join(Pieces(parts), " + ")
  {
    r := "";
    var i := 0;
    while i < |parts|
      invariant 0 <= i <= |parts|
      invariant r == Join(Pieces(parts[..i]), " + ")
    {
      var piece: string;
      if parts[i].StringPart? {
        var e := EscapeJSString(parts[i].value);
        piece := "'" + e + "'";
      } else {
        piece := "(" + parts[i].value + ")";
      }
      PiecesSnoc(parts, i);
      if i > 0 {
        r := r + " + ";
      }
      r := r + piece;
      i := i + 1;
    }
    assert parts[..i] == parts;
  }

  lemma PiecesSnoc(parts: seq<TextPart>, i: nat)
    requires i < |parts|
    ensures Join(Pieces(parts[..i + 1]), " + ") ==
      if i == 0 then Piece(parts[i]) else Join(Pieces(parts[..i]), " + ") + " + " + Piece(parts[i])
  {
    assert Pieces(parts[..i + 1]) == Pieces(parts[..i]) + [Piece(parts[i])];
    JoinAppend(Pieces(parts[..i]), Piece(parts[i]), " + ");
  }

  /** A text without braces becomes one quoted literal that denotes the text */
  lemma PlainTextConcatenation(text: string)
    requires '{' !in text && text != ""
    ensures Concatenation(Interpolate(text)) == "'" + EscapeJs(text) + "'"
    ensures UnescapeJs(EscapeJs(text)) == text
  {
    InterpolateWithoutBraces(text);
    UnescapeEscapeJs(text);
  }

  /** The first `c` at or after i is found where it stands */
  lemma {:induction false} IndexFromAt(text: string, c: char, i: nat, k: nat)
    requires i <= k < |text| && text[k] == c && forall j :: i <= j < k ==> text[j] != c
    ensures IndexFrom(text, c, i) == Some(k)
    decreases k - i
  {
    if i < k {
      IndexFromAt(text, c, i + 1, k);
    }
  }

  /** A stretch without `{` is skipped by the scan */
  lemma {:induction false} ScanPlainRun(text: string, pos: nat, stop: nat, last: nat, matched: bool, acc: seq<TextPart>)
    requires last <= pos <= stop <= |text|
    requires forall i :: pos <= i < stop ==> text[i] != '{'
    ensures Scan(text, pos, last, matched, acc) == Scan(text, stop, last, matched, acc)
    decreases stop - pos
  {
    if pos < stop {
      ScanSkip(text, pos, last, matched, acc);
      ScanPlainRun(text, pos + 1, stop, last, matched, acc);
    }
  }

  /** `a{e}b` splits into the literal a, the expression e and the literal b */
  lemma InterpolateOne(a: string, e: string, b: string)
    requires a != "" && '{' !in a && '{' !in b && e != "" && '}' !in e
    ensures Interpolate(a + "{" + e + "}" + b) == [StringPart(a), ExpressionPart(e), StringPart(b)]
  {
    var t := a + "{" + e + "}" + b;
    var p := |a|;
    var q := |a| + 1 + |e|;
    assert t[..p] == a && t[p + 1..q] == e && t[q + 1..] == b;
    forall i | 0 <= i < p ensures t[i] != '{' {
      assert t[i] == a[i];
    }
    forall i | q + 1 <= i < |t| ensures t[i] != '{' {
      assert t[i] == b[i - q - 1];
    }
    OneClose(t, a, e, b);
    OneHead(t, p, q);
    OneTail(t, q + 1, [StringPart(a), ExpressionPart(e)]);
  }

  lemma OneClose(t: string, a: string, e: string, b: string)
    requires t == a + "{" + e + "}" + b && e != "" && '}' !in e
    ensures CloseAt(t, |a|) == Some(|a| + 1 + |e|)
  {
    var p := |a|;
    var q := |a| + 1 + |e|;
    assert t[p] == '{' && t[q] == '}';
    forall j | p + 1 <= j < q ensures t[j] != '}' {
      assert t[j] == e[j - p - 1];
    }
    IndexFromAt(t, '}', p + 1, q);
  }

  /** A plain run, then a well-formed interpolation: the scan resumes after it */
  lemma OneHead(t: string, p: nat, q: nat)
    requires 0 < p < q < |t| && CloseAt(t, p) == Some(q)
    requires forall i :: 0 <= i < p ==> t[i] != '{'
    ensures Scan(t, 0, 0, false, [])
         == Scan(t, q + 1, q + 1, true, [StringPart(t[..p]), ExpressionPart(t[p + 1..q])])
  {
    ScanPlainRun(t, 0, p, 0, false, []);
    ScanMatch(t, p, 0, false, [], q);
    assert [] + Before(t, 0, p) + [ExpressionPart(t[p + 1..q])]
        == [StringPart(t[..p]), ExpressionPart(t[p + 1..q])];
  }

  /** A plain run to the end closes the scan with that run */
  lemma OneTail(t: string, r: nat, acc: seq<TextPart>)
    requires r <= |t| && forall i :: r <= i < |t| ==> t[i] != '{'
    ensures Scan(t, r, r, true, acc) == acc + [StringPart(t[r..])]
  {
    ScanPlainRun(t, r, |t|, r, true, acc);
    if r == |t| {
      assert t[r..] == "";
    }
    assert Scan(t, |t|, r, true, acc) == acc + [StringPart(t[r..])];
  }

  lemma JoinThree(x: string, y: string, z: string, sep: string)
    ensures Join([x, y, z], sep) == x + sep + y + sep + z
  {
    assert [x, y, z][1..] == [y, z] && [y, z][1..] == [z];
    assert Join([y, z], sep) == y + sep + z;
    assert x + sep + (y + sep + z) == x + sep + y + sep + z;
  }

  /** A literal, an expression and a literal become their pieces joined with ` + ` */
  lemma ConcatenationThree(x: string, y: string, z: string)
    ensures Concatenation([StringPart(x), ExpressionPart(y), StringPart(z)])
         == ("'" + EscapeJs(x) + "'") + " + " + ("(" + y + ")") + " + " + ("'" + EscapeJs(z) + "'")
  {
    var parts := [StringPart(x), ExpressionPart(y), StringPart(z)];
    assert Pieces(parts) == [Piece(parts[0]), Piece(parts[1]), Piece(parts[2])];
    JoinThree(Piece(parts[0]), Piece(parts[1]), Piece(parts[2]), " + ");
  }

  /** One interpolation becomes the quoted literal, the parenthesised expression and the quoted rest */
  lemma ConcatenationOneInterpolation(a: string, e: string, b: string)
    requires a != "" && '{' !in a && '{' !in b && e != "" && '}' !in e
    ensures Concatenation(Interpolate(a + "{" + e + "}" + b))
         == ("'" + EscapeJs(a) + "'") + " + " + ("(" + e + ")") + " + " + ("'" + EscapeJs(b) + "'")
  {
    InterpolateOne(a, e, b);
    ConcatenationThree(a, e, b);
  }

  // ---------------------------------------------------------------------
  // getTitleCase

  /**
    regexp `\W+` Split(s, -1): the pieces between maximal runs of non-word
    characters, with an empty piece where s starts or ends with one.
  */
  function SplitNonWord(s: string): (r: seq<string>)
    ensures |r| > 0
    ensures forall i :: 0 <= i < |r| ==> AllWordChars(r[i])
    ensures s != [] && !IsWordChar(s[|s| - 1]) ==> r[|r| - 1] == ""
  {
    if s == [] then [""]
    else
      var init := s[..|s| - 1];
      var c := s[|s| - 1];
      var r0 := SplitNonWord(init);
      if IsWordChar(c) then r0[..|r0| - 1] + [r0[|r0| - 1] + [c]]
      else if init != [] && !IsWordChar(init[|init| - 1]) then r0
      else r0 + [""]
  }

  /** The first byte upper-cased; the pieces are ASCII word characters */
  function Capitalize(w: string): (r: string)
    requires w != []
    ensures |r| == |w| && r[0] == UpperChar(w[0]) && r[1..] == w[1..]
  {
    [UpperChar(w[0])] + w[1..]
  }

  /** The loop over the pieces: empty pieces skipped, the others capitalised */
  function CapitalizeNonEmpty(parts: seq<string>): seq<string> {
    if parts == [] then []
    else
      var last := parts[|parts| - 1];
      CapitalizeNonEmpty(parts[..|parts| - 1]) + (if last == "" then [] else [Capitalize(last)])
  }

  function TitleCase(s: string): string {
    var t := TrimSpace(s);
    if t == "" then "" else Join(CapitalizeNonEmpty(SplitNonWord(t)), " ")
  }

  /** getTitleCase */
  method GetTitleCase(s: string) returns (r: string)
    ensures r == TitleCase(s)
  {
    var t := TrimSpace(s);
    if t == "" {
      return "";
    }
    var parts := SplitNonWord(t);
    var capitalized := CapitalizeParts(parts);
    r := Join(capitalized, " ");
  }

  /** The loop of getTitleCase over the pieces */
  method CapitalizeParts(parts: seq<string>) returns (capitalized: seq<string>)
    ensures capitalized == CapitalizeNonEmpty(parts)
  {
    capitalized := [];
    var i := 0;
    while i < |parts|
      invariant 0 <= i <= |parts|
      invariant capitalized == CapitalizeNonEmpty(parts[..i])
    {
      assert parts[..i + 1][..i] == parts[..i];
      if parts[i] != "" {
        capitalized := capitalized + [Capitalize(parts[i])];
      }
      i := i + 1;
    }
    assert parts[..i] == parts;
  }

  /** A word whose first character is already upper case (or not a letter) */
  predicate IsTitleWord(w: string) {
    w != [] && AllWordChars(w) && UpperChar(w[0]) == w[0]
  }

  lemma {:induction false} CapitalizeNonEmptyWords(parts: seq<string>)
    requires forall i :: 0 <= i < |parts| ==> AllWordChars(parts[i])
    ensures forall i :: 0 <= i < |CapitalizeNonEmpty(parts)| ==> IsTitleWord(CapitalizeNonEmpty(parts)[i])
  {
    if parts != [] {
      CapitalizeNonEmptyWords(parts[..|parts| - 1]);
      var last := parts[|parts| - 1];
      if last != "" {
        var c := Capitalize(last);
        assert AllWordChars(c) by {
          forall i | 0 <= i < |c| ensures IsWordChar(c[i]) {
            if i > 0 { assert c[i] == last[i]; }
          }
        }
      }
    }
  }

  function TitleWords(s: string): seq<string> {
    CapitalizeNonEmpty(SplitNonWord(TrimSpace(s)))
  }

  /** The title-cased words: non-empty, word characters only, each starting upper case */
  lemma TitleCaseWords(s: string)
    ensures forall i :: 0 <= i < |TitleWords(s)| ==> IsTitleWord(TitleWords(s)[i])
    ensures TitleCase(s) == if TrimSpace(s) == "" then "" else Join(TitleWords(s), " ")
  {
    CapitalizeNonEmptyWords(SplitNonWord(TrimSpace(s)));
  }

  lemma {:induction false} SplitNonWordAppendWord(x: string, w: string)
    requires AllWordChars(w)
    ensures var r := SplitNonWord(x);
      SplitNonWord(x + w) == r[..|r| - 1] + [r[|r| - 1] + w]
    decreases |w|
  {
    var r := SplitNonWord(x);
    if w == [] {
      assert x + w == x;
      assert r[|r| - 1] + w == r[|r| - 1];
      assert r[..|r| - 1] + [r[|r| - 1]] == r;
    } else {
      var w0 := w[..|w| - 1];
      SplitNonWordAppendWord(x, w0);
      assert (x + w)[..|x + w| - 1] == x + w0;
      assert r[|r| - 1] + w0 + [w[|w| - 1]] == r[|r| - 1] + w;
    }
  }

  lemma SplitNonWordAppendSpace(x: string)
    requires x != [] && IsWordChar(x[|x| - 1])
    ensures SplitNonWord(x + " ") == SplitNonWord(x) + [""]
  {
    assert (x + " ")[..|x|] == x;
  }

  lemma {:induction false} SplitNonWordOfJoin(ws: seq<string>)
    requires ws != [] && forall i :: 0 <= i < |ws| ==> ws[i] != [] && AllWordChars(ws[i])
    ensures SplitNonWord(Join(ws, " ")) == ws
    decreases |ws|
  {
    var n := |ws| - 1;
    if n == 0 {
      SplitNonWordAppendWord("", ws[0]);
      assert "" + ws[0] == ws[0];
    } else {
      var init := ws[..n];
      assert init + [ws[n]] == ws;
      JoinAppend(init, ws[n], " ");
      var x := Join(init, " ");
      SplitNonWordOfJoin(init);
      JoinEndsWithWord(init);
      SplitNonWordAppendSpace(x);
      SplitNonWordAppendWord(x + " ", ws[n]);
      assert x + " " + ws[n] == Join(ws, " ");
      var r := SplitNonWord(x + " ");
      assert r == init + [""];
      assert r[..|r| - 1] == init && r[|r| - 1] + ws[n] == ws[n];
      assert SplitNonWord(x + " " + ws[n]) == init + [ws[n]];
    }
  }

  lemma {:induction false} JoinEndsWithWord(ws: seq<string>)
    requires ws != [] && forall i :: 0 <= i < |ws| ==> ws[i] != [] && AllWordChars(ws[i])
    ensures var j := Join(ws, " "); j != [] && IsWordChar(j[|j| - 1]) && IsWordChar(j[0])
    decreases |ws|
  {
    if |ws| > 1 {
      JoinEndsWithWord(ws[1..]);
    }
  }

  lemma {:induction false} CapitalizeNonEmptyFixed(ws: seq<string>)
    requires forall i :: 0 <= i < |ws| ==> IsTitleWord(ws[i])
    ensures CapitalizeNonEmpty(ws) == ws
  {
    if ws != [] {
      CapitalizeNonEmptyFixed(ws[..|ws| - 1]);
      var last := ws[|ws| - 1];
      assert Capitalize(last) == last by {
        assert [last[0]] + last[1..] == last;
      }
      assert ws[..|ws| - 1] + [last] == ws;
    }
  }

  lemma WordCharNotSpace(c: char)
    requires IsWordChar(c)
    ensures !IsSpace(c)
  {
  }

  /** Title-cased words joined by single spaces are already title cased */
  lemma TitleCaseOfTitleWords(ws: seq<string>)
    requires ws != [] && forall i :: 0 <= i < |ws| ==> IsTitleWord(ws[i])
    ensures TitleCase(Join(ws, " ")) == Join(ws, " ")
  {
    var r := Join(ws, " ");
    JoinEndsWithWord(ws);
    WordCharNotSpace(r[0]);
    WordCharNotSpace(r[|r| - 1]);
    TrimSpaceOfUnspaced(r);
    assert TrimSpace(r) == r;
    SplitNonWordOfJoin(ws);
    CapitalizeNonEmptyFixed(ws);
    assert CapitalizeNonEmpty(SplitNonWord(r)) == ws;
  }

  /** Title casing a title-cased string changes nothing */
  lemma TitleCaseIdempotent(s: string)
    ensures TitleCase(TitleCase(s)) == TitleCase(s)
  {
    TitleCaseWords(s);
    var r := TitleCase(s);
    var ws := TitleWords(s);
    if r != "" {
      assert ws != [];
      assert r == Join(ws, " ");
      TitleCaseOfTitleWords(ws);
    }
  }

  // ---------------------------------------------------------------------
  // Component names

  /** isCustomReactComponent: the name starts with an ASCII capital */
  predicate IsCustomReactComponent(name: string) {
    |name| > 0 && 'A' <= name[0] <= 'Z'
  }

  /** A title-cased name starting with a letter is a component name */
  lemma TitleCaseMakesComponent(s: string)
    requires var t := TitleCase(s); t != "" && (('a' <= t[0] <= 'z') || ('A' <= t[0] <= 'Z'))
    ensures IsCustomReactComponent(TitleCase(s))
  {
    TitleCaseWords(s);
    var ws := TitleWords(s);
    assert ws != [];
    JoinFirst(ws, " ");
  }

  lemma JoinFirst(ws: seq<string>, sep: string)
    requires ws != [] && ws[0] != []
    ensures Join(ws, sep) != [] && Join(ws, sep)[0] == ws[0][0]
  {
  }

  /** The longest prefix of word characters */
  function WordPrefix(s: string): (w: string)
    ensures w <= s && AllWordChars(w)
    ensures |w| < |s| ==> !IsWordChar(s[|w|])
  {
    if s == [] || !IsWordChar(s[0]) then [] else [s[0]] + WordPrefix(s[1..])
  }

  /** The length of the leading run of `\s` characters */
  function SpaceRun(s: string): (k: nat)
    ensures k <= |s| && forall i :: 0 <= i < k ==> IsReSpace(s[i])
    ensures k < |s| ==> !IsReSpace(s[k])
  {
    if s == [] || !IsReSpace(s[0]) then 0 else 1 + SpaceRun(s[1..])
  }

  /** `lit(\w+)\s*\(` matched at position p, giving the captured name */
  function DeclAt(s: string, p: nat, lit: string): (r: Option<string>)
    requires p <= |s|
    ensures r.Some? ==> r.value != [] && AllWordChars(r.value)
  {
    if !(lit <= s[p..]) then None
    else
      var rest := s[p + |lit|..];
      var w := WordPrefix(rest);
      var after := rest[|w|..];
      var k := SpaceRun(after);
      if w != [] && k < |after| && after[k] == '(' then Some(w) else None
  }

  /** The leftmost match at or after p (FindStringSubmatch) */
  function FindDecl(s: string, p: nat, lit: string): (r: Option<string>)
    requires p <= |s|
    ensures r.Some? ==> r.value != [] && AllWordChars(r.value)
    decreases |s| - p
  {
    match DeclAt(s, p, lit)
    case Some(w) => Some(w)
    case None => if p == |s| then None else FindDecl(s, p + 1, lit)
  }

  const ExportDecl := "export default function "
  const FunctionDecl := "function "

  /** extractComponentNameFromTSX */
  function ExtractComponentName(tsx: string): (r: string)
    ensures r == "Component" || (r != [] && AllWordChars(r))
  {
    match FindDecl(tsx, 0, ExportDecl)
    case Some(w) => w
    case None =>
      match FindDecl(tsx, 0, FunctionDecl)
      case Some(w) => w
      case None => "Component"
  }

  /** A file that begins with `export default function Name(` yields Name */
  lemma ExtractFromExportDefault(name: string, rest: string)
    requires name != [] && AllWordChars(name)
    ensures ExtractComponentName(ExportDecl + name + "(" + rest) == name
  {
    var s := ExportDecl + name + "(" + rest;
    assert s[0..] == s;
    assert ExportDecl <= s;
    var r := s[|ExportDecl|..];
    assert r == name + "(" + rest;
    assert WordPrefix(r) == name by {
      WordPrefixOf(name, "(" + rest);
      assert name + ("(" + rest) == r;
    }
    assert r[|name|..] == "(" + rest;
  }

  lemma {:induction false} WordPrefixOf(w: string, tail: string)
    requires AllWordChars(w)
    requires tail == [] || !IsWordChar(tail[0])
    ensures WordPrefix(w + tail) == w
    decreases |w|
  {
    if w != [] {
      assert (w + tail)[1..] == w[1..] + tail;
      WordPrefixOf(w[1..], tail);
    } else {
      assert w + tail == tail;
    }
  }

  lemma {:induction false} FindDeclNeedsParen(s: string, p: nat, lit: string)
    requires p <= |s| && '(' !in s
    ensures FindDecl(s, p, lit) == None
    decreases |s| - p
  {
    if lit <= s[p..] {
      var rest := s[p + |lit|..];
      var w := WordPrefix(rest);
      var after := rest[|w|..];
      var k := SpaceRun(after);
      if k < |after| {
        assert after[k] == s[p + |lit| + |w| + k];
      }
    }
    if p < |s| {
      FindDeclNeedsParen(s, p + 1, lit);
    }
  }

  /** Without any `(` there is no declaration to find, and the name falls back to "Component" */
  lemma ExtractFallback(tsx: string)
    requires '(' !in tsx
    ensures ExtractComponentName(tsx) == "Component"
  {
    FindDeclNeedsParen(tsx, 0, ExportDecl);
    FindDeclNeedsParen(tsx, 0, FunctionDecl);
  }

  // ---------------------------------------------------------------------
  // handleReactFragments

  const FragmentOpen := "<React.Fragment>"
  const FragmentClose := "</React.Fragment>"

  /** handleReactFragments: `<>` then `</>` replaced everywhere */
  function HandleReactFragments(jsx: string): string {
    ReplaceAll(ReplaceAll(jsx, "<>", FragmentOpen), "</>", FragmentClose)
  }

  lemma FragmentPatternsUnbordered()
    ensures Unbordered("<>") && Unbordered("</>")
  {
    forall k | 0 < k < 2 ensures "<>"[k..] != "<>"[..2 - k] {
      assert "<>"[k..][0] == '>';
    }
    forall k | 0 < k < 3 ensures "</>"[k..] != "</>"[..3 - k] {
      assert "</>"[..3 - k][0] == '<';
      assert "</>"[k..][0] != '<';
    }
  }

  lemma ReplaceAllOfEmpty(pat: string, rep: string)
    requires pat != []
    ensures ReplaceAll("", pat, rep) == ""
  {
  }

  /** First pass: only the leading `<>` is rewritten, since the closer holds none */
  lemma FragmentFirstPass(inner: string)
    ensures ReplaceAll("<>" + inner + "</>", "<>", FragmentOpen)
         == FragmentOpen + ReplaceAll(inner, "<>", FragmentOpen) + "</>"
  {
    FragmentOpener(inner);
    FragmentCloserKept(inner);
  }

  /** The leading `<>` is the first match */
  lemma FragmentOpener(inner: string)
    ensures ReplaceAll("<>" + inner + "</>", "<>", FragmentOpen)
         == FragmentOpen + ReplaceAll(inner + "</>", "<>", FragmentOpen)
  {
    FragmentPatternsUnbordered();
    ReplaceAllAround("", inner + "</>", "<>", FragmentOpen);
    assert "" + "<>" + (inner + "</>") == "<>" + inner + "</>";
    assert "<>" + inner + "</>" == "<>" + (inner + "</>");
  }

  /** The trailing `</>` holds no `<>`, and no match straddles it */
  lemma FragmentCloserKept(inner: string)
    ensures ReplaceAll(inner + "</>", "<>", FragmentOpen) == ReplaceAll(inner, "<>", FragmentOpen) + "</>"
  {
    forall i | 0 <= i < |inner| && |inner| - 2 < i ensures !("<>" <= (inner + "</>")[i..]) {
      assert (inner + "</>")[i + 1] == '<';
    }
    ReplaceAllConcat(inner, "</>", "<>", FragmentOpen);
    assert NoMatchBefore("</>", "<>", 3) by {
      forall i | 0 <= i < 3 ensures !("<>" <= "</>"[i..]) {
        assert "</>"[i..][0] != '<' || "</>"[i..][1] != '>';
      }
    }
    ReplaceAllAbsent("</>", "<>", FragmentOpen);
  }

  /** Second pass: the new opener holds no `</>`, and the trailing closer is rewritten */
  lemma FragmentSecondPass(x: string)
    ensures ReplaceAll(FragmentOpen + x + "</>", "</>", FragmentClose)
         == FragmentOpen + ReplaceAll(x, "</>", FragmentClose) + FragmentClose
  {
    FragmentPatternsUnbordered();
    var y := FragmentOpen + x;
    assert NoMatchBefore(y, "</>", |FragmentOpen|) by {
      forall i | 0 <= i < |FragmentOpen| ensures !("</>" <= y[i..]) {
        assert y[i] == FragmentOpen[i];
        if i == 0 { assert y[1] == 'R'; }
      }
    }
    ReplaceAllSkip(y, "</>", FragmentClose, |FragmentOpen|);
    assert y[..|FragmentOpen|] == FragmentOpen && y[|FragmentOpen|..] == x;
    ReplaceAllAround(y, "", "</>", FragmentClose);
    assert y + "</>" + "" == FragmentOpen + x + "</>";
    ReplaceAllOfEmpty("</>", FragmentClose);
  }

  /** Each `<>...</>` shorthand becomes a `React.Fragment` element around the rewritten inside */
  lemma HandleReactFragmentsWraps(inner: string)
    ensures HandleReactFragments("<>" + inner + "</>")
         == FragmentOpen + HandleReactFragments(inner) + FragmentClose
  {
    FragmentFirstPass(inner);
    FragmentSecondPass(ReplaceAll(inner, "<>", FragmentOpen));
  }
}
