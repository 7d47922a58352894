/**
  Worked examples of the transpiler's text rewrites, taken from the cases
  its own tests check; each input is given split at its delimiters.
*/
module TranspileExamples {
  import opened GoStrings
  import opened TranspileMisc

  /** The rewrite is a single pass: deleting one comment can join the pieces of another */
  lemma RemoveCommentsSinglePass(a: string, b: string)
    requires a == "<!-" && b == "- x -->"
    ensures RemoveComments(a + CommentOpen + CommentClose + b) == a + b
    ensures CommentOpen <= RemoveComments(a + CommentOpen + CommentClose + b)
  {
    NoOccurrenceByChar(b, CommentOpen, 0);
    RemoveCommentsNoOpener(b);
    RemoveCommentsStrip(a, "", b);
    assert a + CommentOpen + "" + CommentClose + b == a + CommentOpen + CommentClose + b;
    assert (a + b)[..4] == [a[0], a[1], a[2], b[0]];
  }

  /** A comment in the middle of an element goes, and the text around it stays */
  lemma RemoveCommentsOneComment(a: string, c: string, b: string)
    requires a == "<div>Hello " && c == " This is a comment " && b == " World</div>"
    ensures RemoveComments(a + CommentOpen + c + CommentClose + b) == a + b
  {
    RemoveCommentsByChar(a, c, b, 1, 2, 1);
  }

  /** The comment may span lines: here the text holds real line breaks */
  lemma RemoveCommentsMultiline(a: string, c: string, b: string)
    requires a == "<div>Hello " && c == "\nThis is a\nmultiline comment\n" && b == " World</div>"
    ensures RemoveComments(a + CommentOpen + c + CommentClose + b) == a + b
  {
    RemoveCommentsByChar(a, c, b, 1, 2, 1);
  }

  /** The test's own input, a Go raw string, where each `\n` is a backslash followed by `n` */
  lemma RemoveCommentsRawBackslashes(a: string, c: string, b: string)
    requires a == "<div>Hello " && c == "\\nThis is a\\nmultiline comment\\n" && b == " World</div>"
    ensures RemoveComments(a + CommentOpen + c + CommentClose + b) == a + b
  {
    RemoveCommentsByChar(a, c, b, 1, 2, 1);
  }

  /** Every comment goes, not only the first */
  lemma RemoveCommentsTwo(a: string, c1: string, m: string, c2: string, b: string)
    requires CommentOpen[1] !in a && CommentClose[2] !in c1 && CommentOpen[0] !in m
    requires CommentClose[2] !in c2 && CommentOpen[1] !in b
    ensures RemoveComments(a + CommentOpen + c1 + CommentClose + m + CommentOpen + c2 + CommentClose + b)
         == a + m + b
  {
    var rest := m + CommentOpen + c2 + CommentClose + b;
    RegroupTwo(a, c1, m, c2, b);
    RemoveCommentsByChar(m, c2, b, 0, 2, 1);
    RemoveCommentsStripByChar(a, c1, rest, 1, 2);
  }

  lemma RegroupTwo(a: string, c1: string, m: string, c2: string, b: string)
    ensures a + CommentOpen + c1 + CommentClose + m + CommentOpen + c2 + CommentClose + b
         == a + CommentOpen + c1 + CommentClose + (m + CommentOpen + c2 + CommentClose + b)
  {
  }

  lemma RemoveCommentsTwoComments(a: string, c1: string, m: string, c2: string, b: string)
    requires a == "<div>Hello " && c1 == " Comment 1 " && m == " World " && c2 == " Comment 2 " && b == " Test</div>"
    ensures RemoveComments(a + CommentOpen + c1 + CommentClose + m + CommentOpen + c2 + CommentClose + b)
         == a + m + b
  {
    RemoveCommentsTwo(a, c1, m, c2, b);
  }

  // ---------------------------------------------------------------------
  // replaceClassToClassName

  /** Each `class=` becomes `className=` and the text between them stays */
  lemma ReplaceClassTwo(a: string, m: string, b: string)
    requires ClassAttr[0] !in a && ClassAttr[0] !in m && ClassAttr[0] !in b
    ensures ReplaceClassToClassName(a + ClassAttr + m + ClassAttr + b)
         == a + ClassNameAttr + m + ClassNameAttr + b
  {
    NoOccurrenceByChar(a, ClassAttr, 0);
    NoOccurrenceByChar(m, ClassAttr, 0);
    NoOccurrenceByChar(b, ClassAttr, 0);
    ReplaceClassAbsent(a);
    ReplaceClassAbsent(m);
    ReplaceClassAbsent(b);
    ReplaceClassAround(m, b);
    ReplaceClassAround(a, m + ClassAttr + b);
    assert a + ClassAttr + m + ClassAttr + b == a + ClassAttr + (m + ClassAttr + b);
  }

  lemma ReplaceClassExample(a: string, m: string, b: string)
    requires a == "<div " && m == "\"a\"><p " && b == "\"b\">"
    ensures ReplaceClassToClassName(a + ClassAttr + m + ClassAttr + b) == a + ClassNameAttr + m + ClassNameAttr + b
  {
    ReplaceClassTwo(a, m, b);
  }
}
