/**
  The remaining text rewrites of the transpiler: kebab-case to component
  names, HTML comment removal and the `class=` to `className=` rewrite.
*/
module TranspileMisc {
  import opened GoStrings
  import JsxText

  // ---------------------------------------------------------------------
  // convertToCamelCase

  /** What convertToCamelCase computes, stated over the hyphen-separated parts */
  function CamelCase(s: string): string {
    if s == "" then ""
    else
      var parts := Split(s, '-');
      if |parts| == 1 then JsxText.Capitalize(s)
      else parts[0] + Join(JsxText.CapitalizeNonEmpty(parts[1..]), "")
  }

  /** convertToCamelCase with its builder loop */
  method ConvertToCamelCase(str: string) returns (result: string)
    ensures result == CamelCase(str)
  {
    if str == "" {
      return str;
    }
    var parts := Split(str, '-');
    if |parts| == 1 {
      assert CamelCase(str) == JsxText.Capitalize(str);
      return [UpperChar(str[0])] + str[1..];
    }
    result := CapitalizeLater(parts);
    CamelTailJoin(parts, |parts|);
    assert parts[1..|parts|] == parts[1..];
    assert CamelCase(str) == parts[0] + Join(JsxText.CapitalizeNonEmpty(parts[1..]), "");
  }

  /** One part as the builder appends it: nothing when empty, else with its first letter upper-cased */
  function Piece(p: string): string {
    if p == "" then "" else JsxText.Capitalize(p)
  }

  /** The pieces of parts[1..i], one after the other */
  function CamelTail(parts: seq<string>, i: nat): string
    requires i <= |parts|
  {
    if i <= 1 then "" else CamelTail(parts, i - 1) + Piece(parts[i - 1])
  }

  /** The first part as it is, then each later non-empty part capitalised */
  method CapitalizeLater(parts: seq<string>) returns (result: string)
    requires |parts| >= 1
    ensures result == parts[0] + CamelTail(parts, |parts|)
  {
    result := parts[0];
    var i := 1;
    while i < |parts|
      invariant 1 <= i <= |parts|
      invariant result == parts[0] + CamelTail(parts, i)
    {
      if parts[i] != "" {
        result := result + [UpperChar(parts[i][0])] + parts[i][1..];
      }
      i := i + 1;
    }
  }

  /** The builder's pieces are the capitalised non-empty parts, joined */
  lemma {:induction false} CamelTailJoin(parts: seq<string>, i: nat)
    requires 1 <= i <= |parts|
    ensures CamelTail(parts, i) == Join(JsxText.CapitalizeNonEmpty(parts[1..i]), "")
  {
    if i > 1 {
      CamelTailJoin(parts, i - 1);
      CamelStep(parts, i - 1);
    }
  }

  /** One more part adds its capitalised form, or nothing when it is empty */
  lemma CamelStep(parts: seq<string>, i: nat)
    requires 1 <= i < |parts|
    ensures Join(JsxText.CapitalizeNonEmpty(parts[1..i + 1]), "") ==
      Join(JsxText.CapitalizeNonEmpty(parts[1..i]), "") + Piece(parts[i])
  {
    assert parts[1..i + 1][..i - 1] == parts[1..i];
    ghost var done := JsxText.CapitalizeNonEmpty(parts[1..i]);
    assert JsxText.CapitalizeNonEmpty(parts[1..i + 1])
        == done + (if parts[i] == "" then [] else [JsxText.Capitalize(parts[i])]);
    if parts[i] != "" {
      JoinNoSep(done, JsxText.Capitalize(parts[i]));
    } else {
      assert done + [] == done;
    }
  }

  lemma JoinNoSep(parts: seq<string>, last: string)
    ensures Join(parts + [last], "") == Join(parts, "") + last
  {
    JoinAppend(parts, last, "");
  }

  /** The text with every hyphen deleted */
  function StripHyphens(s: string): (r: string)
    ensures '-' !in r && |r| <= |s|
  {
    if s == [] then []
    else (if s[0] == '-' then [] else [s[0]]) + StripHyphens(s[1..])
  }

  lemma {:induction false} StripHyphensAppend(a: string, b: string)
    ensures StripHyphens(a + b) == StripHyphens(a) + StripHyphens(b)
    decreases |a|
  {
    if a != [] {
      assert (a + b)[0] == a[0] && (a + b)[1..] == a[1..] + b;
      StripHyphensAppend(a[1..], b);
      var h: string := if a[0] == '-' then [] else [a[0]];
      assert StripHyphens(a) == h + StripHyphens(a[1..]);
      assert StripHyphens(a + b) == h + StripHyphens(a[1..] + b);
    } else {
      assert a + b == b;
    }
  }

  lemma {:induction false} StripHyphensNone(s: string)
    requires '-' !in s
    ensures StripHyphens(s) == s
    decreases |s|
  {
    if s != [] {
      StripHyphensNone(s[1..]);
    }
  }

  /** Deleting the hyphens of parts joined by hyphens concatenates the parts */
  lemma {:induction false} StripHyphensJoin(parts: seq<string>)
    requires forall i :: 0 <= i < |parts| ==> '-' !in parts[i]
    ensures StripHyphens(Join(parts, "-")) == Join(parts, "")
    decreases |parts|
  {
    if |parts| == 1 {
      StripHyphensNone(parts[0]);
    } else if |parts| > 1 {
      StripHyphensJoin(parts[1..]);
      StripHyphensAppend(parts[0] + "-", Join(parts[1..], "-"));
      StripHyphensAppend(parts[0], "-");
      StripHyphensNone(parts[0]);
    }
  }

  lemma ToLowerAppend(a: string, b: string)
    ensures ToLower(a + b) == ToLower(a) + ToLower(b)
  {
  }

  lemma LowerUpper(c: char)
    ensures LowerChar(UpperChar(c)) == LowerChar(c)
  {
  }

  lemma LowerCapitalize(w: string)
    requires w != []
    ensures ToLower(JsxText.Capitalize(w)) == ToLower(w)
  {
    LowerUpper(w[0]);
  }

  /** Capitalising the pieces changes nothing up to letter case */
  lemma {:induction false} LowerCapitalizeNonEmpty(ps: seq<string>)
    ensures ToLower(Join(JsxText.CapitalizeNonEmpty(ps), "")) == ToLower(Join(ps, ""))
    decreases |ps|
  {
    if ps != [] {
      var init, last := ps[..|ps| - 1], ps[|ps| - 1];
      assert ps == init + [last];
      LowerCapitalizeNonEmpty(init);
      var ci := JsxText.CapitalizeNonEmpty(init);
      JoinNoSep(init, last);
      ToLowerAppend(Join(init, ""), last);
      if last != "" {
        JoinNoSep(ci, JsxText.Capitalize(last));
        ToLowerAppend(Join(ci, ""), JsxText.Capitalize(last));
        LowerCapitalize(last);
      } else {
        assert JsxText.CapitalizeNonEmpty(ps) == ci;
        assert Join(ps, "") == Join(init, "");
      }
    }
  }

  /** More than one part means the text held the separator */
  lemma SplitMany(s: string, sep: char)
    requires |Split(s, sep)| > 1
    ensures sep in s
  {
    var parts := Split(s, sep);
    assert s == parts[0] + [sep] + Join(parts[1..], [sep]);
    assert s[|parts[0]|] == sep;
  }

  lemma SplitOne(s: string, sep: char)
    requires sep !in s
    ensures Split(s, sep) == [s]
  {
    if |Split(s, sep)| > 1 {
      SplitMany(s, sep);
    }
  }

  lemma LowerCamelCase(s: string)
    ensures ToLower(CamelCase(s)) == ToLower(StripHyphens(s))
  {
    if s != "" {
      var parts := Split(s, '-');
      if |parts| == 1 {
        assert parts == [s];
        assert '-' !in s;
        StripHyphensNone(s);
        LowerCapitalize(s);
      } else {
        LowerJoined(parts);
        assert Join(parts, "-") == s;
      }
    }
  }

  /** The hyphenated branch, over the parts */
  lemma LowerJoined(parts: seq<string>)
    requires |parts| > 1 && forall i :: 0 <= i < |parts| ==> '-' !in parts[i]
    ensures ToLower(parts[0] + Join(JsxText.CapitalizeNonEmpty(parts[1..]), ""))
         == ToLower(StripHyphens(Join(parts, "-")))
  {
    var tail := Join(parts[1..], "");
    var caps := Join(JsxText.CapitalizeNonEmpty(parts[1..]), "");
    StripHyphensJoin(parts);
    assert Join(parts, "") == parts[0] + tail;
    LowerCapitalizeNonEmpty(parts[1..]);
    ToLowerAppend(parts[0], caps);
    ToLowerAppend(parts[0], tail);
  }

  /** A character is a hyphen exactly when its lower-case form is */
  lemma LowerHyphen(x: string, k: nat)
    requires k < |x|
    ensures (ToLower(x)[k] == '-') == (x[k] == '-')
  {
  }

  /**
    Up to letter case the result is the input without its hyphens: no
    hyphen remains, every other character is kept in order, and the length
    drops by exactly the number of hyphens.
  */
  lemma CamelCaseLetters(s: string)
    ensures ToLower(CamelCase(s)) == ToLower(StripHyphens(s))
    ensures '-' !in CamelCase(s)
    ensures |CamelCase(s)| == |StripHyphens(s)|
  {
    LowerCamelCase(s);
    var c, t := CamelCase(s), StripHyphens(s);
    assert |ToLower(c)| == |c| && |ToLower(t)| == |t|;
    forall k | 0 <= k < |c| ensures c[k] != '-' {
      LowerHyphen(c, k);
      LowerHyphen(t, k);
    }
  }

  /** Without a hyphen only the first character is upper-cased */
  lemma CamelCaseSingleWord(s: string)
    requires s != "" && '-' !in s
    ensures |CamelCase(s)| == |s|
    ensures CamelCase(s)[0] == UpperChar(s[0]) && CamelCase(s)[1..] == s[1..]
  {
    SplitOne(s, '-');
  }

  /** The part before the first hyphen splits off as the first part */
  lemma {:induction false} SplitFirst(a: string, sep: char, b: string)
    requires sep !in a
    ensures Split(a + [sep] + b, sep)[0] == a
    ensures Split(a + [sep] + b, sep)[1..] == Split(b, sep)
    decreases |a|
  {
    var s := a + [sep] + b;
    if a == [] {
      assert s[0] == sep && s[1..] == b;
    } else {
      assert s[0] == a[0] && s[1..] == a[1..] + [sep] + b;
      SplitFirst(a[1..], sep, b);
    }
  }

  /** The first part of a hyphenated text is kept with its case unchanged */
  lemma CamelCaseFirstPart(a: string, b: string)
    requires '-' !in a
    ensures a <= CamelCase(a + "-" + b)
  {
    SplitFirst(a, '-', b);
  }

  lemma {:induction false} CapitalizeNonEmptyFirst(ps: seq<string>)
    requires ps != [] && ps[0] != ""
    ensures JsxText.CapitalizeNonEmpty(ps) != []
    ensures JsxText.CapitalizeNonEmpty(ps)[0] == JsxText.Capitalize(ps[0])
    decreases |ps|
  {
    var init := ps[..|ps| - 1];
    if init != [] {
      CapitalizeNonEmptyFirst(init);
    }
  }

  /** A character right after a hyphen is upper-cased */
  lemma CamelCaseAfterHyphen(a: string, c: char, b: string)
    requires '-' !in a && c != '-'
    ensures |a| < |CamelCase(a + "-" + [c] + b)|
    ensures CamelCase(a + "-" + [c] + b)[|a|] == UpperChar(c)
  {
    SplitFirst(a, '-', [c] + b);
    assert a + "-" + [c] + b == a + ['-'] + ([c] + b);
    var rest := Split([c] + b, '-');
    assert rest[0] != "" && rest[0][0] == c;
    CapitalizeNonEmptyFirst(rest);
    var caps := JsxText.CapitalizeNonEmpty(rest);
    assert JsxText.Capitalize(rest[0]) <= Join(caps, "");
  }

  /**
    The single-word branch yields a component name but the hyphenated branch
    keeps the first letter lower-case, so the converted name of a hyphenated
    custom element is not taken for a component.
  */
  lemma CamelCaseFinding()
    ensures CamelCase("button")[0] == 'B'
    ensures JsxText.IsCustomReactComponent(CamelCase("button"))
    ensures !JsxText.IsCustomReactComponent(CamelCase("my-button"))
  {
    CamelCaseSingleWord("button");
    CamelCaseFirstPart("my", "button");
  }

  /** The intended conversion: every non-empty part capitalised, the first one included */
  function PascalCase(s: string): string {
    Join(JsxText.CapitalizeNonEmpty(Split(s, '-')), "")
  }

  /** Agrees with convertToCamelCase where that gives a component name */
  lemma PascalCaseSingleWord(s: string)
    requires s != "" && '-' !in s
    ensures PascalCase(s) == CamelCase(s)
  {
    SplitOne(s, '-');
    assert JsxText.CapitalizeNonEmpty([s]) == [JsxText.Capitalize(s)] by {
      assert [s][..0] == [];
    }
  }

  /** A text starting with an ASCII letter always converts to a component name */
  lemma PascalCaseIsComponent(s: string)
    requires s != "" && (('a' <= s[0] <= 'z') || ('A' <= s[0] <= 'Z'))
    ensures JsxText.IsCustomReactComponent(PascalCase(s))
  {
    var parts := Split(s, '-');
    assert parts[0] != "" && parts[0][0] == s[0];
    CapitalizeNonEmptyFirst(parts);
    var caps := JsxText.CapitalizeNonEmpty(parts);
    assert JsxText.Capitalize(parts[0]) <= Join(caps, "");
  }

  /** Up to letter case the corrected conversion also only deletes hyphens */
  lemma PascalCaseLetters(s: string)
    ensures ToLower(PascalCase(s)) == ToLower(StripHyphens(s))
  {
    var parts := Split(s, '-');
    StripHyphensJoin(parts);
    LowerCapitalizeNonEmpty(parts);
  }

  // ---------------------------------------------------------------------
  // removeHTMLComments

  const CommentOpen := "<!--"
  const CommentClose := "-->"

  /** No occurrence of pat starts at a position in [i, k) */
  predicate NoneBetween(s: string, pat: string, i: nat, k: nat) {
    forall j: nat :: i <= j < k ==> !OccursAt(s, pat, j)
  }

  /** The leftmost occurrence of pat starting at position i or later, if any */
  function FindFrom(s: string, pat: string, i: nat): (r: Option<nat>)
    requires pat != [] && i <= |s|
    ensures r.Some? ==> i <= r.value && r.value + |pat| <= |s|
    decreases |s| - i
  {
    if |s| - i < |pat| then None
    else if OccursAt(s, pat, i) then Some(i)
    else FindFrom(s, pat, i + 1)
  }

  /** FindFrom finds exactly the first occurrence at or after i, and reports none only when there is none */
  lemma {:induction false} FindFromSpec(s: string, pat: string, i: nat)
    requires pat != [] && i <= |s|
    ensures FindFrom(s, pat, i).Some? ==>
      OccursAt(s, pat, FindFrom(s, pat, i).value) && NoneBetween(s, pat, i, FindFrom(s, pat, i).value)
    ensures FindFrom(s, pat, i).None? ==> NoneBetween(s, pat, i, |s| + 1)
    decreases |s| - i
  {
    if |s| - i >= |pat| && !OccursAt(s, pat, i) {
      FindFromSpec(s, pat, i + 1);
    }
  }

  lemma FindFromAt(s: string, pat: string, i: nat, k: nat)
    requires pat != [] && i <= k && OccursAt(s, pat, k) && NoneBetween(s, pat, i, k)
    ensures FindFrom(s, pat, i) == Some(k)
  {
    FindFromSpec(s, pat, i);
  }

  /**
    The lazy `(?s)<!--.*?-->` replaced by "": from the leftmost opener to the
    first closer after it is deleted, then the search resumes after the
    closer; an opener with no closer after it ends the rewriting.
  */
  function RemoveComments(s: string): (r: string)
    ensures |r| <= |s|
    decreases |s|
  {
    var open := FindFrom(s, CommentOpen, 0);
    if open.None? then s
    else
      var close := FindFrom(s, CommentClose, open.value + 4);
      if close.None? then s
      else s[..open.value] + RemoveComments(s[close.value + 3..])
  }

  /** Text without an opener is left alone */
  lemma RemoveCommentsNoOpener(s: string)
    requires NoOccurrence(s, CommentOpen)
    ensures RemoveComments(s) == s
  {
    FindFromSpec(s, CommentOpen, 0);
  }

  lemma CommentDelimitersUnbordered()
    ensures Unbordered(CommentOpen) && Unbordered(CommentClose)
  {
    forall k | 0 < k < |CommentOpen| ensures CommentOpen[k..] != CommentOpen[..|CommentOpen| - k] {
      assert CommentOpen[k..][0] != CommentOpen[0];
    }
    forall k | 0 < k < |CommentClose| ensures CommentClose[k..] != CommentClose[..|CommentClose| - k] {
      assert CommentClose[k..][|CommentClose| - k - 1] != CommentClose[|CommentClose| - k - 1];
    }
  }

  /** Occurrences in a suffix are occurrences in the whole text, shifted */
  lemma OccursAtShift(x: string, t: string, pat: string, j: nat)
    ensures OccursAt(x + t, pat, |x| + j) == OccursAt(t, pat, j)
  {
    if j + |pat| <= |t| {
      assert (x + t)[|x| + j..|x| + j + |pat|] == t[j..j + |pat|];
    }
  }

  /**
    In x + pat + y, searched from position i, the displayed pat is the first
    occurrence when the stretch from i up to it is free of pat.
  */
  lemma FindAfterFree(w: string, x: string, pat: string, y: string)
    requires pat != [] && Unbordered(pat) && NoOccurrence(x, pat)
    ensures FindFrom(w + x + pat + y, pat, |w|) == Some(|w| + |x|)
  {
    var t := x + pat + y;
    assert w + x + pat + y == w + t;
    Shielded(x, pat, y);
    OccursAtShift(w, t, pat, |x|);
    forall j: nat | |w| <= j < |w| + |x| ensures !OccursAt(w + t, pat, j) {
      OccursAtShift(w, t, pat, j - |w|);
    }
    FindFromAt(w + t, pat, |w|, |w| + |x|);
  }

  /** One round of the rewrite: the found comment goes and the rest is rewritten */
  lemma RemoveCommentsStep(s: string, p: nat, q: nat)
    requires FindFrom(s, CommentOpen, 0) == Some(p)
    requires FindFrom(s, CommentClose, p + 4) == Some(q)
    ensures RemoveComments(s) == s[..p] + RemoveComments(s[q + 3..])
  {
  }

  /** A comment is deleted and the text on both sides kept */
  lemma RemoveCommentsStrip(a: string, c: string, b: string)
    requires NoOccurrence(a, CommentOpen) && NoOccurrence(c, CommentClose)
    ensures RemoveComments(a + CommentOpen + c + CommentClose + b) == a + RemoveComments(b)
  {
    CommentDelimitersUnbordered();
    var s := a + CommentOpen + c + CommentClose + b;
    FindAfterFree([], a, CommentOpen, c + CommentClose + b);
    assert [] + a + CommentOpen + (c + CommentClose + b) == s;
    FindAfterFree(a + CommentOpen, c, CommentClose, b);
    assert s[..|a|] == a;
    assert s[|a| + 4 + |c| + 3..] == b;
    RemoveCommentsStep(s, |a|, |a| + 4 + |c|);
  }

  /** A comment is removed whole when the text before it and the comment itself cannot hold a delimiter */
  lemma RemoveCommentsStripByChar(a: string, c: string, b: string, i: nat, j: nat)
    requires i < 4 && j < 3
    requires CommentOpen[i] !in a && CommentClose[j] !in c
    ensures RemoveComments(a + CommentOpen + c + CommentClose + b) == a + RemoveComments(b)
  {
    NoOccurrenceByChar(a, CommentOpen, i);
    NoOccurrenceByChar(c, CommentClose, j);
    RemoveCommentsStrip(a, c, b);
  }

  /** ... and when nothing after it can start another comment, only that comment goes */
  lemma RemoveCommentsByChar(a: string, c: string, b: string, i: nat, j: nat, k: nat)
    requires i < 4 && j < 3 && k < 4
    requires CommentOpen[i] !in a && CommentClose[j] !in c && CommentOpen[k] !in b
    ensures RemoveComments(a + CommentOpen + c + CommentClose + b) == a + b
  {
    NoOccurrenceByChar(b, CommentOpen, k);
    RemoveCommentsNoOpener(b);
    RemoveCommentsStripByChar(a, c, b, i, j);
  }

  /** An opener that is never closed leaves the rest of the text as it is */
  lemma RemoveCommentsUnclosed(a: string, c: string)
    requires NoOccurrence(a, CommentOpen) && NoOccurrence(c, CommentClose)
    ensures RemoveComments(a + CommentOpen + c) == a + CommentOpen + c
  {
    CommentDelimitersUnbordered();
    var s := a + CommentOpen + c;
    FindAfterFree([], a, CommentOpen, c);
    assert [] + a + CommentOpen + c == s;
    forall j: nat | |a| + 4 <= j <= |s| ensures !OccursAt(s, CommentClose, j) {
      OccursAtShift(a + CommentOpen, c, CommentClose, j - |a| - 4);
    }
    FindFromSpec(s, CommentClose, |a| + 4);
  }

  // ---------------------------------------------------------------------
  // replaceClassToClassName

  const ClassAttr := "class="
  const ClassNameAttr := "className="

  function ReplaceClassToClassName(html: string): string {
    ReplaceAll(html, ClassAttr, ClassNameAttr)
  }

  lemma ClassAttrUnbordered()
    ensures Unbordered(ClassAttr)
  {
    forall k | 0 < k < |ClassAttr| ensures ClassAttr[k..] != ClassAttr[..|ClassAttr| - k] {
      assert ClassAttr[k..][|ClassAttr| - k - 1] != ClassAttr[|ClassAttr| - k - 1];
    }
  }

  /** Every `class=` is rewritten where it stands and the text around it is kept */
  lemma ReplaceClassAround(a: string, b: string)
    ensures ReplaceClassToClassName(a + ClassAttr + b)
         == ReplaceClassToClassName(a) + ClassNameAttr + ReplaceClassToClassName(b)
  {
    ClassAttrUnbordered();
    ReplaceAllAround(a, b, ClassAttr, ClassNameAttr);
  }

  /** Text without `class=` (JSX that already says className=) is left alone */
  lemma ReplaceClassAbsent(html: string)
    requires NoOccurrence(html, ClassAttr)
    ensures ReplaceClassToClassName(html) == html
  {
    NoOccurrenceNoMatch(html, ClassAttr);
    ReplaceAllAbsent(html, ClassAttr, ClassNameAttr);
  }
}
