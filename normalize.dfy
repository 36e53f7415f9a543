/**
 * Text clean-up applied to every table cell (preprocess_pdfs.py `norm`) and
 * the regular-expression rewrites of the parsers, written as recursive
 * string functions: whitespace collapse, `str.strip()`, removal of
 * parenthesised spans, keeping only digits, ASCII lower-casing and
 * removal of a character. The functions are plain definitions; what they
 * guarantee is stated by the lemmas beside them.
 */
module Normalize {
  import opened Wrappers
  import opened Strings

  /**
   * The characters CPython treats as whitespace in `str.isspace()`, which is
   * also the class `\s` matches in a `str` pattern.
   */
  predicate IsSpace(c: char) {
    c == ' ' || c == '\t' || c == '\n' || c == '\r' || c == '\U{0B}' || c == '\U{0C}'
    || ('\U{1C}' <= c <= '\U{1F}') || c == '\U{85}' || c == '\U{A0}' || c == '\U{1680}'
    || ('\U{2000}' <= c <= '\U{200A}') || c == '\U{2028}' || c == '\U{2029}'
    || c == '\U{202F}' || c == '\U{205F}' || c == '\U{3000}'
  }

  lemma SpaceIsNotDigit(c: char)
    requires IsSpace(c)
    ensures !IsDigit(c)
  {
  }

  /** Every whitespace character of `s` is a plain space. */
  ghost predicate PlainSpaces(s: string) {
    forall i :: 0 <= i < |s| && IsSpace(s[i]) ==> s[i] == ' '
  }

  /** No two whitespace characters of `s` are adjacent. */
  ghost predicate NoDoubleSpace(s: string) {
    forall i :: 0 < i < |s| ==> !(IsSpace(s[i - 1]) && IsSpace(s[i]))
  }

  /** `s` neither starts nor ends with whitespace. */
  ghost predicate NoEdgeSpace(s: string) {
    s == [] || (!IsSpace(s[0]) && !IsSpace(s[|s| - 1]))
  }

  /** The shape of every string `norm` returns. */
  ghost predicate Normal(s: string) {
    PlainSpaces(s) && NoDoubleSpace(s) && NoEdgeSpace(s)
  }

  // ---------------------------------------------------------------------------
  // str.strip()
  // ---------------------------------------------------------------------------

  /** `s.lstrip()`. */
  function TrimLeft(s: string): string {
    if s != [] && IsSpace(s[0]) then TrimLeft(s[1..]) else s
  }

  /** `s.rstrip()`. */
  function TrimRight(s: string): string {
    if s != [] && IsSpace(s[|s| - 1]) then TrimRight(s[..|s| - 1]) else s
  }

  /** `s.strip()`. */
  function Strip(s: string): string {
    TrimRight(TrimLeft(s))
  }

  /** `lstrip` cuts a prefix made of whitespace, and what is left does not start with whitespace. */
  lemma {:induction false} TrimLeftShape(s: string)
    ensures |TrimLeft(s)| <= |s| && TrimLeft(s) == s[|s| - |TrimLeft(s)|..]
    ensures TrimLeft(s) == [] || !IsSpace(TrimLeft(s)[0])
    ensures forall i :: 0 <= i < |s| - |TrimLeft(s)| ==> IsSpace(s[i])
  {
    if s != [] && IsSpace(s[0]) {
      TrimLeftShape(s[1..]);
      assert forall i :: 1 <= i < |s| ==> s[i] == s[1..][i - 1];
    }
  }

  /** `rstrip` cuts a suffix made of whitespace, and what is left does not end with whitespace. */
  lemma {:induction false} TrimRightShape(s: string)
    ensures |TrimRight(s)| <= |s| && TrimRight(s) == s[..|TrimRight(s)|]
    ensures TrimRight(s) == [] || !IsSpace(TrimRight(s)[|TrimRight(s)| - 1])
    ensures forall i :: |TrimRight(s)| <= i < |s| ==> IsSpace(s[i])
  {
    if s != [] && IsSpace(s[|s| - 1]) {
      TrimRightShape(s[..|s| - 1]);
    }
  }

  /**
   * `strip` returns the slice `s[a..b]` of `s` that is left once the
   * whitespace at both ends is cut off.
   */
  lemma StripSlice(s: string) returns (a: nat, b: nat)
    ensures a <= b <= |s| && Strip(s) == s[a..b]
    ensures NoEdgeSpace(Strip(s))
    ensures forall i :: 0 <= i < a ==> IsSpace(s[i])
    ensures forall i :: b <= i < |s| ==> IsSpace(s[i])
  {
    TrimLeftShape(s);
    var l := TrimLeft(s);
    TrimRightShape(l);
    a := |s| - |l|;
    b := a + |TrimRight(l)|;
    assert forall i :: a <= i < |s| ==> s[i] == l[i - a];
  }

  // ---------------------------------------------------------------------------
  // re.sub(r"\s+", " ", s)
  // ---------------------------------------------------------------------------

  /**
   * Replaces every maximal run of whitespace by one space; `inRun` says that
   * the character before `s` was whitespace, whose run already produced its space.
   */
  function CollapseRun(s: string, inRun: bool): string {
    if s == [] then []
    else if IsSpace(s[0]) then (if inRun then [] else [' ']) + CollapseRun(s[1..], true)
    else [s[0]] + CollapseRun(s[1..], false)
  }

  /** `re.sub(r"\s+", " ", s)`. */
  function Collapse(s: string): string {
    CollapseRun(s, false)
  }

  /** `norm(x)` for a string `x`. */
  function NormText(s: string): string {
    Strip(Collapse(s))
  }

  /** `norm(x)` for a table cell: `None` and `""` both become `""`. */
  function Norm(x: Option<string>): (r: string)
    ensures x.None? ==> r == ""
  {
    NormText(x.GetOr(""))
  }

  lemma {:induction false} CollapseRunShape(s: string, inRun: bool)
    ensures PlainSpaces(CollapseRun(s, inRun)) && NoDoubleSpace(CollapseRun(s, inRun))
    ensures inRun && CollapseRun(s, inRun) != [] ==> !IsSpace(CollapseRun(s, inRun)[0])
  {
    if s != [] {
      var sp := IsSpace(s[0]);
      var rest := CollapseRun(s[1..], sp);
      CollapseRunShape(s[1..], sp);
      var head: string := if sp then (if inRun then [] else [' ']) else [s[0]];
      assert CollapseRun(s, inRun) == head + rest;
      ShapeAppend(head, rest);
    }
  }

  /** A space-free or single-space head keeps the shape of a tail that does not start with whitespace after it. */
  lemma ShapeAppend(head: string, rest: string)
    requires |head| <= 1 && PlainSpaces(head) && PlainSpaces(rest) && NoDoubleSpace(rest)
    requires head != [] && IsSpace(head[0]) && rest != [] ==> !IsSpace(rest[0])
    ensures PlainSpaces(head + rest) && NoDoubleSpace(head + rest)
  {
    var r := head + rest;
    forall i | 0 < i < |r| ensures !(IsSpace(r[i - 1]) && IsSpace(r[i])) {
      if i > |head| {
        assert r[i - 1] == rest[i - 1 - |head|] && r[i] == rest[i - |head|];
      }
    }
    forall i | 0 <= i < |r| && IsSpace(r[i]) ensures r[i] == ' ' {
      if i >= |head| {
        assert r[i] == rest[i - |head|];
      }
    }
  }

  lemma StripKeepsShape(s: string)
    requires PlainSpaces(s) && NoDoubleSpace(s)
    ensures Normal(Strip(s))
  {
    var a, b := StripSlice(s);
    var t := s[a..b];
    forall i | 0 <= i < |t| ensures t[i] == s[a + i] {
    }
  }

  /**
   * What `norm` returns has no whitespace at either end, no two whitespace
   * characters in a row, and no whitespace other than the plain space.
   */
  lemma NormTextNormal(s: string)
    ensures Normal(NormText(s))
  {
    CollapseRunShape(s, false);
    StripKeepsShape(Collapse(s));
  }

  lemma NormNormal(x: Option<string>)
    ensures Normal(Norm(x))
  {
    NormTextNormal(x.GetOr(""));
  }

  /** Collapsing a string that has only single plain spaces changes nothing. */
  lemma {:induction false} CollapseRunFixed(s: string, inRun: bool)
    requires PlainSpaces(s) && NoDoubleSpace(s)
    requires inRun ==> s == [] || !IsSpace(s[0])
    ensures CollapseRun(s, inRun) == s
  {
    if s != [] {
      var t := s[1..];
      assert PlainSpaces(t) && NoDoubleSpace(t) by {
        assert forall i :: 0 <= i < |t| ==> t[i] == s[i + 1];
      }
      if IsSpace(s[0]) {
        assert |s| > 1 ==> IsSpace(s[0]) && s[1] == t[0];
      }
      CollapseRunFixed(t, IsSpace(s[0]));
    }
  }

  lemma StripFixed(s: string)
    requires NoEdgeSpace(s)
    ensures Strip(s) == s
  {
  }

  /** `norm` leaves a string it has already normalised unchanged. */
  lemma NormFixed(s: string)
    requires Normal(s)
    ensures NormText(s) == s
  {
    CollapseRunFixed(s, false);
    StripFixed(s);
  }

  /** `norm` is idempotent. */
  lemma NormIdempotent(x: Option<string>)
    ensures NormText(Norm(x)) == Norm(x)
  {
    NormNormal(x);
    NormFixed(Norm(x));
  }

  // ---------------------------------------------------------------------------
  // s.split(): the words of a string
  // ---------------------------------------------------------------------------

  /** `cur` as a finished word: nothing when it is empty. */
  function Emit(cur: string): seq<string> {
    if cur == [] then [] else [cur]
  }

  /**
   * `str.split()` with no argument, scanning left to right: `cur` is the
   * part of a word read so far, and every maximal run of non-whitespace
   * characters becomes one word.
   */
  function SplitRun(s: string, cur: string): seq<string> {
    if s == [] then Emit(cur)
    else if IsSpace(s[0]) then Emit(cur) + SplitRun(s[1..], [])
    else SplitRun(s[1..], cur + [s[0]])
  }

  /** `s.split()`: the words of `s`, in order. */
  function Words(s: string): seq<string> {
    SplitRun(s, [])
  }

  /** Collapsing whitespace runs neither splits, joins, adds nor drops a word. */
  lemma {:induction false} SplitRunOfCollapse(s: string, inRun: bool, cur: string)
    requires inRun ==> cur == []
    ensures SplitRun(CollapseRun(s, inRun), cur) == SplitRun(s, cur)
  {
    if s != [] {
      var rest := CollapseRun(s[1..], IsSpace(s[0]));
      if IsSpace(s[0]) {
        SplitRunOfCollapse(s[1..], true, []);
        if inRun {
          assert CollapseRun(s, inRun) == rest;
          assert SplitRun(s, cur) == [] + SplitRun(s[1..], []);
        } else {
          var t := [' '] + rest;
          assert CollapseRun(s, inRun) == t;
          assert IsSpace(t[0]) && t[1..] == rest;
        }
      } else {
        SplitRunOfCollapse(s[1..], false, cur + [s[0]]);
        var t := [s[0]] + rest;
        assert CollapseRun(s, inRun) == t;
        assert t[0] == s[0] && t[1..] == rest;
      }
    }
  }

  lemma {:induction false} SplitRunOfTrimLeft(s: string)
    ensures SplitRun(TrimLeft(s), []) == SplitRun(s, [])
  {
    if s != [] && IsSpace(s[0]) {
      SplitRunOfTrimLeft(s[1..]);
      assert SplitRun(s, []) == [] + SplitRun(s[1..], []);
    }
  }

  /** A trailing whitespace character only ends the last word. */
  lemma {:induction false} SplitRunSnocSpace(s: string, c: char, cur: string)
    requires IsSpace(c)
    ensures SplitRun(s + [c], cur) == SplitRun(s, cur)
  {
    if s == [] {
      assert s + [c] == [c] && [c][1..] == [];
    } else {
      assert (s + [c])[0] == s[0] && (s + [c])[1..] == s[1..] + [c];
      if IsSpace(s[0]) {
        SplitRunSnocSpace(s[1..], c, []);
      } else {
        SplitRunSnocSpace(s[1..], c, cur + [s[0]]);
      }
    }
  }

  lemma {:induction false} SplitRunOfTrimRight(s: string, cur: string)
    ensures SplitRun(TrimRight(s), cur) == SplitRun(s, cur)
  {
    if s != [] && IsSpace(s[|s| - 1]) {
      var init := s[..|s| - 1];
      SplitRunOfTrimRight(init, cur);
      assert s == init + [s[|s| - 1]];
      SplitRunSnocSpace(init, s[|s| - 1], cur);
    }
  }

  /** `norm` keeps the words of its input: `norm(x).split() == x.split()`. */
  lemma WordsOfNorm(s: string)
    ensures Words(NormText(s)) == Words(s)
  {
    SplitRunOfTrimRight(TrimLeft(Collapse(s)), []);
    SplitRunOfTrimLeft(Collapse(s));
    SplitRunOfCollapse(s, false, []);
  }

  /**
   * On a string of normal shape, read after a partial word `cur`, joining
   * the words with single spaces gives `cur` and the string back.
   */
  lemma {:induction false} JoinSplitRun(t: string, cur: string)
    requires forall i :: 0 <= i < |cur| ==> !IsSpace(cur[i])
    requires PlainSpaces(t) && NoDoubleSpace(t)
    requires t == [] || !IsSpace(t[|t| - 1])
    requires cur == [] ==> t == [] || !IsSpace(t[0])
    ensures Join(SplitRun(t, cur), " ") == cur + t
    decreases |t|
  {
    if t == [] {
      assert cur + t == cur;
    } else {
      var rest := t[1..];
      assert PlainSpaces(rest) && NoDoubleSpace(rest) by {
        assert forall i :: 0 <= i < |rest| ==> rest[i] == t[i + 1];
      }
      if IsSpace(t[0]) {
        assert |t| >= 2 && !IsSpace(t[1]);
        assert rest[0] == t[1];
        JoinSplitRun(rest, []);
        var w := SplitRun(rest, []);
        assert w != [];
        assert SplitRun(t, cur) == [cur] + w;
        JoinAppend([cur], w, " ");
        assert t == [' '] + rest;
      } else {
        var cur' := cur + [t[0]];
        assert forall i :: 0 <= i < |cur'| ==> !IsSpace(cur'[i]);
        JoinSplitRun(rest, cur');
        assert cur' + rest == cur + t;
      }
    }
  }

  /**
   * `norm(x)` is `" ".join(x.split())`: the words of the cell, in order,
   * with exactly one plain space between two words and none at the ends.
   */
  lemma NormWords(s: string)
    ensures NormText(s) == Join(Words(s), " ")
  {
    NormTextNormal(s);
    JoinSplitRun(NormText(s), []);
    WordsOfNorm(s);
  }

  /**
   * `re.sub(r"\s+", " ", s)` is the words of `s` joined by single spaces,
   * with at most one space before them and at most one after them.
   */
  lemma CollapseExact(s: string) returns (lead: string, trail: string)
    ensures Collapse(s) == lead + Join(Words(s), " ") + trail
    ensures (lead == "" || lead == " ") && (trail == "" || trail == " ")
  {
    var c := Collapse(s);
    CollapseRunShape(s, false);
    var a, b := StripSlice(c);
    if |c| >= 2 {
      assert !(IsSpace(c[0]) && IsSpace(c[1]));
      assert !(IsSpace(c[|c| - 2]) && IsSpace(c[|c| - 1]));
    }
    NormWords(s);
    lead := if a == 0 then "" else " ";
    trail := if b == |c| then "" else " ";
    assert a == 1 ==> c[..a] == [c[0]] && c[0] == ' ';
    assert b == |c| - 1 ==> c[b..] == [c[b]] && c[b] == ' ';
    assert c == c[..a] + c[a..b] + c[b..];
  }

  // ---------------------------------------------------------------------------
  // Character filters: re.sub(r"[^0-9]", "", s), and the text of a cell
  // ---------------------------------------------------------------------------

  /** The characters of `s` that satisfy `keep`, in order. */
  function Keep(s: string, keep: char -> bool): string {
    if s == [] then [] else (if keep(s[0]) then [s[0]] else []) + Keep(s[1..], keep)
  }

  /** `re.sub(r"[^0-9]", "", s)`: the ASCII digits of `s`, in order. */
  function KeepDigits(s: string): string {
    Keep(s, IsDigit)
  }

  /** The characters of `s` that are not whitespace, in order: its text without the layout. */
  function NonSpace(s: string): string {
    Keep(s, c => !IsSpace(c))
  }

  /** A filter that drops every whitespace character. */
  ghost predicate DropsSpaces(keep: char -> bool) {
    forall c :: IsSpace(c) ==> !keep(c)
  }

  predicate HasDigit(s: string) {
    exists i :: 0 <= i < |s| && IsDigit(s[i])
  }

  /** Only digits are kept, and nothing is left exactly when `s` has no digit. */
  lemma {:induction false} KeepDigitsShape(s: string)
    ensures forall i :: 0 <= i < |KeepDigits(s)| ==> IsDigit(KeepDigits(s)[i])
    ensures KeepDigits(s) == [] <==> !HasDigit(s)
  {
    if s != [] {
      KeepDigitsShape(s[1..]);
      var head := if IsDigit(s[0]) then [s[0]] else [];
      assert KeepDigits(s) == head + KeepDigits(s[1..]);
      if HasDigit(s[1..]) {
        var i :| 0 <= i < |s[1..]| && IsDigit(s[1..][i]);
        assert IsDigit(s[i + 1]);
      }
      if HasDigit(s) && !IsDigit(s[0]) {
        var i :| 0 <= i < |s| && IsDigit(s[i]);
        assert IsDigit(s[1..][i - 1]);
      }
    }
  }

  lemma {:induction false} KeepAppend(a: string, b: string, keep: char -> bool)
    ensures Keep(a + b, keep) == Keep(a, keep) + Keep(b, keep)
  {
    if a == [] {
      assert a + b == b;
    } else {
      var h := if keep(a[0]) then [a[0]] else [];
      assert (a + b)[0] == a[0] && (a + b)[1..] == a[1..] + b;
      KeepAppend(a[1..], b, keep);
      calc {
        Keep(a + b, keep);
        h + Keep(a[1..] + b, keep);
        h + (Keep(a[1..], keep) + Keep(b, keep));
        (h + Keep(a[1..], keep)) + Keep(b, keep);
      }
    }
  }

  lemma {:induction false} KeepOfTrimLeft(s: string, keep: char -> bool)
    requires DropsSpaces(keep)
    ensures Keep(TrimLeft(s), keep) == Keep(s, keep)
  {
    if s != [] && IsSpace(s[0]) {
      KeepOfTrimLeft(s[1..], keep);
    }
  }

  lemma {:induction false} KeepOfTrimRight(s: string, keep: char -> bool)
    requires DropsSpaces(keep)
    ensures Keep(TrimRight(s), keep) == Keep(s, keep)
  {
    if s != [] && IsSpace(s[|s| - 1]) {
      var init := s[..|s| - 1];
      KeepOfTrimRight(init, keep);
      assert s == init + [s[|s| - 1]];
      KeepAppend(init, [s[|s| - 1]], keep);
    }
  }

  lemma {:induction false} KeepOfCollapseRun(s: string, inRun: bool, keep: char -> bool)
    requires DropsSpaces(keep)
    ensures Keep(CollapseRun(s, inRun), keep) == Keep(s, keep)
  {
    if s != [] {
      var sp := IsSpace(s[0]);
      KeepOfCollapseRun(s[1..], sp, keep);
      var head: string := if sp then (if inRun then [] else [' ']) else [s[0]];
      assert CollapseRun(s, inRun) == head + CollapseRun(s[1..], sp);
      KeepAppend(head, CollapseRun(s[1..], sp), keep);
      assert IsSpace(' ');
    }
  }

  /** `norm` only rewrites whitespace: every filter that drops whitespace sees the same characters before and after. */
  lemma KeepOfNorm(s: string, keep: char -> bool)
    requires DropsSpaces(keep)
    ensures Keep(NormText(s), keep) == Keep(s, keep)
  {
    KeepOfTrimRight(TrimLeft(Collapse(s)), keep);
    KeepOfTrimLeft(Collapse(s), keep);
    KeepOfCollapseRun(s, false, keep);
  }

  /** Normalising a cell never adds, drops or reorders a character other than whitespace. */
  lemma NonSpaceOfNorm(s: string)
    ensures NonSpace(NormText(s)) == NonSpace(s)
  {
    KeepOfNorm(s, c => !IsSpace(c));
  }

  /** Normalising a cell never adds, drops or reorders a digit. */
  lemma KeepDigitsOfNorm(s: string)
    ensures KeepDigits(NormText(s)) == KeepDigits(s)
  {
    forall c | IsSpace(c) ensures !IsDigit(c) {
      SpaceIsNotDigit(c);
    }
    KeepOfNorm(s, IsDigit);
  }

  // ---------------------------------------------------------------------------
  // re.sub(r"\(.*?\)", "", s)
  // ---------------------------------------------------------------------------

  /**
   * No `)` occurs in `t` before its first line break: a `(` just before `t`
   * opens no span the lazy pattern `\(.*?\)` can match (`.` skips `\n`).
   */
  predicate NoCloseBeforeNewline(t: string)
    decreases |t|
  {
    t == [] || t[0] == '\n' || (t[0] != ')' && NoCloseBeforeNewline(t[1..]))
  }

  /** `s` holds no `(`…`)` span without a line break inside it. */
  predicate NoParenSpan(s: string)
    decreases |s|
  {
    s == [] || ((s[0] == '(' ==> NoCloseBeforeNewline(s[1..])) && NoParenSpan(s[1..]))
  }

  /**
   * Where the lazy `.*?\)` that follows a `(` stops: the index in `t` of the
   * first `)`, provided no line break comes before it.
   */
  function FirstClose(t: string): (r: Option<nat>)
    ensures r.Some? ==> r.value < |t| && t[r.value] == ')'
  {
    if t == [] || t[0] == '\n' then None
    else if t[0] == ')' then Some(0)
    else match FirstClose(t[1..])
      case Some(j) => Some(j + 1)
      case None => None
  }

  /** The search finds nothing exactly when no `)` comes before the first line break. */
  lemma {:induction false} FirstCloseNone(t: string)
    ensures FirstClose(t).None? <==> NoCloseBeforeNewline(t)
  {
    if t != [] && t[0] != '\n' && t[0] != ')' {
      FirstCloseNone(t[1..]);
    }
  }

  /**
   * `re.sub(r"\(.*?\)", "", s)`: scanning left to right, each `(` that is
   * followed by a `)` on the same line is removed together with that first
   * `)` and everything between; the scan resumes after the `)`.
   */
  function StripParens(s: string): string
    decreases |s|
  {
    if s == [] then []
    else if s[0] == '(' then
      match FirstClose(s[1..])
      case Some(j) => StripParens(s[j + 2..])
      case None => [s[0]] + StripParens(s[1..])
    else [s[0]] + StripParens(s[1..])
  }

  lemma {:induction false} StripParensKeepsNoClose(t: string)
    requires NoCloseBeforeNewline(t)
    ensures NoCloseBeforeNewline(StripParens(t))
    decreases |t|
  {
    if t != [] && t[0] != '\n' {
      if t[0] == '(' {
        FirstCloseNone(t[1..]);
      }
      StripParensKeepsNoClose(t[1..]);
      assert StripParens(t) == [t[0]] + StripParens(t[1..]);
    }
  }

  /** After the rewrite no parenthesised span is left. */
  lemma {:induction false} StripParensClean(s: string)
    ensures NoParenSpan(StripParens(s))
    decreases |s|
  {
    if s != [] {
      if s[0] == '(' && FirstClose(s[1..]).Some? {
        StripParensClean(s[FirstClose(s[1..]).value + 2..]);
      } else {
        StripParensClean(s[1..]);
        if s[0] == '(' {
          FirstCloseNone(s[1..]);
          StripParensKeepsNoClose(s[1..]);
        }
        assert StripParens(s) == [s[0]] + StripParens(s[1..]);
      }
    }
  }

  /** A character other than `(` is kept, and the scan goes on after it. */
  lemma StripParensCons(c: char, t: string)
    requires c != '('
    ensures StripParens([c] + t) == [c] + StripParens(t)
  {
    assert ([c] + t)[0] == c && ([c] + t)[1..] == t;
  }

  /** Text before the first `(` is kept as it is. */
  lemma {:induction false} StripParensKeepsPlain(a: string, b: string)
    requires forall i :: 0 <= i < |a| ==> a[i] != '('
    ensures StripParens(a + b) == a + StripParens(b)
    decreases |a|
  {
    if a != [] {
      var c, a' := a[0], a[1..];
      assert a == [c] + a';
      assert forall i :: 0 <= i < |a'| ==> a'[i] == a[i + 1];
      StripParensKeepsPlain(a', b);
      StripParensCons(c, a' + b);
      assert a + b == [c] + (a' + b);
      assert [c] + (a' + StripParens(b)) == a + StripParens(b);
    } else {
      assert a + b == b && a + StripParens(b) == StripParens(b);
    }
  }

  lemma {:induction false} FirstCloseAt(m: string, rest: string)
    requires forall i :: 0 <= i < |m| ==> m[i] != ')' && m[i] != '\n'
    ensures FirstClose(m + ")" + rest) == Some(|m|)
    decreases |m|
  {
    if m != [] {
      FirstCloseAt(m[1..], rest);
      assert (m + ")" + rest)[1..] == m[1..] + ")" + rest;
    }
  }

  /** A span `(`…`)` with no `)` and no line break inside is removed whole, and the scan goes on after it. */
  lemma StripParensDropsSpan(m: string, b: string)
    requires forall i :: 0 <= i < |m| ==> m[i] != ')' && m[i] != '\n'
    ensures StripParens("(" + m + ")" + b) == StripParens(b)
  {
    var s := "(" + m + ")" + b;
    assert s[1..] == m + ")" + b;
    FirstCloseAt(m, b);
    assert s[|m| + 2..] == b;
  }

  /** A `(` with no `)` before the next line break is kept, and the scan goes on after it. */
  lemma StripParensKeepsUnclosed(b: string)
    requires NoCloseBeforeNewline(b)
    ensures StripParens("(" + b) == "(" + StripParens(b)
  {
    FirstCloseNone(b);
    assert ("(" + b)[1..] == b;
  }

  /** A string without `(` passes through unchanged. */
  lemma {:induction false} StripParensNoOpen(s: string)
    requires forall i :: 0 <= i < |s| ==> s[i] != '('
    ensures StripParens(s) == s
    decreases |s|
  {
    if s != [] {
      StripParensNoOpen(s[1..]);
    }
  }

  lemma {:induction false} NoCloseBeforeNewlinePrefix(t: string, k: nat)
    requires k <= |t| && NoCloseBeforeNewline(t)
    ensures NoCloseBeforeNewline(t[..k])
    decreases k
  {
    if k > 0 && t[0] != '\n' {
      assert t[..k][1..] == t[1..][..k - 1];
      NoCloseBeforeNewlinePrefix(t[1..], k - 1);
    }
  }

  lemma {:induction false} NoParenSpanPrefix(s: string, k: nat)
    requires k <= |s| && NoParenSpan(s)
    ensures NoParenSpan(s[..k])
    decreases k
  {
    if k > 0 {
      assert s[..k][1..] == s[1..][..k - 1];
      NoParenSpanPrefix(s[1..], k - 1);
      if s[0] == '(' {
        NoCloseBeforeNewlinePrefix(s[1..], k - 1);
      }
    }
  }

  lemma {:induction false} NoParenSpanSuffix(s: string, k: nat)
    requires k <= |s| && NoParenSpan(s)
    ensures NoParenSpan(s[k..])
    decreases k
  {
    if k > 0 {
      assert s[k..] == s[1..][k - 1..];
      NoParenSpanSuffix(s[1..], k - 1);
    }
  }

  /** Stripping whitespace cannot bring a parenthesised span back. */
  lemma StripKeepsNoParenSpan(s: string)
    requires NoParenSpan(s)
    ensures NoParenSpan(Strip(s))
  {
    var a, b := StripSlice(s);
    NoParenSpanSuffix(s, a);
    NoParenSpanPrefix(s[a..], b - a);
    assert s[a..][..b - a] == s[a..b];
  }

  // ---------------------------------------------------------------------------
  // str.lower() and str.replace(c, "")
  // ---------------------------------------------------------------------------

  function LowerChar(c: char): char {
    if 'A' <= c <= 'Z' then (c as int + 32) as char else c
  }

  /** `s.lower()`, restricted to the ASCII letters. */
  function Lower(s: string): (r: string)
    ensures |r| == |s|
    ensures forall i :: 0 <= i < |s| ==> r[i] == LowerChar(s[i])
  {
    seq(|s|, i requires 0 <= i < |s| => LowerChar(s[i]))
  }

  lemma LowerAppend(a: string, b: string)
    ensures Lower(a + b) == Lower(a) + Lower(b)
  {
  }

  /** `s.replace(c, "")`. */
  function Without(s: string, c: char): string {
    if s == [] then [] else (if s[0] == c then [] else [s[0]]) + Without(s[1..], c)
  }

  /** Removing a character that does not occur changes nothing. */
  lemma {:induction false} WithoutAbsent(s: string, c: char)
    requires forall i :: 0 <= i < |s| ==> s[i] != c
    ensures Without(s, c) == s
  {
    if s != [] {
      WithoutAbsent(s[1..], c);
    }
  }

  /** A normalised cell holds no line break, so `.replace("\n", "")` after `norm` is a no-op. */
  lemma WithoutNewlineAfterNorm(x: Option<string>)
    ensures Without(Norm(x), '\n') == Norm(x)
  {
    var s := Norm(x);
    NormNormal(x);
    forall i | 0 <= i < |s| ensures s[i] != '\n' {
      assert IsSpace(s[i]) ==> s[i] == ' ';
    }
    WithoutAbsent(s, '\n');
  }
}
