/**
 * The sentence list `process_single_pdf` (preprocess_pdfs.py) builds from
 * the five parsed sections: the course sentences from the basic-info dict,
 * one sentence per goal, the weekly sentences, one sentence for the
 * evaluation scheme and one per textbook field.
 */
module Synthesis {
  import opened Wrappers
  import opened Strings
  import opened Tables
  import opened Evaluation
  import opened Textbooks

  /** `info[k]` when `k in info`. */
  function Lookup(info: map<string, string>, k: string): Option<string> {
    if k in info then Some(info[k]) else None
  }

  /** The opening words of the four basic-info sentences; no two start alike. */
  const CourseOpen: string := "이 강의는 '"
  const TermOpen: string := "개설 학기는 "
  const AudienceOpen: string := "수강 대상은 "
  const OverviewOpen: string := "교과목 개요: "

  /** `b` occurs in `a + b + c`. */
  lemma ContainsMiddle(a: string, b: string, c: string)
    ensures Contains(a + b + c, b)
  {
    assert (a + b + c)[|a|..|a| + |b|] == b;
    ContainsAt(a + b + c, b, |a|);
  }

  /** The course sentence, with the professor clause when the professor is known. */
  function CourseSentence(name: string, prof: Option<string>): (r: string)
    ensures IsPrefix(CourseOpen, r) && Contains(r, name)
    ensures prof.Some? ==> Contains(r, " 담당 교수는 " + prof.value + "입니다.")
  {
    var base := CourseOpen + name + "' 과목입니다.";
    var clause := match prof
      case Some(p) => " 담당 교수는 " + p + "입니다."
      case None => "";
    ContainsMiddle(CourseOpen, name, "' 과목입니다." + clause);
    assert CourseOpen + name + ("' 과목입니다." + clause) == base + clause;
    ContainsMiddle(base, clause, "");
    assert base + clause + "" == base + clause;
    base + clause
  }

  function TermSentence(year: string, term: string): (r: string)
    ensures IsPrefix(TermOpen, r) && Contains(r, year) && Contains(r, term)
  {
    ContainsMiddle(TermOpen, year, " " + term + "입니다.");
    assert TermOpen + year + (" " + term + "입니다.") == TermOpen + year + " " + term + "입니다.";
    ContainsMiddle(TermOpen + year + " ", term, "입니다.");
    TermOpen + year + " " + term + "입니다."
  }

  function AudienceSentence(dept: string): (r: string)
    ensures IsPrefix(AudienceOpen, r) && Contains(r, dept)
  {
    ContainsMiddle(AudienceOpen, dept, "입니다.");
    AudienceOpen + dept + "입니다."
  }

  function OverviewSentence(overview: string): (r: string)
    ensures IsPrefix(OverviewOpen, r) && Contains(r, overview)
  {
    ContainsMiddle(OverviewOpen, overview, "");
    assert OverviewOpen + overview + "" == OverviewOpen + overview;
    OverviewOpen + overview
  }

  function GoalSentence(g: string): string {
    "교육목표: " + g
  }

  function CoursePart(info: map<string, string>): seq<string> {
    if "강좌명" in info then [CourseSentence(info["강좌명"], Lookup(info, "담당교수"))] else []
  }

  function TermPart(info: map<string, string>): seq<string> {
    if "년도" in info && "학기" in info then [TermSentence(info["년도"], info["학기"])] else []
  }

  function AudiencePart(info: map<string, string>): seq<string> {
    if "수강대상학과" in info then [AudienceSentence(info["수강대상학과"])] else []
  }

  function OverviewPart(info: map<string, string>): seq<string> {
    if "교과목 개요" in info then [OverviewSentence(info["교과목 개요"])] else []
  }

  /** The sentences drawn from the basic-info dict, in the order course, term, audience, overview. */
  function Prelude(info: map<string, string>): (r: seq<string>)
    ensures |r| <= 4
  {
    CoursePart(info) + TermPart(info) + AudiencePart(info) + OverviewPart(info)
  }

  /** Some sentence of `r` starts with `open`. */
  predicate Opened(r: seq<string>, open: string) {
    exists i :: 0 <= i < |r| && IsPrefix(open, r[i])
  }

  lemma OpenedAppend(a: seq<string>, b: seq<string>, open: string)
    ensures Opened(a + b, open) <==> Opened(a, open) || Opened(b, open)
  {
    if Opened(a + b, open) {
      var i :| 0 <= i < |a + b| && IsPrefix(open, (a + b)[i]);
      if i < |a| {
        assert (a + b)[i] == a[i];
      } else {
        assert (a + b)[i] == b[i - |a|];
      }
    }
    if Opened(a, open) {
      var i :| 0 <= i < |a| && IsPrefix(open, a[i]);
      assert (a + b)[i] == a[i];
    }
    if Opened(b, open) {
      var i :| 0 <= i < |b| && IsPrefix(open, b[i]);
      assert (a + b)[|a| + i] == b[i];
    }
  }

  lemma Opened4(a: seq<string>, b: seq<string>, c: seq<string>, d: seq<string>, open: string)
    ensures Opened(a + b + c + d, open) <==> Opened(a, open) || Opened(b, open) || Opened(c, open) || Opened(d, open)
  {
    OpenedAppend(a + b + c, d, open);
    OpenedAppend(a + b, c, open);
    OpenedAppend(a, b, open);
  }

  /**
   * A part of at most one sentence that starts with `own` is opened by
   * `own` exactly when it is not empty, and never by an opening whose
   * first character differs.
   */
  lemma OnlyOpens(part: seq<string>, own: string, open: string)
    requires |part| <= 1 && (part != [] ==> IsPrefix(own, part[0])) && own != [] && open != []
    ensures open == own ==> (Opened(part, open) <==> part != [])
    ensures own[0] != open[0] ==> !Opened(part, open)
  {
    if part != [] {
      var s := part[0];
      assert s[0] == s[..|own|][0];
    }
  }

  /**
   * Which basic-info sentences appear: the course sentence exactly when the
   * course name is known, the term sentence exactly when both the year and
   * the term are known, the audience and overview sentences exactly when
   * their field is known; each is the sentence of its field values, and
   * the course sentence comes first, with the professor clause exactly
   * when the professor is known.
   */
  lemma PreludeContents(info: map<string, string>)
    ensures var r := Prelude(info);
      ("강좌명" in info <==> Opened(r, CourseOpen))
      && ("년도" in info && "학기" in info <==> Opened(r, TermOpen))
      && ("수강대상학과" in info <==> Opened(r, AudienceOpen))
      && ("교과목 개요" in info <==> Opened(r, OverviewOpen))
    ensures var r := Prelude(info);
      ("강좌명" in info ==> r[0] == CourseSentence(info["강좌명"], Lookup(info, "담당교수")))
      && (Lookup(info, "담당교수").Some? <==> "담당교수" in info)
      && ("년도" in info && "학기" in info ==> TermSentence(info["년도"], info["학기"]) in r)
      && ("수강대상학과" in info ==> AudienceSentence(info["수강대상학과"]) in r)
      && ("교과목 개요" in info ==> OverviewSentence(info["교과목 개요"]) in r)
  {
    var a, b, c, d := CoursePart(info), TermPart(info), AudiencePart(info), OverviewPart(info);
    OpenedParts(a, b, c, d, CourseOpen);
    OpenedParts(a, b, c, d, TermOpen);
    OpenedParts(a, b, c, d, AudienceOpen);
    OpenedParts(a, b, c, d, OverviewOpen);
  }

  /** The four parts, each opened by its own opening only, seen through one opening. */
  lemma OpenedParts(a: seq<string>, b: seq<string>, c: seq<string>, d: seq<string>, open: string)
    requires |a| <= 1 && (a != [] ==> IsPrefix(CourseOpen, a[0]))
    requires |b| <= 1 && (b != [] ==> IsPrefix(TermOpen, b[0]))
    requires |c| <= 1 && (c != [] ==> IsPrefix(AudienceOpen, c[0]))
    requires |d| <= 1 && (d != [] ==> IsPrefix(OverviewOpen, d[0]))
    requires open == CourseOpen || open == TermOpen || open == AudienceOpen || open == OverviewOpen
    ensures open == CourseOpen ==> (Opened(a + b + c + d, open) <==> a != [])
    ensures open == TermOpen ==> (Opened(a + b + c + d, open) <==> b != [])
    ensures open == AudienceOpen ==> (Opened(a + b + c + d, open) <==> c != [])
    ensures open == OverviewOpen ==> (Opened(a + b + c + d, open) <==> d != [])
  {
    Opened4(a, b, c, d, open);
    OnlyOpens(a, CourseOpen, open);
    OnlyOpens(b, TermOpen, open);
    OnlyOpens(c, AudienceOpen, open);
    OnlyOpens(d, OverviewOpen, open);
  }

  function GoalSentences(goals: seq<string>): (r: seq<string>)
    ensures |r| == |goals|
  {
    if goals == [] then [] else GoalSentences(goals[..|goals| - 1]) + [GoalSentence(goals[|goals| - 1])]
  }

  /** `int(x)` on a finite number: rounds toward zero. */
  function Trunc(x: real): (r: int)
    ensures 0.0 <= x ==> 0 <= r && r as real <= x < r as real + 1.0
    ensures x < 0.0 ==> r <= 0 && r as real - 1.0 < x <= r as real
  {
    if x >= 0.0 then x.Floor else -((-x).Floor)
  }

  /** `if v["ratio"]`: the ratio parsed and is not zero. */
  predicate Counts(e: Entry) {
    e.ratio.Some? && e.ratio.value != 0.0
  }

  /** f"{k} {int(v['ratio']*100)}%". */
  function Part(k: string, e: Entry): string
    requires e.ratio.Some?
  {
    k + " " + IntToString(Trunc(e.ratio.value * 100.0)) + "%"
  }

  /** The items whose ratio counts, in key order. */
  function Counted(keys: seq<string>, entries: map<string, Entry>): seq<string> {
    if keys == [] then []
    else
      var k := keys[|keys| - 1];
      Counted(keys[..|keys| - 1], entries) + (if k in entries && Counts(entries[k]) then [k] else [])
  }

  /** The evaluation parts, one per counted item, in key order. */
  function Parts(keys: seq<string>, entries: map<string, Entry>): (r: seq<string>)
    ensures |r| == |Counted(keys, entries)|
  {
    if keys == [] then []
    else
      var k := keys[|keys| - 1];
      Parts(keys[..|keys| - 1], entries) + (if k in entries && Counts(entries[k]) then [Part(k, entries[k])] else [])
  }

  /** The evaluation sentence, present only when some item counts. */
  function EvalSentence(d: EvalDict): (r: seq<string>)
    ensures |r| <= 1
  {
    var parts := Parts(d.keys, d.entries);
    if parts == [] then [] else ["이 강의의 성적 평가는 " + Join(parts, ", ") + "로 반영됩니다."]
  }

  /** The sentence for one textbook field. */
  function SlotSentence(s: Slot, v: string): string {
    match s
    case MainText => "주교재는 " + v + "입니다."
    case Reference => "참고교재로는 " + v + " 등이 사용됩니다."
    case Preparation => "학습 준비 사항: " + v + "."
    case Notice => "수강 시 유의할 점: " + v + "."
  }

  /** The sentence for a field when it is set and not empty. */
  function SlotSentences(texts: TextbookInfo, s: Slot): (r: seq<string>)
    ensures |r| <= 1
  {
    match texts.Get(s)
    case Some(v) => if v != "" then [SlotSentence(s, v)] else []
    case None => []
  }

  function TextSentences(texts: TextbookInfo): (r: seq<string>)
    ensures |r| <= 4
  {
    SlotSentences(texts, MainText) + SlotSentences(texts, Reference)
    + SlotSentences(texts, Preparation) + SlotSentences(texts, Notice)
  }

  /** The whole sentence list, section by section. */
  function AllSentences(info: map<string, string>, goals: seq<string>, weekly: seq<string>,
                        d: EvalDict, texts: TextbookInfo): seq<string> {
    Prelude(info) + GoalSentences(goals) + weekly + EvalSentence(d) + TextSentences(texts)
  }

  /**
   * The goal and weekly sentences appear, in order and unchanged, right
   * after the at most four basic-info sentences; after them come at most
   * one evaluation sentence and at most four textbook sentences.
   */
  lemma Layout(info: map<string, string>, goals: seq<string>, weekly: seq<string>, d: EvalDict, texts: TextbookInfo)
    ensures var all := AllSentences(info, goals, weekly, d, texts); var off := |Prelude(info)|;
      off <= 4 && off + |goals| + |weekly| <= |all| <= off + |goals| + |weekly| + 5
      && (forall i :: 0 <= i < |goals| ==> all[off + i] == "교육목표: " + goals[i])
      && all[off + |goals|..off + |goals| + |weekly|] == weekly
  {
    forall i | 0 <= i < |goals| ensures GoalSentences(goals)[i] == "교육목표: " + goals[i] {
      GoalSentencesAt(goals, i);
    }
    Sections(Prelude(info), GoalSentences(goals), weekly, EvalSentence(d), TextSentences(texts));
  }

  /** Where the second and third of five concatenated parts sit. */
  lemma Sections<T>(a: seq<T>, b: seq<T>, c: seq<T>, d: seq<T>, e: seq<T>)
    ensures var all := a + b + c + d + e;
      |all| == |a| + |b| + |c| + |d| + |e|
      && (forall i :: 0 <= i < |b| ==> all[|a| + i] == b[i])
      && all[|a| + |b|..|a| + |b| + |c|] == c
  {
    var all := a + b + c + d + e;
    assert all == (a + b + c) + (d + e);
    assert all[|a| + |b|..|a| + |b| + |c|] == (a + b + c)[|a| + |b|..];
  }

  lemma {:induction false} GoalSentencesAt(goals: seq<string>, i: nat)
    requires i < |goals|
    ensures GoalSentences(goals)[i] == "교육목표: " + goals[i]
    decreases |goals|
  {
    if i < |goals| - 1 {
      GoalSentencesAt(goals[..|goals| - 1], i);
    }
  }

  /** The evaluation sentence is left out exactly when no item's ratio counts. */
  lemma EvalSentenceOmitted(d: EvalDict)
    ensures EvalSentence(d) == [] <==> forall k :: k in d.keys && k in d.entries ==> !Counts(d.entries[k])
  {
    CountedMember(d.keys, d.entries);
    var c := Counted(d.keys, d.entries);
    if c != [] {
      assert c[0] in c;
    }
  }

  /** The counted items are exactly the keys with a value whose ratio counts. */
  lemma {:induction false} CountedMember(keys: seq<string>, entries: map<string, Entry>)
    ensures forall k :: k in Counted(keys, entries) <==> k in keys && k in entries && Counts(entries[k])
    decreases |keys|
  {
    if keys != [] {
      CountedMember(keys[..|keys| - 1], entries);
      assert keys == keys[..|keys| - 1] + [keys[|keys| - 1]];
    }
  }

  /** Each counted item's part, in the order of the keys: part `i` belongs to the `i`-th counted item. */
  lemma {:induction false} PartsAt(keys: seq<string>, entries: map<string, Entry>, i: nat)
    requires i < |Parts(keys, entries)|
    ensures var k := Counted(keys, entries)[i];
      k in entries && Counts(entries[k]) && Parts(keys, entries)[i] == Part(k, entries[k])
    decreases |keys|
  {
    var init := keys[..|keys| - 1];
    if i < |Parts(init, entries)| {
      PartsAt(init, entries, i);
    }
  }

  /** Every counted item is named in the evaluation sentence with its percentage. */
  lemma EvalSentenceMentions(d: EvalDict, k: string)
    requires k in d.keys && k in d.entries && Counts(d.entries[k])
    ensures |EvalSentence(d)| == 1 && Contains(EvalSentence(d)[0], Part(k, d.entries[k]))
  {
    CountedMember(d.keys, d.entries);
    var c := Counted(d.keys, d.entries);
    var i :| 0 <= i < |c| && c[i] == k;
    PartsAt(d.keys, d.entries, i);
    var parts := Parts(d.keys, d.entries);
    var a, b := JoinHasPart(parts, ", ", i);
    ContainsAt(a + parts[i] + b, parts[i], |a|);
    ContainsInside("이 강의의 성적 평가는 ", Join(parts, ", "), "로 반영됩니다.", parts[i]);
  }

  /**
   * The percentage printed for a row is `int()` of the number written in its
   * ratio cell: dividing by 100 in `parse_eval` and multiplying by 100 here
   * cancel on exact numbers.
   */
  lemma RatioPrinted(er: EvalRow, parse: FloatParser)
    requires RowEntry(er, parse).ratio.Some?
    ensures parse(er.ratio).Some?
    ensures Trunc(RowEntry(er, parse).ratio.value * 100.0) == Trunc(parse(er.ratio).value)
    ensures Counts(RowEntry(er, parse)) <==> parse(er.ratio).value != 0.0
  {
  }

  /** A textbook sentence appears exactly when its field is set and not empty. */
  lemma SlotSentencePresent(texts: TextbookInfo, s: Slot)
    ensures SlotSentences(texts, s) != [] <==> texts.Get(s).Some? && texts.Get(s).value != ""
  {
  }

  lemma GoalSentencesStep(goals: seq<string>, i: nat)
    requires i < |goals|
    ensures GoalSentences(goals[..i + 1]) == GoalSentences(goals[..i]) + [GoalSentence(goals[i])]
  {
    assert goals[..i + 1][..i] == goals[..i];
  }

  /** Lines 173-186: the sentences drawn from the basic-info dict. */
  method PreludeSentences(info: map<string, string>) returns (sentences: seq<string>)
    ensures sentences == Prelude(info)
  {
    sentences := [];
    if "강좌명" in info {
      sentences := sentences + [CourseSentence(info["강좌명"], Lookup(info, "담당교수"))];
    }
    if "년도" in info && "학기" in info {
      sentences := sentences + [TermSentence(info["년도"], info["학기"])];
    }
    if "수강대상학과" in info {
      sentences := sentences + [AudienceSentence(info["수강대상학과"])];
    }
    if "교과목 개요" in info {
      sentences := sentences + [OverviewSentence(info["교과목 개요"])];
    }
  }

  /** Lines 188-189: one sentence per goal. */
  method AppendGoalSentences(sentences0: seq<string>, goals: seq<string>) returns (sentences: seq<string>)
    ensures sentences == sentences0 + GoalSentences(goals)
  {
    sentences := sentences0;
    for i := 0 to |goals|
      invariant sentences == sentences0 + GoalSentences(goals[..i])
    {
      GoalSentencesStep(goals, i);
      sentences := sentences + [GoalSentence(goals[i])];
    }
    assert goals[..|goals|] == goals;
  }

  /** Lines 171-204 of `process_single_pdf`: the sentence list, appended to section by section. */
  method BuildSentences(info: map<string, string>, goals: seq<string>, weekly: seq<string>,
                        d: EvalDict, texts: TextbookInfo) returns (sentences: seq<string>)
    ensures sentences == AllSentences(info, goals, weekly, d, texts)
  {
    sentences := PreludeSentences(info);
    sentences := AppendGoalSentences(sentences, goals);
    sentences := sentences + weekly;
    var parts := Parts(d.keys, d.entries);
    if parts != [] {
      sentences := sentences + ["이 강의의 성적 평가는 " + Join(parts, ", ") + "로 반영됩니다."];
    }
    sentences := AppendSlots(sentences, texts);
  }

  /** One of lines 197-204: the sentence of a field that is set and not empty. */
  method AppendSlot(sentences0: seq<string>, texts: TextbookInfo, s: Slot) returns (sentences: seq<string>)
    ensures sentences == sentences0 + SlotSentences(texts, s)
  {
    sentences := sentences0;
    var v := texts.Get(s);
    if v.Some? && v.value != "" {
      sentences := sentences + [SlotSentence(s, v.value)];
    }
  }

  /** Lines 197-204: the textbook sentences, in the order main text, reference, preparation, notice. */
  method AppendSlots(sentences0: seq<string>, texts: TextbookInfo) returns (sentences: seq<string>)
    ensures sentences == sentences0 + TextSentences(texts)
  {
    sentences := AppendSlot(sentences0, texts, MainText);
    sentences := AppendSlot(sentences, texts, Reference);
    sentences := AppendSlot(sentences, texts, Preparation);
    sentences := AppendSlot(sentences, texts, Notice);
  }
}
