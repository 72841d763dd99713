/** The career-match engine of SkillAnalyzerGUI.java: the proficiency a
    profile holds for a required skill (`findSkillProficiency`), the status
    and score of the two required skills, and the text `runAnalysis` writes. */
module Matching {
  import opened Wrappers
  import opened JavaStrings
  import opened JavaIntegers
  import opened Skills

  /** A stored skill answers a query when its name equals the query ignoring
      case and its type equals the queried type exactly. The duplicate test
      of `addSkill` uses the same comparison. */
  predicate Matches(s: Skill, name: string, kind: string) {
    EqualsIgnoreCase(s.name, name) && s.kind == kind
  }

  predicate HasMatch(skills: seq<Skill>, name: string, kind: string) {
    exists i :: 0 <= i < |skills| && Matches(skills[i], name, kind)
  }

  /** The proficiency `findSkillProficiency` returns: that of the first
      matching skill, or 0 when none matches. */
  function Lookup(skills: seq<Skill>, name: string, kind: string): int {
    if skills == [] then 0
    else if Matches(skills[0], name, kind) then skills[0].proficiency
    else Lookup(skills[1..], name, kind)
  }

  /** A lookup finds the proficiency of some matching skill, and 0 only
      stands for "no match" when no skill matches. */
  lemma {:induction false} LookupSpec(skills: seq<Skill>, name: string, kind: string)
    ensures HasMatch(skills, name, kind) ==>
      exists i :: 0 <= i < |skills| && Matches(skills[i], name, kind) &&
        skills[i].proficiency == Lookup(skills, name, kind)
    ensures !HasMatch(skills, name, kind) ==> Lookup(skills, name, kind) == 0
  {
    if skills != [] && !Matches(skills[0], name, kind) {
      LookupSpec(skills[1..], name, kind);
      assert forall i :: 1 <= i < |skills| ==> skills[i] == skills[1..][i - 1];
      assert HasMatch(skills, name, kind) ==> HasMatch(skills[1..], name, kind);
      if HasMatch(skills, name, kind) {
        var i :| 0 <= i < |skills[1..]| && Matches(skills[1..][i], name, kind) &&
          skills[1..][i].proficiency == Lookup(skills, name, kind);
        assert skills[i + 1] == skills[1..][i];
      }
    }
  }

  /** The match that counts is the first one: later entries are never read. */
  lemma {:induction false} LookupFirst(skills: seq<Skill>, name: string, kind: string, i: int)
    requires 0 <= i < |skills| && Matches(skills[i], name, kind)
    requires forall j :: 0 <= j < i ==> !Matches(skills[j], name, kind)
    ensures Lookup(skills, name, kind) == skills[i].proficiency
  {
    if i > 0 {
      assert !Matches(skills[0], name, kind);
      assert skills[1..][i - 1] == skills[i];
      LookupFirst(skills[1..], name, kind, i - 1);
    }
  }

  /** Appending a skill changes a lookup only when nothing matched before. */
  lemma {:induction false} LookupAppend(skills: seq<Skill>, x: Skill, name: string, kind: string)
    ensures Lookup(skills + [x], name, kind) ==
      if HasMatch(skills, name, kind) then Lookup(skills, name, kind)
      else if Matches(x, name, kind) then x.proficiency
      else 0
  {
    var all := skills + [x];
    if skills == [] {
      assert all == [x] && all[1..] == [];
    } else {
      assert all[0] == skills[0] && all[1..] == skills[1..] + [x];
      if !Matches(skills[0], name, kind) {
        assert Lookup(all, name, kind) == Lookup(skills[1..] + [x], name, kind);
        assert Lookup(skills, name, kind) == Lookup(skills[1..], name, kind);
        LookupAppend(skills[1..], x, name, kind);
        assert HasMatch(skills, name, kind) ==> HasMatch(skills[1..], name, kind) by {
          if HasMatch(skills, name, kind) {
            var i :| 0 <= i < |skills| && Matches(skills[i], name, kind);
            assert skills[1..][i - 1] == skills[i];
          }
        }
        assert HasMatch(skills[1..], name, kind) ==> HasMatch(skills, name, kind) by {
          if HasMatch(skills[1..], name, kind) {
            var i :| 0 <= i < |skills[1..]| && Matches(skills[1..][i], name, kind);
            assert skills[i + 1] == skills[1..][i];
          }
        }
      }
    }
  }

  // ---------------------------------------------------------------------
  // Status and score
  // ---------------------------------------------------------------------

  const MetThreshold: int := 7

  predicate IsMet(p: int) {
    p >= MetThreshold
  }

  /** The status shown for a required skill. */
  function Status(p: int): (r: string)
    ensures r == "Met" <==> IsMet(p)
    ensures r == "Major Gap" <==> !IsMet(p)
  {
    if IsMet(p) then "Met" else "Major Gap"
  }

  /** 50 points for each required skill that is met. */
  function Score(techProficiency: int, softProficiency: int): (r: int)
    ensures r == 0 || r == 50 || r == 100
    ensures r == 100 <==> IsMet(techProficiency) && IsMet(softProficiency)
    ensures r == 0 <==> !IsMet(techProficiency) && !IsMet(softProficiency)
  {
    (if IsMet(techProficiency) then 50 else 0) + (if IsMet(softProficiency) then 50 else 0)
  }

  /** Adding a skill to a profile never lowers its score for a path. */
  lemma ScoreNeverDrops(skills: seq<Skill>, x: Skill, tech: string, soft: string)
    ensures Score(Lookup(skills + [x], tech, Technical), Lookup(skills + [x], soft, Soft)) >=
            Score(Lookup(skills, tech, Technical), Lookup(skills, soft, Soft))
  {
    LookupAppend(skills, x, tech, Technical);
    LookupAppend(skills, x, soft, Soft);
    LookupSpec(skills, tech, Technical);
    LookupSpec(skills, soft, Soft);
  }

  // ---------------------------------------------------------------------
  // The report
  // ---------------------------------------------------------------------

  /** What `runAnalysis` writes when no path is selected or the profile has no skills. */
  const Prompt: string := "Please select a path and add skills first."

  const Rule: string := "--------------------------------------------------\n"

  const ScoreMark: string := "Overall Match Score: "

  /** What follows the number on the score line. */
  const ScoreEnd: string := "%\n\n"

  const Title: string := "Career Match Score:\n"

  const RoadmapTitle: string := "\nPersonalized Roadmap:\n"

  /** `"Overall Match Score: %d%%\n\n"` followed by the section title. */
  function Opening(score: int): string {
    ScoreMark + (IntToString(score) + (ScoreEnd + Title))
  }

  /** `"%s Skill (%s): Status: %s (Prof: %d/10)\n"` for one required skill. */
  function StatusLine(caption: string, skill: string, status: string, p: int): string {
    caption + " Skill (" + skill + "): Status: " + status + " (Prof: " + IntToString(p) + "/10)\n"
  }

  /** The two status lines and the roadmap title, between the opening and the roadmap. */
  function Middle(tech: string, soft: string, tp: int, sp: int): string {
    Rule + StatusLine("Technical", tech, Status(tp), tp) + StatusLine("Soft", soft, Status(sp), sp) + RoadmapTitle + Rule
  }

  predicate StartsWith(r: string, head: string) {
    |head| <= |r| && r[..|head|] == head
  }

  predicate EndsWith(r: string, tail: string) {
    |tail| <= |r| && r[|r| - |tail|..] == tail
  }

  const GapMark: string := "-> GAP: "
  const StrengthMark: string := "-> STRENGTH: "

  /** `"-> GAP: %s. "`, the start of a gap line. */
  function GapHead(skill: string): string {
    GapMark + skill + ". "
  }

  /** `"-> STRENGTH: %s. "`, the start of a strength line. */
  function StrengthHead(skill: string): string {
    StrengthMark + skill + ". "
  }

  predicate IsGapLine(line: string, skill: string) {
    StartsWith(line, GapHead(skill))
  }

  predicate IsStrengthLine(line: string, skill: string) {
    StartsWith(line, StrengthHead(skill))
  }

  /** No line is both: the two marks differ at their fourth char. */
  lemma MarksExclusive(line: string, a: string, b: string)
    ensures !(IsGapLine(line, a) && IsStrengthLine(line, b))
  {
    if IsGapLine(line, a) && |StrengthHead(b)| <= |line| {
      assert line[3] == GapHead(a)[3] == 'G';
      assert StrengthHead(b)[3] == 'S';
    }
  }

  const TechGapText: string := "Start here: Begin with foundational courses to build a solid understanding.\n"
  const TechStrengthText: string := "Great job! Focus on advanced application and mentoring.\n"
  const SoftGapText: string := "Practice and apply these skills in team projects or leadership roles.\n"
  const SoftStrengthText: string := "Maintain and leverage this skill in professional settings.\n"

  /** The roadmap line for the technical skill. */
  function TechAdvice(skill: string, p: int): string {
    if !IsMet(p) then GapHead(skill) + TechGapText else StrengthHead(skill) + TechStrengthText
  }

  /** The roadmap line for the soft skill. */
  function SoftAdvice(skill: string, p: int): string {
    if !IsMet(p) then GapHead(skill) + SoftGapText else StrengthHead(skill) + SoftStrengthText
  }

  /** A skill gets a gap line exactly when it is not met, and a strength
      line exactly when it is. */
  lemma TechAdviceSpec(skill: string, p: int)
    ensures IsGapLine(TechAdvice(skill, p), skill) <==> !IsMet(p)
    ensures IsStrengthLine(TechAdvice(skill, p), skill) <==> IsMet(p)
  {
    var r := TechAdvice(skill, p);
    if IsMet(p) {
      PrefixOf(StrengthHead(skill), TechStrengthText, r);
    } else {
      PrefixOf(GapHead(skill), TechGapText, r);
    }
    MarksExclusive(r, skill, skill);
  }

  lemma SoftAdviceSpec(skill: string, p: int)
    ensures IsGapLine(SoftAdvice(skill, p), skill) <==> !IsMet(p)
    ensures IsStrengthLine(SoftAdvice(skill, p), skill) <==> IsMet(p)
  {
    var r := SoftAdvice(skill, p);
    if IsMet(p) {
      PrefixOf(StrengthHead(skill), SoftStrengthText, r);
    } else {
      PrefixOf(GapHead(skill), SoftGapText, r);
    }
    MarksExclusive(r, skill, skill);
  }

  /** The two roadmap lines, technical first; `TechAdviceSpec` and
      `SoftAdviceSpec` say which kind each one is. */
  function Roadmap(tech: string, soft: string, tp: int, sp: int): string {
    TechAdvice(tech, tp) + SoftAdvice(soft, sp)
  }

  /** The analysis text for required skills `tech` and `soft` held at
      proficiencies `tp` and `sp`, in the order it reads on screen. */
  function Analysis(tech: string, soft: string, tp: int, sp: int): string {
    Opening(Score(tp, sp)) + (Middle(tech, soft, tp, sp) + Roadmap(tech, soft, tp, sp))
  }

  /** The text `runAnalysis` writes for a path requiring `tech` and `soft`
      (already trimmed), looked up in the profile's skills. */
  function Report(tech: string, soft: string, skills: seq<Skill>): string {
    Analysis(tech, soft, Lookup(skills, tech, Technical), Lookup(skills, soft, Soft))
  }

  lemma PrefixOf(head: string, rest: string, r: string)
    requires r == head + rest
    ensures StartsWith(r, head)
  {
  }

  lemma SuffixOf(head: string, middle: string, tail: string, r: string)
    requires r == head + (middle + tail)
    ensures EndsWith(r, tail)
  {
    assert head + (middle + tail) == (head + middle) + tail;
  }

  /** The analysis opens with the score line and the section title. */
  lemma AnalysisHeader(tech: string, soft: string, tp: int, sp: int)
    ensures StartsWith(Analysis(tech, soft, tp, sp), ScoreMark + (IntToString(Score(tp, sp)) + (ScoreEnd + Title)))
  {
    PrefixOf(Opening(Score(tp, sp)), Middle(tech, soft, tp, sp) + Roadmap(tech, soft, tp, sp),
      Analysis(tech, soft, tp, sp));
  }

  /** The analysis closes with one roadmap line per required skill, technical first. */
  lemma AnalysisRoadmap(tech: string, soft: string, tp: int, sp: int)
    ensures EndsWith(Analysis(tech, soft, tp, sp), Roadmap(tech, soft, tp, sp))
  {
    SuffixOf(Opening(Score(tp, sp)), Middle(tech, soft, tp, sp), Roadmap(tech, soft, tp, sp),
      Analysis(tech, soft, tp, sp));
  }

  /** How many decimal digits `s` starts with. */
  function LeadingDigits(s: string): (k: nat)
    ensures k <= |s|
  {
    if s != [] && IsDigit(s[0]) then 1 + LeadingDigits(s[1..]) else 0
  }

  lemma {:induction false} LeadingDigitsOf(a: string, b: string)
    requires AllDigits(a) && (b == [] || !IsDigit(b[0]))
    ensures LeadingDigits(a + b) == |a|
  {
    if a != [] {
      assert (a + b)[0] == a[0];
      assert (a + b)[1..] == a[1..] + b;
      LeadingDigitsOf(a[1..], b);
    } else {
      assert a + b == b;
    }
  }

  /** Regrouping the nine pieces of the analysis text. */
  lemma Regroup9(m: string, n: string, pc: string, title: string, rule: string, t1: string, t2: string,
                 road: string, ta: string, sa: string)
    ensures m + (n + (pc + title)) + ((((rule + t1) + t2) + road) + rule + (ta + sa)) ==
      ((((m + n + pc + (((title + rule) + t1) + t2)) + road) + rule) + ta) + sa
  {
  }

  /** The analysis text in the order `runAnalysis` assembles it: the section
      title and the two status lines, then the score line put in front of
      them, then the roadmap title and the two roadmap lines. */
  lemma AnalysisAsBuilt(tech: string, soft: string, tp: int, sp: int)
    ensures Analysis(tech, soft, tp, sp) ==
      ((((ScoreMark + IntToString(Score(tp, sp)) + ScoreEnd +
          (((Title + Rule) + StatusLine("Technical", tech, Status(tp), tp)) +
            StatusLine("Soft", soft, Status(sp), sp))) +
        RoadmapTitle) + Rule) + TechAdvice(tech, tp)) + SoftAdvice(soft, sp)
  {
    Regroup9(ScoreMark, IntToString(Score(tp, sp)), ScoreEnd, Title, Rule,
      StatusLine("Technical", tech, Status(tp), tp), StatusLine("Soft", soft, Status(sp), sp),
      RoadmapTitle, TechAdvice(tech, tp), SoftAdvice(soft, sp));
  }

  /** Reads the percentage back from the first line of a report. */
  function ScoreOf(report: string): Option<int> {
    var mark := "Overall Match Score: ";
    if |report| < |mark| || report[..|mark|] != mark then None
    else
      var rest := report[|mark|..];
      var k := LeadingDigits(rest);
      if k < |rest| && rest[k] == '%' then ParseInt(rest[..k]) else None
  }

  /** A text that opens with the score mark, a non-negative number and a
      '%' reads back as that number. */
  lemma ScoreOfText(n: int, after: string, r: string)
    requires 0 <= n <= MaxInt
    requires after != [] && after[0] == '%'
    requires r == ScoreMark + (IntToString(n) + after)
    ensures ScoreOf(r) == Some(n)
  {
    var num := IntToString(n);
    assert r[..|ScoreMark|] == ScoreMark && r[|ScoreMark|..] == num + after;
    assert (num + after)[..|num|] == num;
    LeadingDigitsOf(num, after);
    ParseIntOfIntToString(n);
  }

  lemma Regroup(a: string, b: string, c: string, d: string, r: string)
    requires r == (a + (b + c)) + d
    ensures r == a + (b + (c + d))
  {
  }

  /** The score printed at the top of the analysis can be read back. */
  lemma AnalysisScore(tech: string, soft: string, tp: int, sp: int)
    ensures ScoreOf(Analysis(tech, soft, tp, sp)) == Some(Score(tp, sp))
  {
    var num := IntToString(Score(tp, sp));
    var title := ScoreEnd + Title;
    var rest := Middle(tech, soft, tp, sp) + Roadmap(tech, soft, tp, sp);
    assert Opening(Score(tp, sp)) == ScoreMark + (num + title);
    Regroup(ScoreMark, num, title, rest, Analysis(tech, soft, tp, sp));
    assert (title + rest)[0] == ScoreEnd[0] == '%';
    ScoreOfText(Score(tp, sp), title + rest, Analysis(tech, soft, tp, sp));
  }

  /** The report of a profile opens with the score of its two lookups, and
      that score reads back from the first line. */
  lemma ReportScore(tech: string, soft: string, skills: seq<Skill>)
    ensures var tp := Lookup(skills, tech, Technical);
      var sp := Lookup(skills, soft, Soft);
      ScoreOf(Report(tech, soft, skills)) == Some(Score(tp, sp)) &&
      StartsWith(Report(tech, soft, skills), ScoreMark + (IntToString(Score(tp, sp)) + (ScoreEnd + Title)))
  {
    var tp := Lookup(skills, tech, Technical);
    var sp := Lookup(skills, soft, Soft);
    AnalysisScore(tech, soft, tp, sp);
    AnalysisHeader(tech, soft, tp, sp);
  }

  /** The report of a profile closes with a gap or a strength line for each
      required skill, according to the proficiency the profile holds. */
  lemma ReportRoadmap(tech: string, soft: string, skills: seq<Skill>)
    ensures EndsWith(Report(tech, soft, skills),
      Roadmap(tech, soft, Lookup(skills, tech, Technical), Lookup(skills, soft, Soft)))
  {
    var tp := Lookup(skills, tech, Technical);
    var sp := Lookup(skills, soft, Soft);
    AnalysisRoadmap(tech, soft, tp, sp);
  }
}
