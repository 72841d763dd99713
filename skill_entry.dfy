/** The rules of the profile page of SkillAnalyzerGUI.java: which skills
    `addSkill` accepts, and what the remove handler's `removeIf` deletes. */
module SkillEntry {
  import opened Wrappers
  import opened JavaStrings
  import opened JavaIntegers
  import opened Skills
  import opened Messages
  import opened Matching

  /** The two entries of the type combo box. */
  predicate IsSkillType(kind: string) {
    kind == Technical || kind == Soft
  }

  /** A name and proficiency `addSkill` lets through. */
  predicate IsValidEntry(name: string, proficiency: int) {
    name != [] && 1 <= proficiency <= 10
  }

  /** Why `addSkill` refuses its input, if it does; the tests run in the
      handler's order: the number first (the parse throws before anything is
      checked), then the name and range, then the duplicate scan. */
  function Rejection(skills: seq<Skill>, nameText: string, kind: string, proficiencyText: string): (r: Option<Failure>)
    ensures r.None? <==>
      ParseInt(Trim(proficiencyText)).Some? &&
      IsValidEntry(Trim(nameText), ParseInt(Trim(proficiencyText)).value) &&
      !HasMatch(skills, Trim(nameText), kind)
    ensures r == Some(NotANumber) <==> ParseInt(Trim(proficiencyText)).None?
    ensures r == Some(InvalidSkill) <==>
      ParseInt(Trim(proficiencyText)).Some? &&
      !IsValidEntry(Trim(nameText), ParseInt(Trim(proficiencyText)).value)
    ensures r == Some(DuplicateSkill) <==>
      ParseInt(Trim(proficiencyText)).Some? &&
      IsValidEntry(Trim(nameText), ParseInt(Trim(proficiencyText)).value) &&
      HasMatch(skills, Trim(nameText), kind)
    ensures r.Some? ==> r.value == NotANumber || r.value == InvalidSkill || r.value == DuplicateSkill
  {
    var name := Trim(nameText);
    match ParseInt(Trim(proficiencyText))
    case None => Some(NotANumber)
    case Some(p) =>
      if !IsValidEntry(name, p) then Some(InvalidSkill)
      else if HasMatch(skills, name, kind) then Some(DuplicateSkill)
      else None
  }

  /** No two entries share a name up to case and a type: the list `addSkill`
      keeps by refusing duplicates. */
  predicate DuplicateFree(skills: seq<Skill>) {
    forall i, j :: 0 <= i < j < |skills| ==> !Matches(skills[i], skills[j].name, skills[j].kind)
  }

  /** A stored entry as `addSkill` makes it: a trimmed non-empty name, a
      type from the combo box and a proficiency in 1..10. */
  predicate WellFormed(s: Skill) {
    IsTrimmed(s.name) && IsValidEntry(s.name, s.proficiency) && IsSkillType(s.kind)
  }

  /** What every profile's list satisfies while the GUI runs. */
  predicate ProfileInvariant(skills: seq<Skill>) {
    DuplicateFree(skills) && forall i :: 0 <= i < |skills| ==> WellFormed(skills[i])
  }

  /** An accepted entry keeps the list free of duplicates and well formed. */
  lemma AcceptKeepsInvariant(skills: seq<Skill>, nameText: string, kind: string, proficiencyText: string)
    requires ProfileInvariant(skills) && IsSkillType(kind)
    requires Rejection(skills, nameText, kind, proficiencyText).None?
    ensures ProfileInvariant(skills + [Skill(Trim(nameText), kind, ParseInt(Trim(proficiencyText)).value)])
  {
    var x := Skill(Trim(nameText), kind, ParseInt(Trim(proficiencyText)).value);
    var all := skills + [x];
    assert forall i :: 0 <= i < |skills| ==> all[i] == skills[i];
    assert all[|skills|] == x;
    assert forall i :: 0 <= i < |skills| ==> !Matches(all[i], x.name, x.kind);
  }

  // ---------------------------------------------------------------------
  // removeIf
  // ---------------------------------------------------------------------

  /** `removeIf` compares exactly: the same name, case included, and the same type. */
  predicate SameEntry(s: Skill, target: Skill) {
    s.name == target.name && s.kind == target.kind
  }

  /** `skills.removeIf(s -> same name and type as target)`. */
  function RemoveMatching(skills: seq<Skill>, target: Skill): (r: seq<Skill>)
    ensures |r| <= |skills|
  {
    if skills == [] then []
    else
      var rest := RemoveMatching(skills[1..], target);
      if SameEntry(skills[0], target) then rest else [skills[0]] + rest
  }

  /** What is kept is exactly the entries that are not the same as the target. */
  lemma {:induction false} RemoveMatchingMembers(skills: seq<Skill>, target: Skill)
    ensures forall x :: x in RemoveMatching(skills, target) <==> x in skills && !SameEntry(x, target)
  {
    if skills != [] {
      RemoveMatchingMembers(skills[1..], target);
      assert forall x :: x in skills <==> x == skills[0] || x in skills[1..];
    }
  }

  /** Removal works entry by entry, so the kept entries stay in order. */
  lemma {:induction false} RemoveMatchingAppend(a: seq<Skill>, b: seq<Skill>, target: Skill)
    ensures RemoveMatching(a + b, target) == RemoveMatching(a, target) + RemoveMatching(b, target)
  {
    if a != [] {
      assert (a + b)[0] == a[0];
      assert (a + b)[1..] == a[1..] + b;
      RemoveMatchingAppend(a[1..], b, target);
    } else {
      assert a + b == b;
    }
  }

  /** Nothing is removed when nothing matches exactly. */
  lemma {:induction false} RemoveMatchingNone(skills: seq<Skill>, target: Skill)
    requires forall i :: 0 <= i < |skills| ==> !SameEntry(skills[i], target)
    ensures RemoveMatching(skills, target) == skills
  {
    if skills != [] {
      RemoveMatchingNone(skills[1..], target);
      assert skills == [skills[0]] + skills[1..];
    }
  }

  /** Removing twice removes nothing more. */
  lemma RemoveMatchingIdempotent(skills: seq<Skill>, target: Skill)
    ensures RemoveMatching(RemoveMatching(skills, target), target) == RemoveMatching(skills, target)
  {
    var r := RemoveMatching(skills, target);
    RemoveMatchingMembers(skills, target);
    assert forall i :: 0 <= i < |r| ==> r[i] in r;
    RemoveMatchingNone(r, target);
  }

  /** Exact equality of name and type implies a match ignoring case. */
  lemma SameEntryMatches(s: Skill, t: Skill)
    requires SameEntry(s, t)
    ensures Matches(s, t.name, t.kind) && Matches(t, s.name, s.kind)
  {
  }

  /** In a list free of duplicates, no other entry is the same as the one at `i`. */
  lemma OnlyOneSame(skills: seq<Skill>, i: int, j: int)
    requires DuplicateFree(skills) && 0 <= i < |skills| && 0 <= j < |skills| && i != j
    ensures !SameEntry(skills[j], skills[i])
  {
    if SameEntry(skills[j], skills[i]) {
      SameEntryMatches(skills[j], skills[i]);
    }
  }

  /** Nothing before the entry at `i` is the same as it. */
  lemma KeepsBefore(skills: seq<Skill>, i: int)
    requires DuplicateFree(skills) && 0 <= i < |skills|
    ensures RemoveMatching(skills[..i], skills[i]) == skills[..i]
  {
    var before := skills[..i];
    forall j | 0 <= j < |before|
      ensures !SameEntry(before[j], skills[i])
    {
      OnlyOneSame(skills, i, j);
    }
    RemoveMatchingNone(before, skills[i]);
  }

  /** Nothing after the entry at `i` is the same as it. */
  lemma KeepsAfter(skills: seq<Skill>, i: int)
    requires DuplicateFree(skills) && 0 <= i < |skills|
    ensures RemoveMatching(skills[i + 1..], skills[i]) == skills[i + 1..]
  {
    var after := skills[i + 1..];
    forall j | 0 <= j < |after|
      ensures !SameEntry(after[j], skills[i])
    {
      assert after[j] == skills[i + 1 + j];
      OnlyOneSame(skills, i, i + 1 + j);
    }
    RemoveMatchingNone(after, skills[i]);
  }

  /** Removal around one entry the target is the same as. */
  lemma RemoveAround(before: seq<Skill>, target: Skill, after: seq<Skill>)
    requires RemoveMatching(before, target) == before
    requires RemoveMatching(after, target) == after
    ensures RemoveMatching(before + ([target] + after), target) == before + after
  {
    RemoveMatchingAppend(before, [target] + after, target);
    RemoveMatchingAppend([target], after, target);
    assert RemoveMatching([target], target) == [] by {
      assert [target][1..] == [];
    }
  }

  /** In a list free of duplicates, removing what matches the entry at
      `i` exactly deletes that entry and no other. */
  lemma RemoveSelected(skills: seq<Skill>, i: int)
    requires DuplicateFree(skills) && 0 <= i < |skills|
    ensures RemoveMatching(skills, skills[i]) == skills[..i] + skills[i + 1..]
  {
    var before, target, after := skills[..i], skills[i], skills[i + 1..];
    KeepsBefore(skills, i);
    KeepsAfter(skills, i);
    RemoveAround(before, target, after);
    SplitAt(skills, i);
  }

  lemma SplitAt(s: seq<Skill>, i: int)
    requires 0 <= i < |s|
    ensures s == s[..i] + ([s[i]] + s[i + 1..])
  {
  }

  /** Deleting one entry keeps the profile invariant. */
  lemma DropKeepsInvariant(skills: seq<Skill>, i: int)
    requires ProfileInvariant(skills) && 0 <= i < |skills|
    ensures ProfileInvariant(skills[..i] + skills[i + 1..])
  {
    var r := skills[..i] + skills[i + 1..];
    assert forall k :: 0 <= k < |r| ==> r[k] == skills[if k < i then k else k + 1];
  }
}
