/** The state and the event handlers of SkillAnalyzerGUI.java, without the
    Swing widgets: the registered users, the logged-in profile, the entries
    of the skill list on the profile page and the text of the report area.
    Each handler takes the widget contents it reads as parameters. */
module Gui {
  import opened Wrappers
  import opened JavaStrings
  import opened JavaIntegers
  import opened Skills
  import opened Profiles
  import opened CareerPaths
  import opened Messages
  import opened Matching
  import opened SkillEntry
  import opened Accounts

  /** The table of the `CareerPathLoader` nested in the GUI class, which is
      the one the constructor's call resolves to. */
  const BuiltInCareerPaths: map<string, Requirement> := map[
    "Data Scientist" := Requirement("Python", "Communication"),
    "Software Engineer" := Requirement("Java", "Problem Solving"),
    "Robotics Engineer" := Requirement("Control Systems", "Teamwork"),
    "Cybersecurity Analyst" := Requirement("Networking", "Critical Thinking"),
    "AI Engineer" := Requirement("Deep Learning", "Communication"),
    "Machine Learning Engineer" := Requirement("Deep Learning", "Communication"),
    "Application Developer" := Requirement("Java/HTML/CSS", "problem Solving"),
    "Full Stack Web Developer" := Requirement("JavaScript", "Teamwork"),
    "Automation Engineer" := Requirement("Control Systems", "Teamwork"),
    "IOT (Internet of Things) Engineer" := Requirement("Embedded Systems", "Critical Thinking"),
    "UX Designer" := Requirement("Figma", "Empathy"),
    "Marketing Specialist" := Requirement("SEO", "Creativity")
  ]

  class SkillAnalyzer {
    /** `careerPaths`, filled once by the constructor. */
    const careerPaths: map<string, Requirement>
    /** `registeredUsers`: user id to profile. */
    var registeredUsers: map<string, UserProfile>
    /** `currentUserProfile`; null while nobody is logged in. */
    var currentUser: UserProfile?
    /** The entries of `skillListModel`, the list on the profile page. */
    var shown: seq<Skill>
    /** The text of `reportArea`. */
    var report: string

    /** Every profile is filed under its own id and keeps the entry rules of
        `addSkill`; the list on the profile page shows the logged-in
        profile's skills, and is empty while nobody is logged in. */
    predicate Valid()
      reads this, registeredUsers.Values, currentUser
    {
      (forall id | id in registeredUsers ::
        registeredUsers[id].userId == id && ProfileInvariant(registeredUsers[id].skills)) &&
      (currentUser != null ==> currentUser in registeredUsers.Values && shown == currentUser.skills) &&
      (currentUser == null ==> shown == [])
    }

    /** The users loaded at start-up: the nested `UserPersistence.loadUsers`
        the constructor calls returns an empty map. */
    constructor ()
      ensures Valid()
      ensures careerPaths == BuiltInCareerPaths && registeredUsers == map[]
      ensures currentUser == null && shown == [] && report == []
    {
      careerPaths := BuiltInCareerPaths;
      registeredUsers := map[];
      currentUser := null;
      shown := [];
      report := [];
    }

    /** `generateUserId`: draws until the candidate id is not registered yet.
        `draws` are the successive values of `nextInt(9000)`; the caller
        promises that one of them gives a free id. */
    method GenerateUserId(fullName: string, draws: seq<int>) returns (id: string)
      requires AreDraws(draws)
      requires IssuedId(registeredUsers.Keys, fullName, draws).Some?
      ensures IssuedId(registeredUsers.Keys, fullName, draws) == Some(id)
      ensures id !in registeredUsers
    {
      var clean := RemoveWhitespace(fullName);
      var prefix := IdPrefix(clean);
      var i := 0;
      id := prefix + clean + IntToString(draws[0] + 1000);
      while id in registeredUsers
        invariant 0 <= i < |draws|
        invariant id == CandidateId(fullName, draws[i])
        invariant IssuedId(registeredUsers.Keys, fullName, draws) == IssuedId(registeredUsers.Keys, fullName, draws[i..])
        decreases |draws| - i
      {
        assert draws[i..][1..] == draws[i + 1..];
        i := i + 1;
        id := prefix + clean + IntToString(draws[i] + 1000);
      }
    }

    /** The register button: checks the trimmed name and the password, then
        files a new profile under a fresh id. */
    method Register(nameText: string, password: string, draws: seq<int>) returns (r: Result<string, Failure>)
      requires Valid() && AreDraws(draws)
      requires RegistrationCheck(Trim(nameText), password).None? ==>
        IssuedId(registeredUsers.Keys, Trim(nameText), draws).Some?
      modifies this`registeredUsers
      ensures Valid()
      ensures RegistrationCheck(Trim(nameText), password).Some? ==>
        r == Failure(RegistrationCheck(Trim(nameText), password).value) &&
        registeredUsers == old(registeredUsers)
      ensures RegistrationCheck(Trim(nameText), password).None? ==>
        r.Success? &&
        Some(r.value) == IssuedId(old(registeredUsers).Keys, Trim(nameText), draws) &&
        r.value !in old(registeredUsers) &&
        Trim(r.value) == r.value &&
        registeredUsers.Keys == old(registeredUsers).Keys + {r.value} &&
        (forall id | id in old(registeredUsers) :: registeredUsers[id] == old(registeredUsers)[id]) &&
        fresh(registeredUsers[r.value]) &&
        registeredUsers[r.value].fullName == Trim(nameText) &&
        registeredUsers[r.value].password == password &&
        registeredUsers[r.value].skills == [] &&
        registeredUsers[r.value].field == None
    {
      var fullName := Trim(nameText);
      if fullName == [] || password == [] {
        return Failure(EmptyCredentials);
      } else if |password| < 8 {
        return Failure(ShortPassword);
      }
      var userId := GenerateUserId(fullName, draws);
      assert Trim(userId) == userId by {
        IssuedIdFirst(registeredUsers.Keys, fullName, draws);
        var d :| 0 <= d < |draws| && userId == CandidateId(fullName, draws[d]);
        IdTrimmed(fullName, draws[d]);
      }
      var newUser := new UserProfile(fullName, password, userId);
      var before := registeredUsers;
      registeredUsers := registeredUsers[userId := newUser];
      if currentUser != null {
        var k :| k in before && before[k] == currentUser;
        assert registeredUsers[k] == currentUser;
      }
      r := Success(userId);
    }

    /** The login button: the trimmed id must be registered and the password
        must equal the stored one exactly; then the profile page shows the
        profile's skills. */
    method Login(idText: string, password: string) returns (r: Option<Failure>)
      requires Valid()
      modifies this`currentUser, this`shown
      ensures Valid()
      ensures Trim(idText) !in registeredUsers ==>
        r == Some(UnknownUser) && currentUser == old(currentUser) && shown == old(shown)
      ensures Trim(idText) in registeredUsers && registeredUsers[Trim(idText)].password != password ==>
        r == Some(WrongPassword) && currentUser == old(currentUser) && shown == old(shown)
      ensures Trim(idText) in registeredUsers && registeredUsers[Trim(idText)].password == password ==>
        r == None && currentUser == registeredUsers[Trim(idText)] && shown == currentUser.skills
    {
      var userId := Trim(idText);
      if userId !in registeredUsers {
        return Some(UnknownUser);
      }
      var user := registeredUsers[userId];
      if user.password != password {
        return Some(WrongPassword);
      }
      currentUser := user;
      shown := user.skills;
      r := None;
    }

    /** `performLogout`. */
    method Logout()
      requires Valid()
      modifies this`currentUser, this`shown, this`report
      ensures Valid()
      ensures currentUser == null && shown == [] && report == []
    {
      currentUser := null;
      shown := [];
      report := [];
    }

    /** `addSkill`: reads the proficiency, checks the entry and the duplicate
        rule, then appends to the profile and to the list on the page. */
    method AddSkill(nameText: string, kind: string, proficiencyText: string) returns (r: Option<Failure>)
      requires Valid() && currentUser != null && IsSkillType(kind)
      modifies currentUser`skills, this`shown
      ensures Valid()
      ensures r == Rejection(old(currentUser.skills), nameText, kind, proficiencyText)
      ensures r.Some? ==> currentUser.skills == old(currentUser.skills)
      ensures r.None? ==>
        currentUser.skills ==
          old(currentUser.skills) + [Skill(Trim(nameText), kind, ParseInt(Trim(proficiencyText)).value)]
    {
      var name := Trim(nameText);
      var parsed := ParseInt(Trim(proficiencyText));
      if parsed.None? {
        return Some(NotANumber);
      }
      var proficiency := parsed.value;
      if name == [] || proficiency < 1 || proficiency > 10 {
        return Some(InvalidSkill);
      }
      var taken := HasMatch(currentUser.skills, name, kind);
      if taken {
        return Some(DuplicateSkill);
      }
      AcceptKeepsInvariant(currentUser.skills, nameText, kind, proficiencyText);
      currentUser.AddSkill(name, kind, proficiency);
      shown := shown + [Skill(name, kind, proficiency)];
      r := None;
    }

    /** The remove button: drops the selected entry from the list and every
        profile skill with exactly its name and type. `index` is the list's
        selected index, -1 when nothing is selected. */
    method RemoveSelectedSkill(index: int) returns (r: Option<Failure>)
      requires Valid() && currentUser != null
      requires index == -1 || 0 <= index < |shown|
      modifies currentUser`skills, this`shown
      ensures Valid()
      ensures index == -1 ==> r == Some(NoSelection) && currentUser.skills == old(currentUser.skills)
      ensures index != -1 ==>
        r == None &&
        currentUser.skills == RemoveMatching(old(currentUser.skills), old(shown[index])) &&
        currentUser.skills == old(currentUser.skills[..index] + currentUser.skills[index + 1..])
    {
      if index == -1 {
        return Some(NoSelection);
      }
      var target := shown[index];
      shown := shown[..index] + shown[index + 1..];
      var skills := currentUser.skills;
      RemoveSelected(skills, index);
      DropKeepsInvariant(skills, index);
      currentUser.skills := RemoveMatching(skills, target);
      r := None;
    }

    /** The next-page button: refuses an empty skill list, otherwise stores the
        text of the field box in the profile. */
    method ProceedToAnalysis(fieldText: string) returns (r: Option<Failure>)
      requires Valid() && currentUser != null
      modifies currentUser`field
      ensures Valid()
      ensures shown == [] ==> r == Some(NoSkills) && currentUser.field == old(currentUser.field)
      ensures shown != [] ==> r == None && currentUser.field == Some(fieldText)
    {
      if shown == [] {
        return Some(NoSkills);
      }
      currentUser.SetField(fieldText);
      r := None;
    }

    /** `findSkillProficiency`: the first profile skill that matches. */
    method FindSkillProficiency(name: string, kind: string) returns (p: int)
      requires currentUser != null
      ensures p == Lookup(currentUser.skills, name, kind)
    {
      var skills := currentUser.skills;
      for i := 0 to |skills|
        invariant Lookup(skills, name, kind) == Lookup(skills[i..], name, kind)
      {
        assert skills[i..][0] == skills[i] && skills[i..][1..] == skills[i + 1..];
        if EqualsIgnoreCase(skills[i].name, name) && skills[i].kind == kind {
          return skills[i].proficiency;
        }
      }
      assert skills[|skills|..] == [];
      return 0;
    }

    /** `runAnalysis`: the prompt when no path is selected or the profile has
        no skills, otherwise the report for the selected path. */
    method RunAnalysis(selected: Option<string>)
      requires Valid() && currentUser != null
      requires selected.Some? ==> selected.value in careerPaths
      modifies this`report
      ensures Valid()
      ensures selected.None? || currentUser.skills == [] ==> report == Prompt
      ensures selected.Some? && currentUser.skills != [] ==>
        report == Report(Trim(careerPaths[selected.value].tech), Trim(careerPaths[selected.value].soft),
          currentUser.skills)
    {
      if selected.None? || currentUser.skills == [] {
        report := Prompt;
        return;
      }
      var skills := currentUser.skills;
      var required := careerPaths[selected.value];
      var tech := Trim(required.tech);
      var soft := Trim(required.soft);
      var matchScore := 0;
      var text := Title;
      text := text + Rule;

      var tp := FindSkillProficiency(tech, Technical);
      var techStatus := if tp >= 7 then "Met" else "Major Gap";
      assert techStatus == Status(tp);
      if tp >= 7 {
        matchScore := matchScore + 50;
      }
      text := text + StatusLine("Technical", tech, techStatus, tp);

      var sp := FindSkillProficiency(soft, Soft);
      var softStatus := if sp >= 7 then "Met" else "Major Gap";
      assert softStatus == Status(sp);
      if sp >= 7 {
        matchScore := matchScore + 50;
      }
      text := text + StatusLine("Soft", soft, softStatus, sp);
      assert matchScore == Score(tp, sp);

      text := ScoreMark + IntToString(matchScore) + ScoreEnd + text;
      text := text + RoadmapTitle;
      text := text + Rule;

      var head := text;
      if techStatus == "Major Gap" {
        text := text + (GapHead(tech) + TechGapText);
      } else {
        text := text + (StrengthHead(tech) + TechStrengthText);
      }
      assert text == head + TechAdvice(tech, tp);
      var middle := text;
      if softStatus == "Major Gap" {
        text := text + (GapHead(soft) + SoftGapText);
      } else {
        text := text + (StrengthHead(soft) + SoftStrengthText);
      }
      assert text == middle + SoftAdvice(soft, sp);
      assert text == Report(tech, soft, skills) by {
        AnalysisAsBuilt(tech, soft, tp, sp);
      }
      report := text;
    }
  }
}
