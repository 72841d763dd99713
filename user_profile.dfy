/** A registered user's profile (UserProfile.java; the placeholder class of
    the same name nested in SkillAnalyzerGUI.java has the same fields and
    the same methods). The identity fields have no setters, so they are
    constants here; the field of study and the skill list are state. */
module Profiles {
  import opened Wrappers
  import opened Skills

  class UserProfile {
    const userId: string
    const fullName: string
    const password: string
    /** `field` is null until `setField` is first called. */
    var field: Option<string>
    /** The `ArrayList<Skill>` that `getSkills` hands out. */
    var skills: seq<Skill>

    constructor (fullName: string, password: string, userId: string)
      ensures this.fullName == fullName && this.password == password && this.userId == userId
      ensures field == None && skills == []
    {
      this.fullName := fullName;
      this.password := password;
      this.userId := userId;
      field := None;
      skills := [];
    }

    /** Appends one record, with no validation and no duplicate check. */
    method AddSkill(name: string, kind: string, proficiency: int)
      modifies this`skills
      ensures skills == old(skills) + [Skill(name, kind, proficiency)]
    {
      skills := skills + [Skill(name, kind, proficiency)];
    }

    /** Overwrites the field of study and nothing else. */
    method SetField(field: string)
      modifies this`field
      ensures this.field == Some(field)
    {
      this.field := Some(field);
    }
  }
}
