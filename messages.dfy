/** The outcomes the GUI's handlers report in dialogs instead of changing
    state, with the exact dialog texts of SkillAnalyzerGUI.java. */
module Messages {

  datatype Failure =
    | EmptyCredentials   // registration: trimmed name or password empty
    | ShortPassword      // registration: password under 8 chars
    | UnknownUser        // login: the trimmed id is not registered
    | WrongPassword      // login: the password differs from the stored one
    | NotANumber         // add skill: the proficiency text is not an int
    | InvalidSkill       // add skill: empty name or proficiency outside 1..10
    | DuplicateSkill     // add skill: the name (ignoring case) and type are taken
    | NoSelection        // remove skill: no list entry is selected
    | NoSkills           // next page: the skill list is empty

  /** The message of the dialog each failure shows. */
  function Text(f: Failure): string {
    match f
    case EmptyCredentials => "Full Name and Password cannot be empty."
    case ShortPassword => "Password must be at least 8 characters long."
    case UnknownUser => "User ID not found."
    case WrongPassword => "Invalid Password."
    case NotANumber => "Proficiency must be a number."
    case InvalidSkill => "Please enter a valid skill name and proficiency (1-10)."
    case DuplicateSkill => "This skill and type combination is already added."
    case NoSelection => "Please select a skill to remove."
    case NoSkills => "Please add at least one skill before analyzing."
  }

  /** The length of each text; no two are the same. */
  function TextLength(f: Failure): nat {
    match f
    case EmptyCredentials => 39
    case ShortPassword => 44
    case UnknownUser => 18
    case WrongPassword => 17
    case NotANumber => 29
    case InvalidSkill => 55
    case DuplicateSkill => 49
    case NoSelection => 32
    case NoSkills => 47
  }

  lemma LengthOfText(f: Failure)
    ensures |Text(f)| == TextLength(f)
  {
    match f
    case EmptyCredentials =>
    case ShortPassword =>
    case UnknownUser =>
    case WrongPassword =>
    case NotANumber =>
    case InvalidSkill =>
    case DuplicateSkill =>
    case NoSelection =>
    case NoSkills =>
  }

  /** Each dialog text names one failure only, so the user can always tell
      which rule refused the input. */
  lemma TextsDistinct(f: Failure, g: Failure)
    requires f != g
    ensures Text(f) != Text(g)
  {
    LengthOfText(f);
    LengthOfText(g);
  }
}
