# Skill Analyzer, modelled in Dafny

Skill Analyzer is a small Swing application. A user registers with a full name and a password and receives a generated user id. The user then logs in with that id. On the profile page they write a list of skills, each a name, a type ("Technical" or "Soft") and a proficiency from 1 to 10. Finally they pick a career path and read a report. The report compares the two skills the path requires with the proficiencies in the profile.

This project models the logic behind those pages and proves what it does.

- **Skills** (`skill.dfy`) models the skill record and its two renderings. One is `Skill.toString` of Skill.java. The other is the `toString` of the `Skill` class nested in the GUI, which is the one the GUI uses.
- **Profiles** (`user_profile.dfy`) holds the `UserProfile` class. Its identity fields are constants. Its field of study and its skill list are state changed by `AddSkill` and `SetField`. The GUI's remove handler also changes the list: it calls `removeIf` on the live list that `getSkills()` hands out (SkillAnalyzerGUI.java:358), so `Gui.SkillAnalyzer.RemoveSelectedSkill` assigns the profile's `skills` field directly.
- **SkillEntry** (`skill_entry.dfy`) holds the rules of the profile page:
  - what `addSkill` refuses, and in which order;
  - what the remove handler's `removeIf` deletes;
  - the invariant both keep: no two skills share a name up to case and a type, and every entry is well formed.
- **Matching** (`matching.dfy`) holds the match engine:
  - the lookup of `findSkillProficiency`;
  - status and score;
  - the exact text of `runAnalysis`, with its score line, status lines and roadmap lines.
- **Accounts** (`accounts.dfy`) holds the registration checks and the shape of the ids `generateUserId` builds.
- **CareerPaths** (`career_path_loader.dfy`) models the line parser of CareerPathLoader.java over a sequence of lines with Java `split` semantics. It includes the imperative loop and a loop-free description of the resulting map.
- **Gui** (`skill_analyzer_gui.dfy`) is the `SkillAnalyzer` class: the GUI's state and its event handlers. The state is:
  - the registered users;
  - the logged-in profile;
  - the entries of the skill list;
  - the report text;
  - the built-in table of twelve career paths.

  Every handler keeps `Valid()`: each profile is filed under its own id and keeps the entry rules, and the list on the profile page shows the logged-in profile's skills.
- **Messages** (`messages.dfy`) gives the failures the handlers report, with their dialog texts.
- **Lower-level modules:**
  - `JavaStrings` (`java_strings.dfy`): `trim`, `replaceAll("\\s+", "")`, ASCII `toUpperCase`/`equalsIgnoreCase`, and `split`;
  - `JavaIntegers` (`java_integers.dfy`): `Integer.toString` and `Integer.parseInt`;
  - `Wrappers` (`wrappers.dfy`): `Option` and `Result`.

Inside SkillAnalyzerGUI.java, the nested classes `UserProfile`, `Skill`, `UserPersistence` and `CareerPathLoader` shadow the top-level files. The model follows what is in effect there:
- the career paths are the built-in table `Gui.BuiltInCareerPaths`, the twelve `put` calls of SkillAnalyzerGUI.java:610-621 with their path names and skill pairs as written;
- the users loaded at start-up are the empty map the nested `loadUsers` returns;
- the list shows the nested `Skill.toString` format.

The top-level CareerPathLoader.java is modelled on its own, as `CareerPaths`.

Removing a skill works on the selected entry of the list (SkillAnalyzerGUI.java:352-361):
- the list entry at the selected index is dropped;
- `removeIf` deletes every profile skill whose name equals the selected one exactly, case included, and whose type is the same;
- with no selection, a dialog is shown and nothing changes;
- a second click after a removal has nothing selected; `SkillEntry.RemoveMatchingIdempotent` states that removing the same entry again would remove nothing more.

## Model

| member | source | states |
|---|---|---|
| Skills.Tag | Skill.java:32 | the label is "Tech" exactly when the type is exactly "Technical", and "Soft" for every other type |
| Skills.DecodeToString | Skill.java:30-34 | `name (T \| Prof: p/10)` can be read back into the name, the label and the proficiency, for any name, even one with parentheses |
| Skills.DecodeGuiToString | SkillAnalyzerGUI.java:588-591 | the nested `"%s (%s): %d/10"` rendering can be read back into `name (type` and the proficiency |
| Skills.RenderingsDiffer | SkillAnalyzerGUI.java:589-591 | the GUI's rendering never equals Skill.java's rendering of any record |
| Profiles.UserProfile.constructor | UserProfile.java:13-20 | a new profile holds the three arguments, an empty skill list and no field |
| Profiles.UserProfile.AddSkill | UserProfile.java:22-25 | appends exactly one record at the end, with no check, and changes nothing else |
| Profiles.UserProfile.SetField | UserProfile.java:44-46 | overwrites the field and changes nothing else |
| JavaStrings.Trim | CareerPathLoader.java:19 | the result has no char at or below U+0020 at either end |
| JavaStrings.TrimIdempotent | CareerPathLoader.java:35 | trimming a trimmed string changes nothing |
| JavaStrings.TrimEmptyIff | CareerPathLoader.java:19 | a string trims to empty exactly when all of its chars are at or below U+0020 |
| JavaStrings.RemoveWhitespaceSpec | SkillAnalyzerGUI.java:83 | no `\s` char is left, and every other char is kept as often as it occurs |
| JavaStrings.RemoveWhitespaceAppend | SkillAnalyzerGUI.java:83 | removal works char by char, so the kept chars stay in order |
| JavaStrings.RemoveWhitespaceFixpoint | SkillAnalyzerGUI.java:83 | a string without `\s` chars is left as it is |
| JavaStrings.SplitJoin | CareerPathLoader.java:23 | splitting fields joined by the delimiter, with trailing empty fields, gives back the fields without the trailing empties |
| JavaStrings.SplitSpec | CareerPathLoader.java:26 | `split` is the fields between delimiters with the trailing empty ones dropped, and gives `[s]` when the delimiter is absent |
| JavaIntegers.ParseInt | SkillAnalyzerGUI.java:386 | a result exists exactly when the text is an optional sign and ASCII digits whose value fits in an `int` |
| JavaIntegers.ParseIntOfIntToString | SkillAnalyzerGUI.java:386 | `parseInt(toString(n)) == n` for every `int` |
| JavaIntegers.FourDigits | SkillAnalyzerGUI.java:86 | every value 1000..9999 is written with exactly four digits |
| Messages.TextsDistinct | SkillAnalyzerGUI.java:144-412 | no two failures show the same dialog text |
| SkillEntry.Rejection | SkillAnalyzerGUI.java:383-412 | the entry is accepted exactly when the trimmed proficiency parses, the trimmed name is non-empty, the value is in 1..10 and no skill matches by name ignoring case and by type; "not a number" is reported exactly when parsing fails, "invalid" exactly when it parses but the name is empty or the value is outside 1..10, and "duplicate" exactly when the entry is valid and a skill matches |
| SkillEntry.AcceptKeepsInvariant | SkillAnalyzerGUI.java:394-405 | appending an accepted entry keeps the list free of duplicates and well formed |
| SkillEntry.RemoveMatchingMembers | SkillAnalyzerGUI.java:358 | `removeIf` keeps exactly the entries that differ from the target in exact name or type |
| SkillEntry.RemoveMatchingAppend | SkillAnalyzerGUI.java:358 | removal distributes over concatenation, so the kept entries stay in order |
| SkillEntry.RemoveMatchingNone | SkillAnalyzerGUI.java:358 | nothing is removed when no entry is the same as the target |
| SkillEntry.RemoveMatchingIdempotent | SkillAnalyzerGUI.java:358 | removing twice removes nothing more |
| SkillEntry.RemoveSelected | SkillAnalyzerGUI.java:352-358 | in a list free of duplicates, `removeIf` on the selected entry deletes exactly that index |
| SkillEntry.DropKeepsInvariant | SkillAnalyzerGUI.java:355-358 | deleting one entry keeps the profile invariant |
| Matching.LookupSpec | SkillAnalyzerGUI.java:532-540 | the lookup is the proficiency of some matching skill when one exists, and 0 otherwise |
| Matching.LookupFirst | SkillAnalyzerGUI.java:534-537 | the first matching skill decides the lookup, whatever follows it |
| Matching.LookupAppend | SkillAnalyzerGUI.java:534-539 | appending a skill changes a lookup only when nothing matched before |
| Matching.Status | SkillAnalyzerGUI.java:503-508 | the status is "Met" exactly when the proficiency is at least 7, and "Major Gap" otherwise |
| Matching.Score | SkillAnalyzerGUI.java:496-509 | the score is 0, 50 or 100: 100 exactly when both skills are met, 0 exactly when neither is |
| Matching.ScoreNeverDrops | SkillAnalyzerGUI.java:502-509 | adding a skill to a profile never lowers its score for a path |
| Matching.TechAdviceSpec | SkillAnalyzerGUI.java:517-521 | the technical roadmap line is a GAP line exactly when the skill is not met, and a STRENGTH line exactly when it is |
| Matching.SoftAdviceSpec | SkillAnalyzerGUI.java:523-527 | the same for the soft skill's line |
| Matching.AnalysisHeader | SkillAnalyzerGUI.java:499-512 | the report starts with "Overall Match Score: N%\n\n" followed by "Career Match Score:\n" |
| Matching.AnalysisScore | SkillAnalyzerGUI.java:512 | the number on the first line reads back as the score |
| Matching.AnalysisRoadmap | SkillAnalyzerGUI.java:514-527 | the report ends with the two roadmap lines, technical first |
| Matching.AnalysisAsBuilt | SkillAnalyzerGUI.java:497-529 | appending the pieces in the order of the `StringBuilder` calls, with the score line inserted in front, gives the report |
| Matching.ReportScore | SkillAnalyzerGUI.java:496-512 | a profile's report opens with the score of its two lookups, and that score reads back |
| Matching.ReportRoadmap | SkillAnalyzerGUI.java:514-527 | a profile's report closes with the gap or strength lines its two lookups call for |
| Accounts.IdPrefix | SkillAnalyzerGUI.java:84 | the prefix is one char, or empty exactly when the cleaned name is empty |
| Accounts.CandidateParts | SkillAnalyzerGUI.java:83-87 | an id is the prefix and the cleaned name, followed by four digits that read back as the draw plus 1000 |
| Accounts.CandidatesDistinct | SkillAnalyzerGUI.java:86-92 | different draws give different ids for the same name |
| Accounts.CandidateInjective | SkillAnalyzerGUI.java:83-87 | an id determines the cleaned name and the draw; only names equal up to whitespace share candidates |
| Accounts.CleanStartsWithFirst | SkillAnalyzerGUI.java:83-84 | a name starting with a visible char keeps it as the first char of the cleaned name |
| Accounts.IdTrimmed | SkillAnalyzerGUI.java:87 | for a trimmed name the id is trimmed, so the login page's `trim` finds it |
| Accounts.RegistrationCheck | SkillAnalyzerGUI.java:144-147 | registration passes exactly when the name is non-empty and the password has at least 8 chars; an empty name or password is reported before a short password |
| Accounts.IssuedIdExists | SkillAnalyzerGUI.java:89-93 | the retry loop settles exactly when some draw gives an id that is not taken |
| Accounts.IssuedIdFirst | SkillAnalyzerGUI.java:89-94 | the id settled on is not taken, and it is the candidate of the first draw whose candidate is free |
| CareerPaths.LoadCareerPaths | CareerPathLoader.java:12-51 | the nested loops build exactly `Load(lines)` |
| CareerPaths.AliasKeys | CareerPathLoader.java:34-41 | no alias key is empty |
| CareerPaths.AliasKeyOrigin | CareerPathLoader.java:35-40 | every alias key is the trim of one of the line's pieces |
| CareerPaths.AliasKeyOfPiece | CareerPathLoader.java:35-40 | every piece that is non-empty after trimming becomes a key |
| CareerPaths.PutAliasesSpec | CareerPathLoader.java:34-41 | the inner loop adds exactly the alias keys, maps all of them to the line's pair, and keeps every other entry |
| CareerPaths.LoadKeys | CareerPathLoader.java:17-45 | a key is in the result exactly when some line declares it |
| CareerPaths.LoadValue | CareerPathLoader.java:40 | every key maps to the pair of the last line that declares it |
| CareerPaths.KeysAreTrimmed | CareerPathLoader.java:35-38 | every key is non-empty and trimmed |
| CareerPaths.SkippedLineKeepsMap | CareerPathLoader.java:19-29 | a blank or malformed line leaves the map unchanged |
| CareerPaths.LaterLineOverwrites | CareerPathLoader.java:32-41 | an accepted line maps all of its aliases to its pair, overriding earlier lines, and adds no other key |
| CareerPaths.BlankLineHasOneField | CareerPathLoader.java:19-24 | a blank line splits on ':' into the one field it is, so the field count would skip it even without the blank-line test |
| CareerPaths.LineFields | CareerPathLoader.java:23-32 | a line that splits into two fields on ':' and on ';' yields those fields, the names trimmed and the skills not |
| CareerPaths.OneAlias | CareerPathLoader.java:32-40 | a single trimmed alias without '/' is put as written |
| CareerPaths.OneAliasLine | CareerPathLoader.java:23-40 | `alias:tech;soft` maps the alias to the skills exactly as written, spaces included |
| CareerPaths.TrailingSemicolon | CareerPathLoader.java:26-29 | a trailing ';' after the soft skill is accepted, because `split` drops trailing empty fields |
| CareerPaths.TrailingColon | CareerPathLoader.java:23-24 | a trailing ':' after the soft skill is accepted too |
| CareerPaths.MissingSoftSkill | CareerPathLoader.java:26-29 | `alias:tech;` is skipped even though the ';' is written |
| Gui.SkillAnalyzer.constructor | SkillAnalyzerGUI.java:54-56 | the GUI starts with the built-in paths, no users, nobody logged in, an empty list and an empty report |
| Gui.SkillAnalyzer.GenerateUserId | SkillAnalyzerGUI.java:82-95 | the loop returns the candidate of the first draw whose id is not registered |
| Gui.SkillAnalyzer.Register | SkillAnalyzerGUI.java:140-165 | a refused registration changes nothing and reports the check's failure; otherwise a fresh profile is filed under a new, trimmed id with the trimmed name, the password, no skills and no field, and every other entry stays |
| Gui.SkillAnalyzer.Login | SkillAnalyzerGUI.java:219-262 | unknown id, then wrong password, leave the session as it was; the exact password logs the user in and the list shows their skills |
| Gui.SkillAnalyzer.Logout | SkillAnalyzerGUI.java:264-277 | nobody is logged in, the list and the report are empty |
| Gui.SkillAnalyzer.AddSkill | SkillAnalyzerGUI.java:382-413 | the outcome is `Rejection` of the old list; only an accepted entry is appended, to the profile and to the list, and the invariant holds |
| Gui.SkillAnalyzer.RemoveSelectedSkill | SkillAnalyzerGUI.java:352-362 | no selection changes nothing; otherwise the profile's skills are `removeIf` of the selected entry, which deletes exactly the selected index |
| Gui.SkillAnalyzer.ProceedToAnalysis | SkillAnalyzerGUI.java:364-374 | an empty list is refused and the field is left alone; otherwise the field is set to the text |
| Gui.SkillAnalyzer.FindSkillProficiency | SkillAnalyzerGUI.java:532-540 | the loop's early return gives exactly `Lookup` of the profile's skills |
| Gui.SkillAnalyzer.RunAnalysis | SkillAnalyzerGUI.java:485-530 | the prompt when no path is selected or there are no skills; otherwise exactly `Report` of the trimmed required skills and the profile |

## Left out

- Swing layout, colours, renderers, dialogs and page switching are left out. Each dialog is a `Failure` value or a success result.
- The "Your Field" text box is not state. The text loaded into it at login (the profile's field, or "") is not modelled. `ProceedToAnalysis` takes the box's text as a parameter.
- Persistence: inside SkillAnalyzerGUI.java the calls resolve to the nested placeholder `UserPersistence` (lines 594-605). Its `saveUsers`, called after registration, after the next-page button and at logout and exit, only prints "Saving N users..." to standard output and changes no state. Its `loadUsers` prints "Loading users..." and returns the empty map the constructor starts with. Standard output is not modelled. The file I/O of the top-level UserPersistence.java, its serialization, is left out because the GUI does not call it.
- The file reading of CareerPathLoader.java is left out. The parser takes the lines as a sequence. A missing file, which gives an empty map, is `Load([])`.
- `java.util.Random`: the draws of `nextInt(9000)` are a parameter.
- Gui.SkillAnalyzer.GenerateUserId: requires that some draw gives a free id, because termination of a random retry loop cannot be stated otherwise. The source loops forever when every id for a name is taken.
- Gui.SkillAnalyzer.AddSkill, RemoveSelectedSkill, ProceedToAnalysis, FindSkillProficiency and RunAnalysis require a logged-in user, because their pages are reachable only after login. Without a user the source would throw a `NullPointerException` only where it reads the profile:
  - in `addSkill` at line 394, once the parse and range checks pass;
  - in `runAnalysis` at line 487, when a path is selected;
  - in `findSkillProficiency` at line 534.

  The other paths need no user: logout empties the list (line 270), so the remove handler takes its no-selection branch (354, 360), and the next-page handler returns at 365-367.
- Gui.SkillAnalyzer.RunAnalysis: requires the selected path to be a key of the table, as the combo box is filled from the table's keys.
- Gui.SkillAnalyzer.AddSkill: requires the type to be "Technical" or "Soft", the two entries of the combo box.
- Case folding covers ASCII only. `toUpperCase` and `equalsIgnoreCase` on non-ASCII letters, and the one-to-many upper-casing of some letters, are not modelled. `\s` is Java's default class `[ \t\n\x0B\f\r]`, which is exactly `IsRegexSpace`.
- JavaIntegers.ParseInt: reads only the ASCII digits '0'-'9'. Java's `parseInt` also accepts other Unicode decimal digits (it reads them with `Character.digit`), so a proficiency such as "\uFF15" is a number in Java and `NotANumber` here.
- The default locale is assumed to upper-case 'i' to 'I' in the id prefix (`toUpperCase()` at SkillAnalyzerGUI.java:84) and to write `%d` with the digits '0'-'9' (lines 505, 510, 512 and 590). A Turkish locale, or one with other digits, would give other ids and other report texts.
- `String.length` and `substring(0, 1)` (the id prefix, SkillAnalyzerGUI.java:84) count UTF-16 code units in Java and chars here. For a name starting with a char outside the Basic Multilingual Plane, Java's prefix is a lone surrogate and the model's `Accounts.IdPrefix` is the whole char.
- The proficiency is an unbounded `int` in the record. Only values `parseInt` can return, so within the `int` range, are ever stored.
- One `UserProfile` class models both UserProfile.java and the nested copy in the GUI; their fields and methods are the same. `Serializable` and `serialVersionUID` are not modelled.
- Getters are not separate members: a field or constant read stands for each getter.
