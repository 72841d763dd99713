/** The career-path file parser of CareerPathLoader.java, over the lines
    the file reader would return. Each line reads
    `aliasA/aliasB/...: technical skill;soft skill`. */
module CareerPaths {
  import opened Wrappers
  import opened JavaStrings

  /** The two-element `String[]` a path maps to: the technical skill, then
      the soft skill, both exactly as split from the line (untrimmed). */
  datatype Requirement = Requirement(tech: string, soft: string)

  /** What one line contributes: the '/'-separated alias pieces (not yet
      trimmed) and the requirement; `None` when the line is skipped. */
  function ParseLine(line: string): Option<(seq<string>, Requirement)> {
    if Trim(line) == [] then None
    else
      var parts := Split(line, ':');
      if |parts| != 2 then None
      else
        var required := Split(parts[1], ';');
        if |required| != 2 then None
        else Some((Split(Trim(parts[0]), '/'), Requirement(required[0], required[1])))
  }

  /** The inner loop over the aliases of one line: every alias that is not
      empty after trimming is put under the line's requirement. */
  function PutAliases(paths: map<string, Requirement>, aliases: seq<string>, req: Requirement): map<string, Requirement> {
    if aliases == [] then paths
    else
      var earlier := PutAliases(paths, aliases[..|aliases| - 1], req);
      var alias := Trim(aliases[|aliases| - 1]);
      if alias == [] then earlier else earlier[alias := req]
  }

  /** One iteration of the outer loop. */
  function Step(paths: map<string, Requirement>, line: string): map<string, Requirement> {
    match ParseLine(line)
    case None => paths
    case Some((aliases, req)) => PutAliases(paths, aliases, req)
  }

  /** The map `loadCareerPaths` returns after reading every line. */
  function Load(lines: seq<string>): map<string, Requirement> {
    if lines == [] then map[] else Step(Load(lines[..|lines| - 1]), lines[|lines| - 1])
  }

  /** The imperative parser: a loop over the lines with a nested loop over
      the aliases, putting into the map as it goes. */
  method LoadCareerPaths(lines: seq<string>) returns (paths: map<string, Requirement>)
    ensures paths == Load(lines)
  {
    paths := map[];
    var i := 0;
    while i < |lines|
      invariant 0 <= i <= |lines|
      invariant paths == Load(lines[..i])
    {
      var line := lines[i];
      assert lines[..i + 1][..i] == lines[..i];
      assert Load(lines[..i + 1]) == Step(paths, line);
      if Trim(line) == [] {
        i := i + 1;
        continue;
      }
      var parts := Split(line, ':');
      if |parts| == 2 {
        var pathNameCombined := Trim(parts[0]);
        var requiredSkills := Split(parts[1], ';');
        if |requiredSkills| == 2 {
          var pathNames := Split(pathNameCombined, '/');
          var req := Requirement(requiredSkills[0], requiredSkills[1]);
          assert ParseLine(line) == Some((pathNames, req));
          ghost var before := paths;
          for j := 0 to |pathNames|
            invariant paths == PutAliases(before, pathNames[..j], req)
          {
            assert pathNames[..j + 1][..j] == pathNames[..j];
            var individualPath := Trim(pathNames[j]);
            if individualPath != [] {
              paths := paths[individualPath := req];
            }
          }
          assert pathNames[..|pathNames|] == pathNames;
        } else {
          assert ParseLine(line) == None;
        }
      } else {
        assert ParseLine(line) == None;
      }
      i := i + 1;
    }
    assert lines[..|lines|] == lines;
  }

  // ---------------------------------------------------------------------
  // What the resulting map holds, stated without the loop
  // ---------------------------------------------------------------------

  /** The keys one line's alias pieces contribute: the non-empty trimmed ones. */
  function AliasKeys(aliases: seq<string>): (keys: set<string>)
    ensures forall key :: key in keys ==> key != []
  {
    if aliases == [] then {}
    else
      var alias := Trim(aliases[|aliases| - 1]);
      AliasKeys(aliases[..|aliases| - 1]) + (if alias == [] then {} else {alias})
  }

  /** `line` is not skipped and one of its aliases trims to `key`. */
  predicate Declares(line: string, key: string) {
    match ParseLine(line)
    case None => false
    case Some((aliases, _)) => key in AliasKeys(aliases)
  }

  function RequirementOf(line: string): Requirement
    requires ParseLine(line).Some?
  {
    ParseLine(line).value.1
  }

  /** Line `i` is the last line that declares `key`. */
  predicate LastDeclaration(lines: seq<string>, key: string, i: int) {
    0 <= i < |lines| && Declares(lines[i], key) &&
    forall j :: i < j < |lines| ==> !Declares(lines[j], key)
  }

  /** Every alias key is the trim of one of the pieces. */
  lemma {:induction false} AliasKeyOrigin(aliases: seq<string>, key: string)
    requires key in AliasKeys(aliases)
    ensures exists j :: 0 <= j < |aliases| && Trim(aliases[j]) == key
  {
    var init := aliases[..|aliases| - 1];
    if key in AliasKeys(init) {
      AliasKeyOrigin(init, key);
      var j :| 0 <= j < |init| && Trim(init[j]) == key;
      assert init[j] == aliases[j];
    } else {
      assert Trim(aliases[|aliases| - 1]) == key;
    }
  }

  /** Every piece that is not empty after trimming gives an alias key. */
  lemma {:induction false} AliasKeyOfPiece(aliases: seq<string>, j: int)
    requires 0 <= j < |aliases| && Trim(aliases[j]) != []
    ensures Trim(aliases[j]) in AliasKeys(aliases)
  {
    var init := aliases[..|aliases| - 1];
    if j < |init| {
      assert init[j] == aliases[j];
      AliasKeyOfPiece(init, j);
    }
  }

  lemma {:induction false} PutAliasesSpec(paths: map<string, Requirement>, aliases: seq<string>, req: Requirement)
    ensures PutAliases(paths, aliases, req).Keys == paths.Keys + AliasKeys(aliases)
    ensures forall key :: key in AliasKeys(aliases) ==> PutAliases(paths, aliases, req)[key] == req
    ensures forall key :: key in paths && key !in AliasKeys(aliases) ==> PutAliases(paths, aliases, req)[key] == paths[key]
  {
    if aliases != [] {
      PutAliasesSpec(paths, aliases[..|aliases| - 1], req);
    }
  }

  /** The keys of the result are exactly the aliases some line declares. */
  lemma {:induction false} LoadKeys(lines: seq<string>, key: string)
    ensures key in Load(lines) <==> exists i :: 0 <= i < |lines| && Declares(lines[i], key)
  {
    if lines != [] {
      var init := lines[..|lines| - 1];
      var last := lines[|lines| - 1];
      LoadKeys(init, key);
      assert forall i :: 0 <= i < |init| ==> init[i] == lines[i];
      match ParseLine(last)
      case None =>
      case Some((aliases, req)) =>
        PutAliasesSpec(Load(init), aliases, req);
    }
  }

  /** Every key maps to the requirement of the last line that declares it:
      a later line overwrites an earlier one. */
  lemma {:induction false} LoadValue(lines: seq<string>, key: string, i: int)
    requires LastDeclaration(lines, key, i)
    ensures key in Load(lines) && Load(lines)[key] == RequirementOf(lines[i])
  {
    var init := lines[..|lines| - 1];
    var last := lines[|lines| - 1];
    if i == |lines| - 1 {
      var aliases := ParseLine(last).value.0;
      PutAliasesSpec(Load(init), aliases, RequirementOf(last));
    } else {
      assert forall j :: 0 <= j < |init| ==> init[j] == lines[j];
      LoadValue(init, key, i);
      assert !Declares(last, key);
      match ParseLine(last)
      case None =>
      case Some((aliases, req)) =>
        PutAliasesSpec(Load(init), aliases, req);
    }
  }

  /** No key is empty or carries surrounding whitespace. */
  lemma KeysAreTrimmed(lines: seq<string>, key: string)
    requires key in Load(lines)
    ensures key != [] && IsTrimmed(key) && Trim(key) == key
  {
    LoadKeys(lines, key);
    var i :| 0 <= i < |lines| && Declares(lines[i], key);
    var aliases := ParseLine(lines[i]).value.0;
    AliasKeyOrigin(aliases, key);
    var j :| 0 <= j < |aliases| && Trim(aliases[j]) == key;
    TrimIdempotent(aliases[j]);
  }

  /** A skipped line leaves the map as it was. */
  lemma SkippedLineKeepsMap(lines: seq<string>, line: string)
    requires ParseLine(line).None?
    ensures Load(lines + [line]) == Load(lines)
  {
    assert (lines + [line])[..|lines|] == lines;
  }

  /** Every alias of an accepted line ends up mapped to that line's requirement,
      whatever earlier lines said, and the line adds no other key. */
  lemma LaterLineOverwrites(lines: seq<string>, line: string)
    requires ParseLine(line).Some?
    ensures Load(lines + [line]).Keys == Load(lines).Keys + AliasKeys(ParseLine(line).value.0)
    ensures forall key :: Declares(line, key) ==> Load(lines + [line])[key] == RequirementOf(line)
  {
    assert (lines + [line])[..|lines|] == lines;
    PutAliasesSpec(Load(lines), ParseLine(line).value.0, RequirementOf(line));
  }

  /** The explicit blank-line test is redundant: a blank line holds no ':'
      and would be refused by the field count anyway. */
  lemma BlankLineHasOneField(line: string)
    requires Trim(line) == []
    ensures Split(line, ':') == [line]
  {
    TrimEmptyIff(line);
    assert forall i :: 0 <= i < |line| ==> line[i] != ':';
  }

  /** A line whose ':' and ';' split it into two fields each is read as
      those fields. */
  lemma LineFields(line: string, names: string, skills: string, tech: string, soft: string)
    requires Trim(line) != []
    requires Split(line, ':') == [names, skills] && Split(skills, ';') == [tech, soft]
    ensures ParseLine(line) == Some((Split(Trim(names), '/'), Requirement(tech, soft)))
  {
  }

  /** A single trimmed alias without '/' is put as it is. */
  lemma OneAlias(alias: string, req: Requirement)
    requires alias != [] && IsTrimmed(alias) && '/' !in alias
    ensures PutAliases(map[], Split(Trim(alias), '/'), req) == map[alias := req]
  {
    TrimOfTrimmed(alias);
    assert [alias][..0] == [];
  }

  lemma JoinPair(x: string, y: string, d: char)
    ensures Join([x, y] + Empties(0), d) == x + [d] + y
  {
    assert [x, y] + Empties(0) == [x, y];
    assert [x, y][1..] == [y];
  }

  lemma JoinPairEmpty(x: string, y: string, d: char)
    ensures Join([x, y] + Empties(1), d) == x + [d] + y + [d]
  {
    var fs := [x, y] + Empties(1);
    assert fs == [x, y, []];
    assert fs[1..] == [y, []] && fs[1..][1..] == [[]];
    assert Join([y, []], d) == y + [d];
    assert Join(fs, d) == x + [d] + (y + [d]);
  }

  /** A line with one alias and both skills: the alias is the key, and the
      skills are kept exactly as written, spaces included. */
  lemma {:induction false} OneAliasLine(alias: string, tech: string, soft: string)
    requires alias != [] && IsTrimmed(alias) && '/' !in alias && ':' !in alias
    requires ':' !in tech && ';' !in tech && ':' !in soft && ';' !in soft && soft != []
    ensures Load([alias + ":" + tech + ";" + soft]) == map[alias := Requirement(tech, soft)]
  {
    var skills := tech + ";" + soft;
    var line := alias + ":" + skills;
    assert alias + ":" + tech + ";" + soft == line;
    JoinPair(alias, skills, ':');
    assert line == alias + [':'] + skills;
    SplitJoin([alias, skills], 0, ':');
    JoinPair(tech, soft, ';');
    SplitJoin([tech, soft], 0, ';');
    assert !IsTrimmable(line[|alias|]);
    TrimEmptyIff(line);
    LineFields(line, alias, skills, tech, soft);
    TrimOfTrimmed(alias);
    OneAlias(alias, Requirement(tech, soft));
    assert [line][..0] == [];
  }

  /** Java's `split` drops trailing empty fields, so a trailing ';' after
      the soft skill is accepted. */
  lemma {:induction false} TrailingSemicolon(alias: string, tech: string, soft: string)
    requires alias != [] && IsTrimmed(alias) && '/' !in alias && ':' !in alias
    requires ':' !in tech && ';' !in tech && ':' !in soft && ';' !in soft && soft != []
    ensures Load([alias + ":" + tech + ";" + soft + ";"]) == map[alias := Requirement(tech, soft)]
  {
    var skills := tech + ";" + soft + ";";
    var line := alias + ":" + skills;
    assert alias + ":" + tech + ";" + soft + ";" == line;
    JoinPair(alias, skills, ':');
    assert line == alias + [':'] + skills;
    SplitJoin([alias, skills], 0, ':');
    JoinPairEmpty(tech, soft, ';');
    SplitJoin([tech, soft], 1, ';');
    assert !IsTrimmable(line[|alias|]);
    TrimEmptyIff(line);
    LineFields(line, alias, skills, tech, soft);
    TrimOfTrimmed(alias);
    OneAlias(alias, Requirement(tech, soft));
    assert [line][..0] == [];
  }

  /** Likewise a trailing ':' after the soft skill is accepted. */
  lemma {:induction false} TrailingColon(alias: string, tech: string, soft: string)
    requires alias != [] && IsTrimmed(alias) && '/' !in alias && ':' !in alias
    requires ':' !in tech && ';' !in tech && ':' !in soft && ';' !in soft && soft != []
    ensures Load([alias + ":" + tech + ";" + soft + ":"]) == map[alias := Requirement(tech, soft)]
  {
    var skills := tech + ";" + soft;
    var line := alias + ":" + skills + ":";
    assert alias + ":" + tech + ";" + soft + ":" == line;
    JoinPairEmpty(alias, skills, ':');
    assert line == alias + [':'] + skills + [':'];
    SplitJoin([alias, skills], 1, ':');
    JoinPair(tech, soft, ';');
    SplitJoin([tech, soft], 0, ';');
    assert !IsTrimmable(line[|alias|]);
    TrimEmptyIff(line);
    LineFields(line, alias, skills, tech, soft);
    TrimOfTrimmed(alias);
    OneAlias(alias, Requirement(tech, soft));
    assert [line][..0] == [];
  }

  /** A line whose soft skill is missing is skipped, even with the ';' written. */
  lemma {:induction false} MissingSoftSkill(alias: string, tech: string)
    requires alias != [] && ':' !in alias
    requires ':' !in tech && ';' !in tech && tech != []
    ensures Load([alias + ":" + tech + ";"]) == map[]
  {
    var skills := tech + ";";
    var line := alias + ":" + skills;
    assert alias + ":" + tech + ";" == line;
    JoinPair(alias, skills, ':');
    assert line == alias + [':'] + skills;
    SplitJoin([alias, skills], 0, ':');
    assert [tech] + Empties(1) == [tech, []];
    assert [tech, []][1..] == [[]];
    assert Join([tech, []], ';') == tech + [';'];
    assert skills == tech + [';'];
    SplitJoin([tech], 1, ';');
    assert Split(skills, ';') == [tech];
    assert [line][..0] == [];
  }
}
