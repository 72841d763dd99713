/** A skill record: a name, a type and a proficiency, fixed when the record
    is made. Both Skill.java and the placeholder `Skill` nested in the GUI
    class hold the same three fields; they differ only in how they render
    themselves, so the record is one datatype with two renderings. */
module Skills {
  import opened Wrappers
  import opened JavaIntegers

  /** The type is kept as the string the GUI's combo box supplies
      ("Technical" or "Soft"); every comparison in the program is on that string. */
  datatype Skill = Skill(name: string, kind: string, proficiency: int)

  const Technical: string := "Technical"
  const Soft: string := "Soft"

  /** The short type label of Skill.toString: "Tech" for exactly "Technical",
      "Soft" for every other type. */
  function Tag(kind: string): (t: string)
    ensures |t| == 4
    ensures t == "Tech" <==> kind == Technical
    ensures t != "Tech" ==> t == "Soft"
  {
    if kind == Technical then "Tech" else "Soft"
  }

  /** Skill.toString: `name (Tech | Prof: p/10)`. */
  function ToString(s: Skill): string {
    s.name + " (" + Tag(s.kind) + " | Prof: " + IntToString(s.proficiency) + "/10)"
  }

  /** The GUI's nested Skill.toString, `String.format("%s (%s): %d/10", ...)`:
      the type verbatim, a colon, no closing parenthesis. */
  function GuiToString(s: Skill): string {
    s.name + " (" + s.kind + "): " + IntToString(s.proficiency) + "/10"
  }

  // ---------------------------------------------------------------------
  // Reading a rendering back, from its right end
  // ---------------------------------------------------------------------

  predicate IsNumberChar(c: char) {
    IsDigit(c) || c == '-'
  }

  /** How many chars at the end of `s` can belong to a decimal number. */
  function TrailingNumberLength(s: string): (k: nat)
    ensures k <= |s|
  {
    if s != [] && IsNumberChar(s[|s| - 1]) then 1 + TrailingNumberLength(s[..|s| - 1]) else 0
  }

  lemma {:induction false} TrailingNumberOf(a: string, b: string)
    requires a == [] || !IsNumberChar(a[|a| - 1])
    requires forall i :: 0 <= i < |b| ==> IsNumberChar(b[i])
    ensures TrailingNumberLength(a + b) == |b|
  {
    if b != [] {
      var ab := a + b;
      assert ab[|ab| - 1] == b[|b| - 1];
      assert ab[..|ab| - 1] == a + b[..|b| - 1];
      TrailingNumberOf(a, b[..|b| - 1]);
    } else {
      assert a + b == a;
    }
  }

  lemma IntToStringChars(n: int)
    ensures forall i :: 0 <= i < |IntToString(n)| ==> IsNumberChar(IntToString(n)[i])
  {
    if n < 0 {
      var digits := NatToString(-n);
      assert IntToString(n) == "-" + digits;
      assert forall i :: 1 <= i < |IntToString(n)| ==> IntToString(n)[i] == digits[i - 1];
    }
  }

  /** Reads `name (T | Prof: p/10)` back into the name, the label T and p.
      The name may itself contain parentheses: the text is read from the right. */
  function DecodeEntry(text: string): Option<(string, string, int)> {
    var n := |text|;
    if n < 4 || text[n - 4..] != "/10)" then None
    else
      var body := text[..n - 4];
      var k := TrailingNumberLength(body);
      var rest := body[..|body| - k];
      if |rest| < 15 || rest[|rest| - 9..] != " | Prof: " || rest[|rest| - 15..|rest| - 13] != " (" then None
      else
        match ParseDecimal(body[|body| - k..])
        case None => None
        case Some(p) => Some((rest[..|rest| - 15], rest[|rest| - 13..|rest| - 9], p))
  }

  /** The fixed text around the number in Skill.toString, read back by position. */
  lemma EntryHead(name: string, tag: string)
    requires |tag| == 4
    ensures var head := name + " (" + tag + " | Prof: ";
      |head| >= 15 && head[|head| - 9..] == " | Prof: " && head[|head| - 15..|head| - 13] == " (" &&
      head[..|head| - 15] == name && head[|head| - 13..|head| - 9] == tag
  {
    var head := name + " (" + tag + " | Prof: ";
    assert head == name + (" (" + tag + " | Prof: ");
  }

  /** The number at the end of `head + num`, where `head` does not end in a
      number char, is read back exactly. */
  lemma NumberAtEnd(head: string, n: int)
    requires head == [] || !IsNumberChar(head[|head| - 1])
    ensures var body := head + IntToString(n);
      TrailingNumberLength(body) == |IntToString(n)| &&
      body[..|body| - |IntToString(n)|] == head &&
      ParseDecimal(body[|body| - |IntToString(n)|..]) == Some(n)
  {
    var num := IntToString(n);
    var body := head + num;
    IntToStringChars(n);
    TrailingNumberOf(head, num);
    assert body[..|body| - |num|] == head;
    assert body[|body| - |num|..] == num;
    ParseDecimalOfIntToString(n);
  }

  lemma DecodeEntryOf(name: string, tag: string, n: int)
    requires |tag| == 4
    ensures DecodeEntry(name + " (" + tag + " | Prof: " + IntToString(n) + "/10)") == Some((name, tag, n))
  {
    var head := name + " (" + tag + " | Prof: ";
    var body := head + IntToString(n);
    var text := body + "/10)";
    assert text[..|text| - 4] == body && text[|text| - 4..] == "/10)";
    EntryHead(name, tag);
    NumberAtEnd(head, n);
  }

  /** Skill.toString loses nothing but the exact type: the name, the label
      and the proficiency can all be read back from it. */
  lemma DecodeToString(s: Skill)
    ensures DecodeEntry(ToString(s)) == Some((s.name, Tag(s.kind), s.proficiency))
  {
    DecodeEntryOf(s.name, Tag(s.kind), s.proficiency);
  }

  /** Reads `label: p/10` back into the label (`name (type`) and p. */
  function DecodeGuiEntry(text: string): Option<(string, int)> {
    var n := |text|;
    if n < 3 || text[n - 3..] != "/10" then None
    else
      var body := text[..n - 3];
      var k := TrailingNumberLength(body);
      var rest := body[..|body| - k];
      if |rest| < 3 || rest[|rest| - 3..] != "): " then None
      else
        match ParseDecimal(body[|body| - k..])
        case None => None
        case Some(p) => Some((rest[..|rest| - 3], p))
  }

  lemma DecodeGuiOf(caption: string, n: int)
    ensures DecodeGuiEntry(caption + "): " + IntToString(n) + "/10") == Some((caption, n))
  {
    var head := caption + "): ";
    var body := head + IntToString(n);
    var text := body + "/10";
    assert text[..|text| - 3] == body && text[|text| - 3..] == "/10";
    assert head[|head| - 3..] == "): " && head[..|head| - 3] == caption;
    NumberAtEnd(head, n);
  }

  /** The GUI rendering keeps the type verbatim and the proficiency readable. */
  lemma DecodeGuiToString(s: Skill)
    ensures DecodeGuiEntry(GuiToString(s)) == Some((s.name + " (" + s.kind, s.proficiency))
  {
    DecodeGuiOf(s.name + " (" + s.kind, s.proficiency);
  }

  /** The two renderings never coincide: one ends in "/10)", the other in "/10". */
  lemma RenderingsDiffer(s: Skill, t: Skill)
    ensures ToString(s) != GuiToString(t)
  {
    var a := ToString(s);
    var b := GuiToString(t);
    assert a[|a| - 1] == ')';
    assert b[|b| - 1] == '0';
  }
}
