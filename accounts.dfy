/** Registration and login rules of SkillAnalyzerGUI.java: the checks on a
    new account and the shape of the user ids `generateUserId` hands out.
    The `Random` draws are a parameter: each is a value of `nextInt(9000)`. */
module Accounts {
  import opened Wrappers
  import opened JavaStrings
  import opened JavaIntegers
  import opened Messages

  /** A value `new Random().nextInt(9000)` can return. */
  predicate IsDraw(d: int) {
    0 <= d < 9000
  }

  /** A stream of such values. */
  predicate AreDraws(draws: seq<int>) {
    forall i :: 0 <= i < |draws| ==> IsDraw(draws[i])
  }

  /** The upper-cased first char of the name with whitespace removed, or
      nothing when no char is left. */
  function IdPrefix(clean: string): (r: string)
    ensures |r| == if clean == [] then 0 else 1
  {
    if clean == [] then [] else [ToUpperAscii(clean[0])]
  }

  /** The id `generateUserId` builds from one draw: prefix, the name without
      whitespace, and the draw plus 1000. */
  function CandidateId(fullName: string, draw: int): string {
    var clean := RemoveWhitespace(fullName);
    IdPrefix(clean) + clean + IntToString(draw + 1000)
  }

  /** An id splits into the name part and a four-digit suffix that reads back
      as the draw plus 1000. */
  lemma CandidateParts(fullName: string, d: int)
    requires IsDraw(d)
    ensures var id := CandidateId(fullName, d);
      var clean := RemoveWhitespace(fullName);
      |id| >= 4 &&
      id[..|id| - 4] == IdPrefix(clean) + clean &&
      AllDigits(id[|id| - 4..]) &&
      ParseInt(id[|id| - 4..]) == Some(d + 1000)
  {
    var clean := RemoveWhitespace(fullName);
    var head := IdPrefix(clean) + clean;
    var tail := IntToString(d + 1000);
    FourDigits(d + 1000);
    ParseIntOfIntToString(d + 1000);
    var id := CandidateId(fullName, d);
    assert id == head + tail;
    assert id[..|id| - 4] == head;
    assert id[|id| - 4..] == tail;
  }

  /** Ids from different draws differ, whatever the name. */
  lemma CandidatesDistinct(fullName: string, d: int, e: int)
    requires IsDraw(d) && IsDraw(e) && d != e
    ensures CandidateId(fullName, d) != CandidateId(fullName, e)
  {
    CandidateParts(fullName, d);
    CandidateParts(fullName, e);
  }

  /** An id determines the name without whitespace and the draw it came from:
      only names equal up to whitespace share candidate ids. */
  lemma CandidateInjective(n: string, m: string, d: int, e: int)
    requires IsDraw(d) && IsDraw(e)
    requires CandidateId(n, d) == CandidateId(m, e)
    ensures RemoveWhitespace(n) == RemoveWhitespace(m) && d == e
  {
    CandidateParts(n, d);
    CandidateParts(m, e);
    var id := CandidateId(n, d);
    var c, k := RemoveWhitespace(n), RemoveWhitespace(m);
    var head := id[..|id| - 4];
    assert head == IdPrefix(c) + c == IdPrefix(k) + k;
    assert c == head[|IdPrefix(c)|..];
    assert k == head[|IdPrefix(k)|..];
  }

  /** The first char of the name survives whitespace removal when it is not
      itself whitespace. */
  lemma CleanStartsWithFirst(s: string)
    requires s != [] && !IsRegexSpace(s[0])
    ensures RemoveWhitespace(s) != [] && RemoveWhitespace(s)[0] == s[0]
  {
    assert s == [s[0]] + s[1..];
    RemoveWhitespaceAppend([s[0]], s[1..]);
  }

  /** Neither a `\s` char nor what upper-casing makes of a visible char is
      removed by `trim`. */
  lemma VisibleChars(c: char)
    requires !IsTrimmable(c)
    ensures !IsRegexSpace(c) && !IsTrimmable(ToUpperAscii(c))
  {
  }

  /** For the trimmed name registration passes in, the id has nothing for
      `trim` to remove, so the id typed back at the login page finds it. */
  lemma IdTrimmed(fullName: string, d: int)
    requires IsDraw(d) && IsTrimmed(fullName)
    ensures IsTrimmed(CandidateId(fullName, d))
    ensures Trim(CandidateId(fullName, d)) == CandidateId(fullName, d)
  {
    CandidateParts(fullName, d);
    var id := CandidateId(fullName, d);
    var clean := RemoveWhitespace(fullName);
    var suffix := id[|id| - 4..];
    assert id[|id| - 1] == suffix[3] && IsDigit(suffix[3]);
    if fullName == [] {
      assert clean == [];
      assert id[0] == suffix[0] && IsDigit(suffix[0]);
    } else {
      VisibleChars(fullName[0]);
      CleanStartsWithFirst(fullName);
      VisibleChars(clean[0]);
      assert id[0] == ToUpperAscii(clean[0]);
    }
    TrimOfTrimmed(id);
  }

  /** The register handler's checks, in its order: both fields filled in
      (the name after trimming), then a password of at least 8 chars. */
  function RegistrationCheck(fullName: string, password: string): (r: Option<Failure>)
    ensures r.None? <==> fullName != [] && |password| >= 8
    ensures r == Some(EmptyCredentials) <==> fullName == [] || password == []
    ensures r == Some(ShortPassword) <==> fullName != [] && 0 < |password| < 8
  {
    if fullName == [] || password == [] then Some(EmptyCredentials)
    else if |password| < 8 then Some(ShortPassword)
    else None
  }

  /** The id `generateUserId` settles on: the candidate of the first draw
      whose id is not taken yet; `None` when the draws run out first. */
  function IssuedId(taken: set<string>, fullName: string, draws: seq<int>): Option<string> {
    if draws == [] then None
    else
      var id := CandidateId(fullName, draws[0]);
      if id !in taken then Some(id) else IssuedId(taken, fullName, draws[1..])
  }

  /** An id is issued exactly when some draw gives a free candidate. */
  lemma {:induction false} IssuedIdExists(taken: set<string>, fullName: string, draws: seq<int>)
    ensures IssuedId(taken, fullName, draws).Some? <==>
      exists i :: 0 <= i < |draws| && CandidateId(fullName, draws[i]) !in taken
  {
    if draws != [] {
      IssuedIdExists(taken, fullName, draws[1..]);
      if CandidateId(fullName, draws[0]) in taken {
        forall i | 0 < i < |draws|
          ensures draws[i] == draws[1..][i - 1]
        {
        }
        if exists i :: 0 <= i < |draws| && CandidateId(fullName, draws[i]) !in taken {
          var i :| 0 <= i < |draws| && CandidateId(fullName, draws[i]) !in taken;
          assert CandidateId(fullName, draws[1..][i - 1]) !in taken;
        }
      }
    }
  }

  /** The candidates taken before a free one in `draws[1..]` stay taken once
      the taken candidate of `draws[0]` is put in front. */
  lemma TakenBefore(taken: set<string>, fullName: string, draws: seq<int>, i: int)
    requires 0 <= i < |draws| - 1 && CandidateId(fullName, draws[0]) in taken
    requires forall j :: 0 <= j < i ==> CandidateId(fullName, draws[1..][j]) in taken
    ensures forall j :: 0 <= j < i + 1 ==> CandidateId(fullName, draws[j]) in taken
  {
    forall j | 0 < j < i + 1
      ensures draws[j] == draws[1..][j - 1]
    {
    }
  }

  /** The id issued is free and is the candidate of the first draw whose
      candidate is free. */
  lemma {:induction false} IssuedIdFirst(taken: set<string>, fullName: string, draws: seq<int>)
    requires IssuedId(taken, fullName, draws).Some?
    ensures var id := IssuedId(taken, fullName, draws).value;
      id !in taken &&
      exists i :: 0 <= i < |draws| && id == CandidateId(fullName, draws[i]) &&
        forall j :: 0 <= j < i ==> CandidateId(fullName, draws[j]) in taken
  {
    var id := IssuedId(taken, fullName, draws).value;
    if CandidateId(fullName, draws[0]) !in taken {
      assert id == CandidateId(fullName, draws[0]);
    } else {
      var rest := draws[1..];
      IssuedIdFirst(taken, fullName, rest);
      var i :| 0 <= i < |rest| && id == CandidateId(fullName, rest[i]) &&
        forall j :: 0 <= j < i ==> CandidateId(fullName, rest[j]) in taken;
      assert rest[i] == draws[i + 1];
      TakenBefore(taken, fullName, draws, i);
    }
  }
}
