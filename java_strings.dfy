/** The few `java.lang.String` operations the application relies on:
    `trim`, `replaceAll("\\s+", "")`, an ASCII model of `toUpperCase` and
    `equalsIgnoreCase`, and `split` with a one-character delimiter. */
module JavaStrings {

  // ---------------------------------------------------------------------
  // trim
  // ---------------------------------------------------------------------

  /** `String.trim` removes every leading and trailing char at or below U+0020. */
  predicate IsTrimmable(c: char) {
    c <= ' '
  }

  predicate AllTrimmable(s: string) {
    forall i :: 0 <= i < |s| ==> IsTrimmable(s[i])
  }

  /** A string that `trim` returns unchanged. */
  predicate IsTrimmed(s: string) {
    s == [] || (!IsTrimmable(s[0]) && !IsTrimmable(s[|s| - 1]))
  }

  /** Drops the leading trimmable chars. */
  function TrimStart(s: string): (r: string)
    ensures |r| <= |s|
  {
    if s != [] && IsTrimmable(s[0]) then TrimStart(s[1..]) else s
  }

  /** What `TrimStart` keeps is the longest suffix that does not start with a
      trimmable char. */
  lemma {:induction false} TrimStartSpec(s: string)
    ensures TrimStart(s) == s[|s| - |TrimStart(s)|..]
    ensures AllTrimmable(s[..|s| - |TrimStart(s)|])
    ensures TrimStart(s) == [] || !IsTrimmable(TrimStart(s)[0])
  {
    if s != [] && IsTrimmable(s[0]) {
      TrimStartSpec(s[1..]);
      var r := TrimStart(s[1..]);
      assert s[..|s| - |r|] == [s[0]] + s[1..][..|s[1..]| - |r|];
    }
  }

  /** Drops the trailing trimmable chars. */
  function TrimEnd(s: string): (r: string)
    ensures |r| <= |s|
  {
    if s != [] && IsTrimmable(s[|s| - 1]) then TrimEnd(s[..|s| - 1]) else s
  }

  /** What `TrimEnd` keeps is the longest prefix that does not end with a
      trimmable char. */
  lemma {:induction false} TrimEndSpec(s: string)
    ensures TrimEnd(s) == s[..|TrimEnd(s)|]
    ensures AllTrimmable(s[|TrimEnd(s)|..])
    ensures TrimEnd(s) == [] || !IsTrimmable(TrimEnd(s)[|TrimEnd(s)| - 1])
  {
    if s != [] && IsTrimmable(s[|s| - 1]) {
      TrimEndSpec(s[..|s| - 1]);
      var r := TrimEnd(s[..|s| - 1]);
      assert s[|r|..] == s[..|s| - 1][|r|..] + [s[|s| - 1]];
    }
  }

  /** Java's `String.trim`. */
  function Trim(s: string): (r: string)
    ensures IsTrimmed(r)
    ensures |r| <= |s|
  {
    TrimStartSpec(s);
    TrimEndSpec(TrimStart(s));
    TrimEnd(TrimStart(s))
  }

  lemma {:induction false} TrimStartSkips(p: string, rest: string)
    requires AllTrimmable(p)
    ensures TrimStart(p + rest) == TrimStart(rest)
  {
    if p != [] {
      var s := p + rest;
      assert s[0] == p[0] && IsTrimmable(s[0]);
      assert s[1..] == p[1..] + rest;
      assert TrimStart(s) == TrimStart(s[1..]);
      TrimStartSkips(p[1..], rest);
    } else {
      assert p + rest == rest;
    }
  }

  lemma {:induction false} TrimEndSkips(rest: string, q: string)
    requires AllTrimmable(q)
    ensures TrimEnd(rest + q) == TrimEnd(rest)
  {
    if q != [] {
      var s := rest + q;
      assert s[|s| - 1] == q[|q| - 1] && IsTrimmable(s[|s| - 1]);
      assert s[..|s| - 1] == rest + q[..|q| - 1];
      assert TrimEnd(s) == TrimEnd(s[..|s| - 1]);
      TrimEndSkips(rest, q[..|q| - 1]);
    } else {
      assert rest + q == rest;
    }
  }

  /** `trim` is characterised by what it removes: whenever a string is a
      trimmed middle part between two runs of trimmable chars, `trim`
      returns exactly that middle part. */
  lemma TrimUnique(p: string, m: string, q: string)
    requires AllTrimmable(p) && AllTrimmable(q) && IsTrimmed(m)
    ensures Trim(p + m + q) == m
  {
    assert p + m + q == p + (m + q);
    TrimStartSkips(p, m + q);
    if m == [] {
      assert m + q == q + [];
      TrimStartSkips(q, []);
      assert TrimStart(p + m + q) == [];
    } else {
      assert (m + q)[0] == m[0];
      assert TrimStart(m + q) == m + q;
      TrimEndSkips(m, q);
      assert TrimEnd(m) == m;
    }
  }

  lemma TrimOfTrimmed(s: string)
    requires IsTrimmed(s)
    ensures Trim(s) == s
  {
    TrimUnique([], s, []);
    assert [] + s + [] == s;
  }

  /** Trimming twice is trimming once. */
  lemma TrimIdempotent(s: string)
    ensures Trim(Trim(s)) == Trim(s)
  {
    TrimOfTrimmed(Trim(s));
  }

  lemma {:induction false} TrimStartEmptyIff(s: string)
    ensures TrimStart(s) == [] <==> AllTrimmable(s)
  {
    if s != [] {
      TrimStartEmptyIff(s[1..]);
      assert forall i :: 1 <= i < |s| ==> s[i] == s[1..][i - 1];
    }
  }

  /** `TrimEnd` never reaches a first char that is not trimmable. */
  lemma {:induction false} TrimEndKeepsFirst(s: string)
    requires s != [] && !IsTrimmable(s[0])
    ensures TrimEnd(s) != []
  {
    if IsTrimmable(s[|s| - 1]) {
      assert |s| > 1;
      TrimEndKeepsFirst(s[..|s| - 1]);
    }
  }

  /** `trim().isEmpty()` holds exactly of the strings made only of trimmable chars. */
  lemma TrimEmptyIff(s: string)
    ensures Trim(s) == [] <==> AllTrimmable(s)
  {
    TrimStartEmptyIff(s);
    TrimStartSpec(s);
    if TrimStart(s) != [] {
      TrimEndKeepsFirst(TrimStart(s));
    }
  }

  // ---------------------------------------------------------------------
  // replaceAll("\\s+", "")
  // ---------------------------------------------------------------------

  /** The chars of the regular-expression class `\s` without Unicode
      classes: space, tab, line feed, vertical tab, form feed, carriage return. */
  predicate IsRegexSpace(c: char) {
    c == ' ' || c == '\t' || c == '\n' || c == '\U{0B}' || c == '\U{0C}' || c == '\r'
  }

  /** `s.replaceAll("\\s+", "")`: every `\s` char removed, the others kept in order. */
  function RemoveWhitespace(s: string): string {
    if s == [] then []
    else
      var rest := RemoveWhitespace(s[1..]);
      if IsRegexSpace(s[0]) then rest else [s[0]] + rest
  }

  /** No `\s` char is left, and every other char is kept as often as it occurs. */
  lemma {:induction false} RemoveWhitespaceSpec(s: string)
    ensures forall i :: 0 <= i < |RemoveWhitespace(s)| ==> !IsRegexSpace(RemoveWhitespace(s)[i])
    ensures forall c :: !IsRegexSpace(c) ==> multiset(RemoveWhitespace(s))[c] == multiset(s)[c]
  {
    if s != [] {
      RemoveWhitespaceSpec(s[1..]);
      assert s == [s[0]] + s[1..];
    }
  }

  /** Removal works char by char, so it distributes over concatenation:
      the kept chars stay in their original order. */
  lemma {:induction false} RemoveWhitespaceAppend(a: string, b: string)
    ensures RemoveWhitespace(a + b) == RemoveWhitespace(a) + RemoveWhitespace(b)
  {
    if a != [] {
      assert (a + b)[0] == a[0];
      assert (a + b)[1..] == a[1..] + b;
      RemoveWhitespaceAppend(a[1..], b);
    } else {
      assert a + b == b;
    }
  }

  /** A string without `\s` chars is left unchanged, so removal is idempotent. */
  lemma {:induction false} RemoveWhitespaceFixpoint(s: string)
    requires forall i :: 0 <= i < |s| ==> !IsRegexSpace(s[i])
    ensures RemoveWhitespace(s) == s
  {
    if s != [] {
      RemoveWhitespaceFixpoint(s[1..]);
    }
  }

  // ---------------------------------------------------------------------
  // toUpperCase and equalsIgnoreCase, restricted to ASCII letters
  // ---------------------------------------------------------------------

  function ToUpperAscii(c: char): (u: char)
    ensures 'a' <= c <= 'z' ==> 'A' <= u <= 'Z' && u as int == c as int - 32
    ensures !('a' <= c <= 'z') ==> u == c
  {
    if 'a' <= c <= 'z' then (c as int - 32) as char else c
  }

  /** `a.equalsIgnoreCase(b)`: same length, and chars at the same position
      agree once upper-cased. */
  predicate EqualsIgnoreCase(a: string, b: string) {
    |a| == |b| && forall i :: 0 <= i < |a| ==> ToUpperAscii(a[i]) == ToUpperAscii(b[i])
  }

  // ---------------------------------------------------------------------
  // split(d) for a one-character delimiter d that is not a regex meta-char
  // ---------------------------------------------------------------------

  /** Every field between occurrences of `d`, empty fields included. */
  function Fields(s: string, d: char): (r: seq<string>)
    ensures |r| >= 1
  {
    if s == [] then [[]]
    else
      var rest := Fields(s[1..], d);
      if s[0] == d then [[]] + rest else [[s[0]] + rest[0]] + rest[1..]
  }

  /** No field contains the delimiter, and without a delimiter there is one field. */
  lemma {:induction false} FieldsSpec(s: string, d: char)
    ensures forall i :: 0 <= i < |Fields(s, d)| ==> d !in Fields(s, d)[i]
    ensures d !in s ==> Fields(s, d) == [s]
  {
    if s != [] {
      FieldsSpec(s[1..], d);
      assert s == [s[0]] + s[1..];
    }
  }

  /** The fields put back together with `d` between them. */
  function Join(fs: seq<string>, d: char): string
    requires |fs| >= 1
  {
    if |fs| == 1 then fs[0] else fs[0] + [d] + Join(fs[1..], d)
  }

  /** Cutting at `d` and gluing back gives the original string. */
  lemma {:induction false} JoinFields(s: string, d: char)
    ensures Join(Fields(s, d), d) == s
  {
    if s != [] {
      JoinFields(s[1..], d);
      var rest := Fields(s[1..], d);
      if s[0] != d && |rest| > 1 {
        assert rest == [rest[0]] + rest[1..];
      }
      assert s == [s[0]] + s[1..];
    }
  }

  lemma {:induction false} FieldsPrefix(a: string, t: string, d: char)
    requires d !in a
    ensures Fields(a + t, d) == [a + Fields(t, d)[0]] + Fields(t, d)[1..]
  {
    var ft := Fields(t, d);
    if a != [] {
      assert (a + t)[0] == a[0] && a[0] != d;
      assert (a + t)[1..] == a[1..] + t;
      FieldsPrefix(a[1..], t, d);
      var rest := Fields(a[1..] + t, d);
      assert rest[0] == a[1..] + ft[0] && rest[1..] == ft[1..];
      assert [a[0]] + (a[1..] + ft[0]) == a + ft[0];
    } else {
      assert a + t == t && a + ft[0] == ft[0];
      assert ft == [ft[0]] + ft[1..];
    }
  }

  /** Gluing fields that do not contain `d` and cutting again gives the fields back. */
  lemma {:induction false} FieldsJoin(fs: seq<string>, d: char)
    requires |fs| >= 1
    requires forall i :: 0 <= i < |fs| ==> d !in fs[i]
    ensures Fields(Join(fs, d), d) == fs
  {
    if |fs| > 1 {
      var j := Join(fs[1..], d);
      FieldsJoin(fs[1..], d);
      var t := [d] + j;
      assert t[0] == d && t[1..] == j;
      var ft := Fields(t, d);
      assert ft == [[]] + fs[1..];
      assert ft[0] == [] && ft[1..] == fs[1..];
      FieldsPrefix(fs[0], t, d);
      assert Join(fs, d) == fs[0] + t;
      assert fs[0] + ft[0] == fs[0];
      assert fs == [fs[0]] + fs[1..];
    } else {
      FieldsSpec(fs[0], d);
    }
  }

  /** Java's "trailing empty strings are not included in the resulting array". */
  function DropTrailingEmpty(fs: seq<string>): (r: seq<string>)
    ensures |r| <= |fs|
  {
    if fs != [] && fs[|fs| - 1] == [] then DropTrailingEmpty(fs[..|fs| - 1]) else fs
  }

  /** What is dropped is exactly the run of empty fields at the end. */
  lemma {:induction false} DropTrailingEmptySpec(fs: seq<string>)
    ensures DropTrailingEmpty(fs) == fs[..|DropTrailingEmpty(fs)|]
    ensures DropTrailingEmpty(fs) == [] || DropTrailingEmpty(fs)[|DropTrailingEmpty(fs)| - 1] != []
    ensures forall j :: |DropTrailingEmpty(fs)| <= j < |fs| ==> fs[j] == []
  {
    if fs != [] && fs[|fs| - 1] == [] {
      var init := fs[..|fs| - 1];
      DropTrailingEmptySpec(init);
      var r := DropTrailingEmpty(init);
      assert init[..|r|] == fs[..|r|];
      assert forall j :: |r| <= j < |init| ==> init[j] == fs[j];
    }
  }

  /** `s.split(String.valueOf(d))` with limit 0. When `d` does not occur the
      result is the one-element array holding `s` (even when `s` is empty);
      otherwise it is the list of fields with the trailing empty ones dropped. */
  function Split(s: string, d: char): (r: seq<string>) {
    if d !in s then [s] else DropTrailingEmpty(Fields(s, d))
  }

  /** `split` keeps the fields in order, drops only trailing empty ones, and
      no field it returns contains the delimiter. */
  lemma SplitSpec(s: string, d: char)
    ensures forall i :: 0 <= i < |Split(s, d)| ==> d !in Split(s, d)[i]
    ensures d !in s ==> Split(s, d) == [s]
    ensures d in s ==> |Split(s, d)| <= |Fields(s, d)| && Split(s, d) == Fields(s, d)[..|Split(s, d)|]
    ensures d in s ==> Split(s, d) == [] || Split(s, d)[|Split(s, d)| - 1] != []
    ensures d in s ==> forall j :: |Split(s, d)| <= j < |Fields(s, d)| ==> Fields(s, d)[j] == []
  {
    FieldsSpec(s, d);
    if d in s {
      DropTrailingEmptySpec(Fields(s, d));
      var r := Split(s, d);
      assert forall i :: 0 <= i < |r| ==> r[i] == Fields(s, d)[i];
    }
  }

  /** A run of `k` empty fields. */
  function Empties(k: nat): (r: seq<string>)
    ensures |r| == k && forall i :: 0 <= i < k ==> r[i] == []
  {
    seq(k, _ => [])
  }

  lemma {:induction false} DropEmpties(fs: seq<string>, k: nat)
    requires fs == [] || fs[|fs| - 1] != []
    ensures DropTrailingEmpty(fs + Empties(k)) == fs
  {
    if k > 0 {
      var t := fs + Empties(k);
      assert t[|t| - 1] == [];
      assert t[..|t| - 1] == fs + Empties(k - 1);
      DropEmpties(fs, k - 1);
    } else {
      assert fs + Empties(0) == fs;
    }
  }

  /** `split` undoes a join of at least two fields, given that the last
      non-empty field is followed only by `k` empty ones. */
  lemma SplitJoin(fs: seq<string>, k: nat, d: char)
    requires |fs| >= 1 && fs[|fs| - 1] != [] && |fs| + k >= 2
    requires forall i :: 0 <= i < |fs| ==> d !in fs[i]
    ensures Split(Join(fs + Empties(k), d), d) == fs
  {
    var all := fs + Empties(k);
    var s := Join(all, d);
    assert forall i :: 0 <= i < |all| ==> d !in all[i];
    FieldsJoin(all, d);
    assert s == all[0] + [d] + Join(all[1..], d);
    assert s[|all[0]|] == d;
    DropEmpties(fs, k);
  }
}
