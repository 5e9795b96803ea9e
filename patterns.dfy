/** The source's regular expressions written generatively — as the strings each pattern
    matches — and proved equivalent to the predicates of `Grammar`, which decide the same
    patterns position by position. */
module Patterns {
  import opened CharClass
  import opened Splitter
  import opened Grammar

  // ---------------------------------------------------------------- Authors

  /** A string of the shape `u w1 : w2 {organization rest`. */
  function OrganizationText(u: string, w1: char, w2: char, rest: string): string {
    u + [w1, ':', w2] + "{organization" + rest
  }

  /** `re.search(r"^[\S\s]*\s:\s\{organization", s)` succeeds: whatever precedes, whitespace,
      a colon, whitespace, `{organization`, whatever follows. */
  ghost predicate OrganizationRegexMatch(s: string) {
    exists u, w1, w2, rest :: IsSpace(w1) && IsSpace(w2) && s == OrganizationText(u, w1, w2, rest)
  }

  lemma OrganizationAtIsRegex(s: string)
    ensures (exists i :: 0 <= i < |s| && OrganizationAt(s, i)) <==> OrganizationRegexMatch(s)
  {
    if i :| 0 <= i < |s| && OrganizationAt(s, i) {
      OrganizationAtText(s, i);
    }
    if OrganizationRegexMatch(s) {
      var u, w1, w2, rest :| IsSpace(w1) && IsSpace(w2) && s == OrganizationText(u, w1, w2, rest);
      OrganizationTextAt(u, w1, w2, rest);
    }
  }

  lemma OrganizationAtText(s: string, i: nat)
    requires OrganizationAt(s, i)
    ensures s == OrganizationText(s[..i], s[i], s[i + 2], s[i + 16..])
  {
    assert s == s[..i] + s[i..i + 3] + s[i + 3..i + 16] + s[i + 16..];
    assert s[i..i + 3] == [s[i], ':', s[i + 2]];
  }

  lemma OrganizationTextAt(u: string, w1: char, w2: char, rest: string)
    requires IsSpace(w1) && IsSpace(w2)
    ensures OrganizationAt(OrganizationText(u, w1, w2, rest), |u|)
  {
    var s, i := OrganizationText(u, w1, w2, rest), |u|;
    assert s[i] == w1 && s[i + 1] == ':' && s[i + 2] == w2;
    assert s[i + 3..i + 16] == "{organization";
  }

  /** The three searches of `check_author_format`, as patterns: `[N]+,\s[N]+` somewhere (the
      rest of the first pattern may match the empty string), the organization marker, or
      exactly `n/a` up to Python's `$`. */
  ghost predicate AuthorRegexOk(s: string) {
    NamePairRegexMatch(s) || OrganizationRegexMatch(s) || Anchored(s) == "n/a"
  }

  lemma AuthorFormatIsRegex(s: string)
    ensures AuthorFormatOk(s) <==> AuthorRegexOk(s)
  {
    NamePairWindowIsRegex(s);
    OrganizationAtIsRegex(s);
  }

  // ---------------------------------------------------------------- Link and FileFormat

  /** `re.search(r"^https://\S+(?:\s\*\shttps://\S+)*$", s)` succeeds exactly when every piece
      of the ` * `-split of the cell (up to Python's `$`) is one `https://…` item. */
  lemma LinkFormatIsItemList(s: string)
    ensures LinkFormatOk(s) <==> AllItems(LinkItem, Split(Anchored(s)))
  {
    ListBodySplit(LinkItem, Anchored(s));
  }

  /** `re.search(r"^\.\w+(?:$|\s\*\s\.\w+)*$", s)` succeeds exactly when every piece of the
      ` * `-split of the cell (up to Python's `$`) is one `.ext` item. */
  lemma FileFormatIsItemList(s: string)
    ensures FileFormatOk(s) <==> AllItems(ExtensionItem, Split(Anchored(s)))
  {
    ListBodySplit(ExtensionItem, Anchored(s));
  }

  // ---------------------------------------------------------------- Community

  /** A string of the shape `u w (tag)`. */
  function RoleText(u: string, w: char, tag: string): string {
    u + [w] + "(" + tag + ")"
  }

  /** An item `name (tag)`, the form whose name `check_community_name` looks up. */
  function WithRole(name: string, tag: string): string {
    name + " (" + tag + ")"
  }

  predicate IsRoleTag(tag: string) {
    tag == "RS" || tag == "SR" || tag == "S" || tag == "R"
  }

  /** `re.search(r'^[\S\s]*\s\((RS|SR|S|R)\)$', s)` succeeds. */
  ghost predicate CommunityRegexMatch(s: string) {
    exists u, w, tag :: IsSpace(w) && IsRoleTag(tag) && Anchored(s) == RoleText(u, w, tag)
  }

  lemma EndsWithRoleIsText(t: string, tag: string)
    ensures EndsWithRole(t, tag) <==> exists u, w :: IsSpace(w) && t == RoleText(u, w, tag)
  {
    var n := |tag| + 3;
    if EndsWithRole(t, tag) {
      var k := |t| - n;
      var u := t[..k];
      assert t == u + [t[k]] + [t[k + 1]] + t[k + 2..|t| - 1] + [t[|t| - 1]];
      assert t == RoleText(u, t[k], tag);
    }
    if u, w :| IsSpace(w) && t == RoleText(u, w, tag) {
      var k := |u|;
      assert |t| == k + n;
      assert t[k] == w && t[k + 1] == '(' && t[|t| - 1] == ')';
      assert t[k + 2..|t| - 1] == tag;
    }
  }

  lemma CommunityFormatIsRegex(s: string)
    ensures CommunityFormatOk(s) <==> CommunityRegexMatch(s)
  {
    var t := Anchored(s);
    if CommunityFormatOk(s) {
      var tag :=
        if EndsWithRole(t, "RS") then "RS"
        else if EndsWithRole(t, "SR") then "SR"
        else if EndsWithRole(t, "S") then "S"
        else "R";
      EndsWithRoleIsText(t, tag);
    }
    if CommunityRegexMatch(s) {
      var u, w, tag :| IsSpace(w) && IsRoleTag(tag) && t == RoleText(u, w, tag);
      EndsWithRoleIsText(t, tag);
    }
  }

  // ---------------------------------------------------------------- Discipline

  /** n decimal digits start at position lo of s. */
  predicate DigitRun(s: string, lo: nat, n: nat) {
    lo + n <= |s| && forall m :: lo <= m < lo + n ==> IsDigit(s[m])
  }

  /** `re.search(r"^https://w3id\.org/kim/hochschulfaechersystematik/n\d+", s)` succeeds: the
      prefix, then one or more digits, then anything. */
  ghost predicate DisciplineRegexMatch(s: string) {
    var p := |DisciplinePrefix|;
    exists n :: 1 <= n && p + n <= |s| && s[..p] == DisciplinePrefix && DigitRun(s, p, n)
  }

  lemma DisciplineLinkIsRegex(s: string)
    ensures DisciplineLinkOk(s) <==> DisciplineRegexMatch(s)
  {
    var p := |DisciplinePrefix|;
    if DisciplineLinkOk(s) {
      assert DigitRun(s, p, 1);
    }
    if DisciplineRegexMatch(s) {
      var n :| 1 <= n && p + n <= |s| && s[..p] == DisciplinePrefix && DigitRun(s, p, n);
      assert IsDigit(s[p]);
    }
  }

  // ---------------------------------------------------------------- PublicationDate

  /** A string of exactly n decimal digits. */
  predicate DigitString(x: string, n: nat) {
    |x| == n && forall m :: 0 <= m < |x| ==> IsDigit(x[m])
  }

  function Dashed(x: string, y: string): string {
    x + "-" + y
  }

  /** The strings the three anchored date patterns accept: `yyyy`, `yyyy-mm` or `yyyy-mm-dd`
      with every letter a digit. */
  ghost predicate DateShape(t: string) {
    DigitString(t, 4)
    || (exists y, m :: DigitString(y, 4) && DigitString(m, 2) && t == Dashed(y, m))
    || (exists y, m, d :: DigitString(y, 4) && DigitString(m, 2) && DigitString(d, 2) && t == Dashed(Dashed(y, m), d))
  }

  lemma YearMonthIsDashed(t: string)
    ensures YearMonthForm(t) <==> exists y, m :: DigitString(y, 4) && DigitString(m, 2) && t == Dashed(y, m)
  {
    if YearMonthForm(t) {
      var y, m := t[..4], t[5..7];
      assert DigitString(y, 4) && DigitString(m, 2);
      assert t == Dashed(y, m);
    }
    if y, m :| DigitString(y, 4) && DigitString(m, 2) && t == Dashed(y, m) {
      assert forall i :: 0 <= i < 4 ==> t[i] == y[i];
      assert forall i :: 5 <= i < 7 ==> t[i] == m[i - 5];
    }
  }

  lemma YearMonthDayIsDashed(t: string)
    ensures YearMonthDayForm(t) <==>
      exists y, m, d :: DigitString(y, 4) && DigitString(m, 2) && DigitString(d, 2) && t == Dashed(Dashed(y, m), d)
  {
    if YearMonthDayForm(t) {
      var y, m, d := t[..4], t[5..7], t[8..10];
      assert DigitString(y, 4) && DigitString(m, 2) && DigitString(d, 2);
      assert t == Dashed(Dashed(y, m), d);
    }
    if y, m, d :| DigitString(y, 4) && DigitString(m, 2) && DigitString(d, 2) && t == Dashed(Dashed(y, m), d) {
      assert forall i :: 0 <= i < 4 ==> t[i] == y[i];
      assert forall i :: 5 <= i < 7 ==> t[i] == m[i - 5];
      assert forall i :: 8 <= i < 10 ==> t[i] == d[i - 8];
    }
  }

  lemma DateFormatIsShape(s: string)
    ensures DateFormatOk(s) <==> DateShape(Anchored(s))
  {
    var t := Anchored(s);
    YearMonthIsDashed(t);
    YearMonthDayIsDashed(t);
    assert YearForm(t) <==> DigitString(t, 4);
  }
}
