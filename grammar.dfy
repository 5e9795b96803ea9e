/** The format predicates of the compliance checker, one per regular expression of the source,
    written as predicates over strings. Each source function `check_X_format` returns True when
    the cell is WRONG; the predicates here are stated positively (`XFormatOk`), so the source's
    result is their negation. */
module Grammar {
  import opened Wrappers
  import opened CharClass
  import opened Splitter

  /** Python's `$` (without MULTILINE) matches at the end of the string or just before a final
      newline. Every fully anchored pattern below ends in a non-whitespace character, so `^X$`
      matches s exactly when X matches s with one final newline removed. */
  function Anchored(s: string): (t: string)
    ensures |t| <= |s| && t == s[..|t|]
  {
    if |s| > 0 && s[|s| - 1] == '\n' then s[..|s| - 1] else s
  }

  predicate NoSpace(s: string) {
    forall m :: 0 <= m < |s| ==> !IsSpace(s[m])
  }

  lemma NoSpaceNoDelimiter(s: string, k: nat)
    requires k <= |s| && NoSpace(s[..k])
    ensures forall j: nat :: j < k ==> !DelimiterAt(s, j)
  {
    forall j: nat | j < k
      ensures !DelimiterAt(s, j)
    {
      assert s[..k][j] == s[j];
    }
  }

  // ---------------------------------------------------------------- Authors

  /** A window `N,\sN` with N a name character starts at i. */
  predicate NamePairAt(s: string, i: nat) {
    i + 4 <= |s| && IsNameChar(s[i]) && s[i + 1] == ',' && IsSpace(s[i + 2]) && IsNameChar(s[i + 3])
  }

  /** ` : {organization` (any whitespace around the colon) starts at i. */
  predicate OrganizationAt(s: string, i: nat) {
    i + 16 <= |s| && IsSpace(s[i]) && s[i + 1] == ':' && IsSpace(s[i + 2])
    && s[i + 3..i + 16] == "{organization"
  }

  /** The negation of `check_author_format`. Its first pattern is searched unanchored and
      everything after `[N]+,\s[N]+` may match the empty string, so it succeeds exactly when
      some window `N,\sN` occurs; the second succeeds when ` : {organization` occurs; the third
      is `^n/a$`. */
  predicate AuthorFormatOk(s: string) {
    (exists i :: 0 <= i < |s| && NamePairAt(s, i))
    || (exists i :: 0 <= i < |s| && OrganizationAt(s, i))
    || Anchored(s) == "n/a"
  }

  predicate AllNameChars(s: string) {
    forall m :: 0 <= m < |s| ==> IsNameChar(s[m])
  }

  /** s[i..k] is `[N]+,\s[N]+` with the comma at j. */
  predicate NamePairSpan(s: string, i: nat, j: nat, k: nat) {
    i < j && j + 2 < k <= |s| && AllNameChars(s[i..j]) && s[j] == ','
    && IsSpace(s[j + 1]) && AllNameChars(s[j + 2..k])
  }

  /** The core `[N]+,\s[N]+` of the first Authors pattern matched by some substring of s. */
  ghost predicate NamePairRegexMatch(s: string) {
    exists i: nat, j: nat, k: nat :: NamePairSpan(s, i, j, k)
  }

  /** Searching for the 4-character window is the same as searching for the whole
      `[N]+,\s[N]+` pattern. */
  lemma NamePairWindowIsRegex(s: string)
    ensures (exists i :: 0 <= i < |s| && NamePairAt(s, i)) <==> NamePairRegexMatch(s)
  {
    if i :| 0 <= i < |s| && NamePairAt(s, i) {
      assert NamePairSpan(s, i, i + 1, i + 4);
    }
    if NamePairRegexMatch(s) {
      var i: nat, j: nat, k: nat :| NamePairSpan(s, i, j, k);
      assert s[i..j][j - 1 - i] == s[j - 1];
      assert s[j + 2..k][0] == s[j + 2];
      assert NamePairAt(s, j - 1);
    }
  }

  // ---------------------------------------------------------------- Link and FileFormat

  /** The two item grammars whose whole cell must be a ` * `-joined list:
      Link items `https://\S+` and FileFormat items `\.\w+`. */
  datatype ItemGrammar = LinkItem | ExtensionItem

  function Lead(g: ItemGrammar): string {
    match g
    case LinkItem => "https://"
    case ExtensionItem => "."
  }

  predicate RunChar(g: ItemGrammar, c: char) {
    match g
    case LinkItem => !IsSpace(c)
    case ExtensionItem => IsWordChar(c)
  }

  /** Length of the longest prefix of s made of run characters (the greedy `\S+` or `\w+`). */
  function RunLength(g: ItemGrammar, s: string): (n: nat)
    ensures n <= |s|
    ensures forall m :: 0 <= m < n ==> RunChar(g, s[m])
    ensures n < |s| ==> !RunChar(g, s[n])
  {
    if s == [] || !RunChar(g, s[0]) then 0 else 1 + RunLength(g, s[1..])
  }

  /** `Lead Run+ (\s\*\s Lead Run+)*` matches the whole of t. The greedy run must stop where
      the next delimiter begins, so the match is decided left to right without backtracking. */
  predicate ListBody(g: ItemGrammar, t: string)
    decreases |t|
  {
    var p := |Lead(g)|;
    p < |t| && t[..p] == Lead(g)
    && var n := p + RunLength(g, t[p..]);
    n > p && (n == |t| || (DelimiterAt(t, n) && ListBody(g, t[n + 3..])))
  }

  /** One item of the list: the lead followed by at least one run character. */
  predicate IsItem(g: ItemGrammar, x: string) {
    var p := |Lead(g)|;
    p < |x| && x[..p] == Lead(g) && forall m :: p <= m < |x| ==> RunChar(g, x[m])
  }

  lemma ItemHasNoSpace(g: ItemGrammar, x: string)
    requires IsItem(g, x)
    ensures NoSpace(x)
  {
    forall m | 0 <= m < |x|
      ensures !IsSpace(x[m])
    {
      if m < |Lead(g)| {
        assert x[..|Lead(g)|][m] == x[m];
      } else {
        NameCharNotSpace(x[m]);
      }
    }
  }

  predicate AllItems(g: ItemGrammar, items: seq<string>) {
    forall i :: 0 <= i < |items| ==> IsItem(g, items[i])
  }

  /** The whole-cell list grammar holds exactly when every piece that Split cuts the cell into
      is one item. */
  lemma ListBodySplit(g: ItemGrammar, t: string)
    ensures ListBody(g, t) <==> AllItems(g, Split(t))
  {
    if ListBody(g, t) {
      ListBodySplitsIntoItems(g, t);
    }
    if AllItems(g, Split(t)) {
      ItemsMakeListBody(g, t);
    }
  }

  lemma AllItemsCons(g: ItemGrammar, x: string, rest: seq<string>)
    ensures AllItems(g, [x] + rest) <==> IsItem(g, x) && AllItems(g, rest)
  {
    if IsItem(g, x) && AllItems(g, rest) {
      forall i | 0 <= i < |[x] + rest|
        ensures IsItem(g, ([x] + rest)[i])
      {
        if i > 0 {
          assert ([x] + rest)[i] == rest[i - 1];
        }
      }
    }
    if AllItems(g, [x] + rest) {
      assert ([x] + rest)[0] == x;
      forall i | 0 <= i < |rest|
        ensures IsItem(g, rest[i])
      {
        assert rest[i] == ([x] + rest)[i + 1];
      }
    }
  }

  /** A run of exactly r characters followed by a non-run character or the end. */
  lemma RunLengthIs(g: ItemGrammar, s: string, r: nat)
    requires r <= |s|
    requires forall m :: 0 <= m < r ==> RunChar(g, s[m])
    requires r < |s| ==> !RunChar(g, s[r])
    ensures RunLength(g, s) == r
  {
  }

  /** The first item of t ends at n, where the run after the lead stops. */
  lemma FirstItem(g: ItemGrammar, t: string, n: nat)
    requires |Lead(g)| < n <= |t| && t[..|Lead(g)|] == Lead(g)
    requires n == |Lead(g)| + RunLength(g, t[|Lead(g)|..])
    ensures IsItem(g, t[..n])
    ensures forall j: nat :: j < n ==> !DelimiterAt(t, j)
  {
    var p := |Lead(g)|;
    forall m | p <= m < n
      ensures RunChar(g, t[..n][m])
    {
      assert t[p..][m - p] == t[m];
    }
    assert t[..n][..p] == t[..p];
    ItemHasNoSpace(g, t[..n]);
    NoSpaceNoDelimiter(t, n);
  }

  lemma {:induction false} ListBodySplitsIntoItems(g: ItemGrammar, t: string)
    requires ListBody(g, t)
    decreases |t|
    ensures AllItems(g, Split(t))
  {
    var p := |Lead(g)|;
    var n := p + RunLength(g, t[p..]);
    FirstItem(g, t, n);
    if n == |t| {
      assert t[..n] == t;
      assert !HasDelimiter(t);
      assert Split(t) == [t];
    } else {
      assert DelimiterAt(t, n) && ListBody(g, t[n + 3..]);
      SplitAtFirst(t, n);
      ListBodySplitsIntoItems(g, t[n + 3..]);
      AllItemsCons(g, t[..n], Split(t[n + 3..]));
    }
  }

  /** An item that ends at k, followed by whitespace or the end, fixes the first run of t. */
  lemma ItemPrefix(g: ItemGrammar, t: string, k: nat)
    requires k <= |t| && IsItem(g, t[..k])
    requires k < |t| ==> IsSpace(t[k])
    ensures |Lead(g)| < k && t[..|Lead(g)|] == Lead(g)
    ensures |Lead(g)| + RunLength(g, t[|Lead(g)|..]) == k
  {
    var p := |Lead(g)|;
    var head := t[..k];
    assert t[..p] == head[..p];
    forall m | 0 <= m < k - p
      ensures RunChar(g, t[p..][m])
    {
      assert t[p..][m] == head[p + m];
    }
    if k < |t| {
      assert t[p..][k - p] == t[k];
      NameCharNotSpace(t[k]);
    }
    RunLengthIs(g, t[p..], k - p);
  }

  lemma {:induction false} ItemsMakeListBody(g: ItemGrammar, t: string)
    requires AllItems(g, Split(t))
    decreases |t|
    ensures ListBody(g, t)
  {
    match FindDelimiter(t, 0)
    case None =>
      assert Split(t)[0] == t;
      assert IsItem(g, t);
      assert t[..|t|] == t;
      ItemPrefix(g, t, |t|);
    case Some(k) =>
      assert DelimiterAt(t, k);
      var rest := Split(t[k + 3..]);
      assert Split(t) == [t[..k]] + rest;
      AllItemsCons(g, t[..k], rest);
      assert IsItem(g, t[..k]);
      ItemPrefix(g, t, k);
      ItemsMakeListBody(g, t[k + 3..]);
      assert |Lead(g)| + RunLength(g, t[|Lead(g)|..]) == k;
  }

  /** The negation of the Link test: `^https://\S+(?:\s\*\shttps://\S+)*$`. */
  predicate LinkFormatOk(s: string) {
    ListBody(LinkItem, Anchored(s))
  }

  /** The negation of `check_file_format_format`: `^\.\w+(?:$|\s\*\s\.\w+)*$`; the inner `$`
      alternative consumes nothing and adds no string to the language. */
  predicate FileFormatOk(s: string) {
    ListBody(ExtensionItem, Anchored(s))
  }

  // ---------------------------------------------------------------- Community

  /** t ends with whitespace, `(`, the tag and `)`. */
  predicate EndsWithRole(t: string, tag: string) {
    var n := |tag| + 3;
    n <= |t| && IsSpace(t[|t| - n]) && t[|t| - n + 1] == '(' && t[|t| - n + 2..|t| - 1] == tag
    && t[|t| - 1] == ')'
  }

  /** The negation of `check_community_format`: `^[\S\s]*\s\((RS|SR|S|R)\)$`. */
  predicate CommunityFormatOk(s: string) {
    var t := Anchored(s);
    EndsWithRole(t, "RS") || EndsWithRole(t, "SR") || EndsWithRole(t, "S") || EndsWithRole(t, "R")
  }

  /** The last position j with lo <= j < hi and s[j] == ')'. */
  function LastClose(s: string, lo: nat, hi: nat): (r: Option<nat>)
    requires lo <= hi <= |s|
    decreases hi
    ensures r.Some? ==> lo <= r.value < hi && s[r.value] == ')'
    ensures r.Some? ==> forall j :: r.value < j < hi ==> s[j] != ')'
    ensures r.None? ==> forall j :: lo <= j < hi ==> s[j] != ')'
  {
    if hi == lo then None
    else if s[hi - 1] == ')' then Some(hi - 1)
    else LastClose(s, lo, hi - 1)
  }

  /** The end of the match of `\s\(\S*\)` that starts at i, if one does: the greedy `\S*` runs up
      to the next whitespace and backs off to the last `)` inside that run. */
  function RoleMatchEnd(s: string, i: nat): (r: Option<nat>)
    ensures r.Some? ==> i + 3 <= r.value <= |s| && s[r.value - 1] == ')'
  {
    if i + 3 <= |s| && IsSpace(s[i]) && s[i + 1] == '(' then
      var run := i + 2 + RunLength(LinkItem, s[i + 2..]);
      match LastClose(s, i + 2, run)
      case Some(j) => Some(j + 1)
      case None => None
    else
      None
  }

  /** `re.sub(r'\s\(\S*\)', '', s)`: remove every match, leftmost first, without overlap. */
  function StripRoles(s: string): string
    decreases |s|
  {
    if s == [] then []
    else match RoleMatchEnd(s, 0)
      case Some(e) => StripRoles(s[e..])
      case None => [s[0]] + StripRoles(s[1..])
  }

  /** s contains no whitespace immediately followed by `(`, so the pattern cannot match in it. */
  predicate NoRoleMarker(s: string) {
    forall m :: 0 <= m < |s| - 1 ==> !(IsSpace(s[m]) && s[m + 1] == '(')
  }

  /** The name looked up in the subsidiaries list is the cell with its `(tag)` suffix removed,
      whatever the tag, as long as the name itself has no ` (` in it. */
  lemma {:induction false} StripRoleSuffix(name: string, tag: string)
    requires NoRoleMarker(name) && NoSpace(tag)
    decreases |name|
    ensures StripRoles(name + " (" + tag + ")") == name
  {
    var s := name + " (" + tag + ")";
    if name == [] {
      var run := 2 + RunLength(LinkItem, s[2..]);
      forall m | 2 <= m < |s|
        ensures !IsSpace(s[m])
      {
        if m < |s| - 1 {
          assert s[m] == tag[m - 2];
        }
      }
      assert run == |s|;
      assert RoleMatchEnd(s, 0) == Some(|s|);
      assert s[|s|..] == [];
    } else {
      assert RoleMatchEnd(s, 0) == None by {
        if |name| >= 2 {
          assert s[0] == name[0] && s[1] == name[1];
        } else {
          assert s[1] == ' ';
        }
      }
      assert s[1..] == name[1..] + " (" + tag + ")";
      StripRoleSuffix(name[1..], tag);
    }
  }

  // ---------------------------------------------------------------- Discipline

  const DisciplinePrefix: string := "https://w3id.org/kim/hochschulfaechersystematik/n"

  /** The negation of `check_discipline_link`: anchored at the start only, so the link passes
      when it begins with the prefix and one digit, whatever follows. */
  predicate DisciplineLinkOk(s: string) {
    |DisciplinePrefix| < |s| && s[..|DisciplinePrefix|] == DisciplinePrefix
    && IsDigit(s[|DisciplinePrefix|])
  }

  // ---------------------------------------------------------------- PublicationDate

  predicate DigitsAt(t: string, lo: nat, hi: nat)
    requires lo <= hi <= |t|
  {
    forall m :: lo <= m < hi ==> IsDigit(t[m])
  }

  /** `\d{4}` */
  predicate YearForm(t: string) {
    |t| == 4 && DigitsAt(t, 0, 4)
  }

  /** `\d{4}-\d{2}` */
  predicate YearMonthForm(t: string) {
    |t| == 7 && DigitsAt(t, 0, 4) && t[4] == '-' && DigitsAt(t, 5, 7)
  }

  /** `\d{4}-\d{2}-\d{2}` */
  predicate YearMonthDayForm(t: string) {
    |t| == 10 && DigitsAt(t, 0, 4) && t[4] == '-' && DigitsAt(t, 5, 7) && t[7] == '-'
    && DigitsAt(t, 8, 10)
  }

  /** The negation of `check_date_format`: one of the three anchored patterns matches. */
  predicate DateFormatOk(s: string) {
    var t := Anchored(s);
    YearMonthDayForm(t) || YearMonthForm(t) || YearForm(t)
  }

  // ---------------------------------------------------------------- TargetGroup

  predicate AllWordChars(s: string) {
    forall m :: 0 <= m < |s| ==> IsWordChar(s[m])
  }

  /** The negation of `check_target_group_format`. The pattern is anchored at the start only
      and everything after `^\w+` may match the empty string, so the test reduces to the first
      character being a word character. */
  predicate TargetGroupFormatOk(s: string) {
    |s| > 0 && IsWordChar(s[0])
  }

  /** The reduced test is the search for `^\w+` on its own. */
  lemma TargetGroupIsWordPrefix(s: string)
    ensures TargetGroupFormatOk(s) <==> exists n :: 1 <= n <= |s| && AllWordChars(s[..n])
  {
    if TargetGroupFormatOk(s) {
      assert AllWordChars(s[..1]);
    }
    if n :| 1 <= n <= |s| && AllWordChars(s[..n]) {
      assert s[..n][0] == s[0];
    }
  }

  // ---------------------------------------------------------------- closed picklists

  /** `global_media_types` */
  const MediaTypes: seq<string> := ["audio", "video", "text", "presentation", "code", "image", "multipart"]

  /** `global_proficiency_levels` */
  const ProficiencyLevels: seq<string> := ["novice", "advanced beginner", "competent", "proficient", "expert"]
}
