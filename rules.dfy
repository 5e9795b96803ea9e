/** The rule table: for every attribute, which findings one cell yields, and the column-level
    specification `Diagnose` that every validator is proved against. */
module Rules {
  import opened Splitter
  import opened Grammar
  import opened Lines
  import opened Diagnostics

  // ---------------------------------------------------------------- per-item rules

  predicate IsMediaType(x: string) {
    x in MediaTypes
  }

  predicate IsProficiencyLevel(x: string) {
    x in ProficiencyLevels
  }

  /** One finding of kind k for every item that fails `ok`, in item order (the inner loops of
      `check_authors`, `check_disciplines`, `check_media_types`, `check_proficiency_levels`). */
  function PerItem(items: seq<string>, ok: string -> bool, k: Kind): seq<Kind>
    decreases |items|
  {
    if items == [] then []
    else PerItem(items[..|items| - 1], ok, k) + (if ok(items[|items| - 1]) then [] else [k])
  }

  /** The positions of the items that fail `ok`. */
  ghost function FailingIndices(items: seq<string>, ok: string -> bool): set<nat> {
    set i: nat | i < |items| && !ok(items[i])
  }

  /** `check_single_community`: the format and the name of one item are judged independently. */
  function CommunityItem(item: string, formatOk: string -> bool, known: string -> bool): seq<Kind> {
    (if formatOk(item) then [] else [CommunityMalformed])
    + (if known(item) then [] else [CommunityUnknownName])
  }

  /** The name test of a community item: its name, role suffixes removed, is a subsidiary. */
  function KnownIn(subsidiaries: set<string>): string -> bool {
    item => StripRoles(item) in subsidiaries
  }

  /** `check_community`'s inner loop: the findings of every item, in item order. */
  function CommunityItems(items: seq<string>, formatOk: string -> bool, known: string -> bool): seq<Kind>
    decreases |items|
  {
    if items == [] then []
    else CommunityItems(items[..|items| - 1], formatOk, known) + CommunityItem(items[|items| - 1], formatOk, known)
  }

  /** One more item appends that item's finding (the step of the inner item loops). */
  lemma PerItemStep(items: seq<string>, ok: string -> bool, k: Kind, j: nat)
    requires j < |items|
    ensures PerItem(items[..j + 1], ok, k) == PerItem(items[..j], ok, k) + (if ok(items[j]) then [] else [k])
  {
    assert items[..j + 1][..j] == items[..j];
  }

  lemma CommunityItemsStep(items: seq<string>, formatOk: string -> bool, known: string -> bool, j: nat)
    requires j < |items|
    ensures CommunityItems(items[..j + 1], formatOk, known)
         == CommunityItems(items[..j], formatOk, known) + CommunityItem(items[j], formatOk, known)
  {
    assert items[..j + 1][..j] == items[..j];
  }

  /** `check_file_format_list` / `check_target_group_list`: some item is not in the picklist. */
  predicate SomeNotIn(items: seq<string>, picklist: set<string>) {
    exists i :: 0 <= i < |items| && items[i] !in picklist
  }

  // ---------------------------------------------------------------- per-cell rules

  /** The findings for one cell of attribute a, in the order the source appends them. */
  function CellKinds(a: Attribute, cell: string, ref: Reference): seq<Kind> {
    if cell == "" then [MissingKind(a)]
    else match a
      case Authors =>
        if HasEscapedStar(cell) then PerItem(Split(cell), AuthorFormatOk, WrongNameFormat)
        else if AuthorFormatOk(cell) then [] else [WrongNameFormat]
      case License =>
        if cell in ref.licenses then [] else [LicenseNotListed]
      case Link =>
        if LinkFormatOk(cell) then [] else [LinkMalformed]
      case Title => []
      case Description => []
      case Community =>
        if HasEscapedStar(cell) then CommunityItems(Split(cell), CommunityFormatOk, KnownIn(ref.subsidiaries))
        else CommunityItem(cell, CommunityFormatOk, KnownIn(ref.subsidiaries))
      case Discipline =>
        if HasEscapedStar(cell) then PerItem(Split(cell), DisciplineLinkOk, DisciplineMalformed)
        else if DisciplineLinkOk(cell) then [] else [DisciplineMalformed]
      case MediaType =>
        if '*' in cell then PerItem(Split(cell), IsMediaType, MediaTypeNotListed)
        else if IsMediaType(cell) then [] else [MediaTypeNotListed]
      case ProficiencyLevel =>
        if '*' in cell then PerItem(Split(cell), IsProficiencyLevel, ProficiencyNotListed)
        else if IsProficiencyLevel(cell) then [] else [ProficiencyNotListed]
      case PublicationDate =>
        if DateFormatOk(cell) then [] else [DateMalformed]
      case FileFormat =>
        if !FileFormatOk(cell) then [FileFormatMalformed]
        else if SomeNotIn(Split(cell), ref.fileTypes) then [FileFormatNotListed] else []
      case TargetGroup =>
        if !TargetGroupFormatOk(cell) then [TargetGroupMalformed]
        else if SomeNotIn(Split(cell), ref.targetGroups) then [TargetGroupNotListed] else []
  }

  /** The items a multi-value cell is judged as. Authors, Community and Discipline split only
      when the cell contains the two characters `\*`; MediaType and ProficiencyLevel split when
      it contains any `*`. */
  function ItemsOf(a: Attribute, cell: string): seq<string> {
    if a in {Authors, Community, Discipline} then (if HasEscapedStar(cell) then Split(cell) else [cell])
    else if a in {MediaType, ProficiencyLevel} then (if '*' in cell then Split(cell) else [cell])
    else [cell]
  }

  /** The per-item test of the attributes that report one finding per failing item. */
  function ItemTest(a: Attribute): string -> bool
    requires a in {Authors, Discipline, MediaType, ProficiencyLevel}
  {
    match a
    case Authors => AuthorFormatOk
    case Discipline => DisciplineLinkOk
    case MediaType => IsMediaType
    case ProficiencyLevel => IsProficiencyLevel
  }

  function ItemKind(a: Attribute): Kind
    requires a in {Authors, Discipline, MediaType, ProficiencyLevel}
  {
    match a
    case Authors => WrongNameFormat
    case Discipline => DisciplineMalformed
    case MediaType => MediaTypeNotListed
    case ProficiencyLevel => ProficiencyNotListed
  }

  /** The attributes whose rule reads no picklist. */
  predicate ReferenceFree(a: Attribute) {
    a !in {License, Community, FileFormat, TargetGroup}
  }

  /** The picklist value for rules that need none. */
  const NoPicklists: Reference := Reference({}, {}, {}, {})

  // ---------------------------------------------------------------- the column specification

  /** The findings of a column under a per-cell rule, each stamped with the source line of its
      row. */
  function Rows(rule: string -> seq<Kind>, col: seq<string>, headerLines: nat): seq<Diagnostic>
    decreases |col|
  {
    if col == [] then []
    else
      var last := |col| - 1;
      Rows(rule, col[..last], headerLines) + Stamp(rule(col[last]), LineOf(last, headerLines))
  }

  /** The per-cell rule of attribute a. */
  function CellRule(a: Attribute, ref: Reference): string -> seq<Kind> {
    cell => CellKinds(a, cell, ref)
  }

  /** All findings for a column of attribute a. */
  function Diagnose(a: Attribute, col: seq<string>, headerLines: nat, ref: Reference): seq<Diagnostic> {
    Rows(CellRule(a, ref), col, headerLines)
  }

  /** The FileFormat case of `CellKinds` as one equation, for the validator to use without
      unfolding the whole rule. */
  lemma FileFormatKinds(cell: string, ref: Reference)
    requires cell != ""
    ensures CellKinds(FileFormat, cell, ref)
         == if !FileFormatOk(cell) then [FileFormatMalformed]
            else if SomeNotIn(Split(cell), ref.fileTypes) then [FileFormatNotListed] else []
  {
  }

  /** One more row appends that row's findings (the step of every validator loop). */
  lemma DiagnoseStep(a: Attribute, col: seq<string>, headerLines: nat, ref: Reference, i: nat)
    requires i < |col|
    ensures Diagnose(a, col[..i + 1], headerLines, ref)
         == Diagnose(a, col[..i], headerLines, ref) + Stamp(CellKinds(a, col[i], ref), LineOf(i, headerLines))
  {
    assert col[..i + 1][..i] == col[..i];
  }

  /** The diagnostics of ds reported at line n, in order. */
  function AtLine(ds: seq<Diagnostic>, n: nat): seq<Diagnostic>
    decreases |ds|
  {
    if ds == [] then []
    else AtLine(ds[..|ds| - 1], n) + (if ds[|ds| - 1].line == n then [ds[|ds| - 1]] else [])
  }

  function Shift(ds: seq<Diagnostic>, delta: nat): (r: seq<Diagnostic>)
    decreases |ds|
  {
    if ds == [] then []
    else Shift(ds[..|ds| - 1], delta) + [Diagnostic(ds[|ds| - 1].line + delta, ds[|ds| - 1].kind)]
  }
}
