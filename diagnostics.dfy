/** Attributes of the DALIA Interchange Format, the diagnostics the checker reports and the
    reference data (picklists) it is given. */
module Diagnostics {

  /** The twelve attribute columns, in the order the checker visits them. */
  datatype Attribute =
    | Authors | License | Link | Title | Description | Community | Discipline
    | MediaType | ProficiencyLevel | PublicationDate | FileFormat | TargetGroup

  const AttributeOrder: seq<Attribute> := [
    Authors, License, Link, Title, Description, Community, Discipline,
    MediaType, ProficiencyLevel, PublicationDate, FileFormat, TargetGroup
  ]

  /** The column name, which is also the key of the result. */
  function Name(a: Attribute): string {
    match a
    case Authors => "Authors"
    case License => "License"
    case Link => "Link"
    case Title => "Title"
    case Description => "Description"
    case Community => "Community"
    case Discipline => "Discipline"
    case MediaType => "MediaType"
    case ProficiencyLevel => "ProficiencyLevel"
    case PublicationDate => "PublicationDate"
    case FileFormat => "FileFormat"
    case TargetGroup => "TargetGroup"
  }

  predicate Mandatory(a: Attribute) {
    a == Authors || a == License || a == Link || a == Title
  }

  /** One kind of finding per distinct message of the source. */
  datatype Kind =
    | AuthorMissing | WrongNameFormat
    | LicenseMissing | LicenseNotListed
    | LinkMissing | LinkMalformed
    | TitleMissing
    | DescriptionMissing
    | CommunityMissing | CommunityMalformed | CommunityUnknownName
    | DisciplineMissing | DisciplineMalformed
    | MediaTypeMissing | MediaTypeNotListed
    | ProficiencyMissing | ProficiencyNotListed
    | DateMissing | DateMalformed
    | FileFormatMissing | FileFormatMalformed | FileFormatNotListed
    | TargetGroupMissing | TargetGroupMalformed | TargetGroupNotListed

  datatype Severity = MandatoryMissing | RecommendedMissing | Malformed | Unlisted

  /** The attribute under which a finding of this kind is reported. */
  function AttributeOf(k: Kind): Attribute {
    match k
    case AuthorMissing | WrongNameFormat => Authors
    case LicenseMissing | LicenseNotListed => License
    case LinkMissing | LinkMalformed => Link
    case TitleMissing => Title
    case DescriptionMissing => Description
    case CommunityMissing | CommunityMalformed | CommunityUnknownName => Community
    case DisciplineMissing | DisciplineMalformed => Discipline
    case MediaTypeMissing | MediaTypeNotListed => MediaType
    case ProficiencyMissing | ProficiencyNotListed => ProficiencyLevel
    case DateMissing | DateMalformed => PublicationDate
    case FileFormatMissing | FileFormatMalformed | FileFormatNotListed => FileFormat
    case TargetGroupMissing | TargetGroupMalformed | TargetGroupNotListed => TargetGroup
  }

  /** The finding reported for an empty cell of the attribute. */
  function MissingKind(a: Attribute): (k: Kind)
    ensures AttributeOf(k) == a
  {
    match a
    case Authors => AuthorMissing
    case License => LicenseMissing
    case Link => LinkMissing
    case Title => TitleMissing
    case Description => DescriptionMissing
    case Community => CommunityMissing
    case Discipline => DisciplineMissing
    case MediaType => MediaTypeMissing
    case ProficiencyLevel => ProficiencyMissing
    case PublicationDate => DateMissing
    case FileFormat => FileFormatMissing
    case TargetGroup => TargetGroupMissing
  }

  /** The findings other than the missing one that a cell of the attribute can yield. */
  function Findings(a: Attribute): set<Kind> {
    match a
    case Authors => {WrongNameFormat}
    case License => {LicenseNotListed}
    case Link => {LinkMalformed}
    case Title => {}
    case Description => {}
    case Community => {CommunityMalformed, CommunityUnknownName}
    case Discipline => {DisciplineMalformed}
    case MediaType => {MediaTypeNotListed}
    case ProficiencyLevel => {ProficiencyNotListed}
    case PublicationDate => {DateMalformed}
    case FileFormat => {FileFormatMalformed, FileFormatNotListed}
    case TargetGroup => {TargetGroupMalformed, TargetGroupNotListed}
  }

  /** Every kind is reported under exactly one attribute: either as its missing finding or as
      one of its findings. */
  lemma FindingsPartition(a: Attribute, k: Kind)
    ensures k in Findings(a) <==> AttributeOf(k) == a && k != MissingKind(a)
  {
  }

  function SeverityOf(k: Kind): Severity {
    match k
    case AuthorMissing | LicenseMissing | LinkMissing | TitleMissing => MandatoryMissing
    case DescriptionMissing | CommunityMissing | DisciplineMissing | MediaTypeMissing
      | ProficiencyMissing | DateMissing | FileFormatMissing | TargetGroupMissing => RecommendedMissing
    case WrongNameFormat | LinkMalformed | CommunityMalformed | DisciplineMalformed | DateMalformed
      | FileFormatMalformed | TargetGroupMalformed => Malformed
    case LicenseNotListed | CommunityUnknownName | MediaTypeNotListed | ProficiencyNotListed
      | FileFormatNotListed | TargetGroupNotListed => Unlisted
  }

  /** An empty cell is a mandatory-missing finding exactly for the four mandatory attributes. */
  lemma MissingSeverity(a: Attribute)
    ensures SeverityOf(MissingKind(a)) == if Mandatory(a) then MandatoryMissing else RecommendedMissing
  {
  }

  /** The missing kinds are the only kinds of either missing severity. */
  lemma MissingKindsSeverity(k: Kind)
    ensures SeverityOf(k) in {MandatoryMissing, RecommendedMissing} <==> k == MissingKind(AttributeOf(k))
  {
  }

  /** The text after `Line n: ` in the source's f-strings. */
  function Message(k: Kind): string {
    match k
    case AuthorMissing => "Mandatory attribute 'Author' is missing."
    case WrongNameFormat => "Wrong name format."
    case LicenseMissing => "License is missing."
    case LicenseNotListed =>
      "Provided License is not part of the list from 'https://spdx.org/licenses/' or is in a wrong format."
    case LinkMissing => "Link is missing."
    case LinkMalformed => "Link is not in a valid format."
    case TitleMissing => "Title is missing."
    case DescriptionMissing => "It is recommended to provide a description for a resource."
    case CommunityMissing =>
      "It is recommended to provide a Community, either as supporting or recommending entity."
    case CommunityMalformed => "The provided format for the community contains errors."
    case CommunityUnknownName =>
      "The provided name does not match any name from the subsidiaries list. Please check if the name is correct. If it is you can ignore this warning."
    case DisciplineMissing =>
      "It is recommended to provide at least one relevant discipline as a link listed in https://skohub.io/dini-ag-kim/hochschulfaechersystematik/heads/master/w3id.org/kim/hochschulfaechersystematik/scheme.html ."
    case DisciplineMalformed => "The provided format is not of the type xsd:anyURI."
    case MediaTypeMissing => "It is recommended to provide a media type for learning resources"
    case MediaTypeNotListed => "The provided media type is not in the DIF picklist."
    case ProficiencyMissing =>
      "It is recommended to provide at least one proficiency level for learning resources."
    case ProficiencyNotListed => "The provided proficiency level is not in the DIF picklist."
    case DateMissing => "It is recommended to provide a publication date for learning resources."
    case DateMalformed => "The provided publication date is not of the format xsd:date."
    case FileFormatMissing => "It is recommended to provide the file format of a learning resource."
    case FileFormatMalformed => "The provided file format is not formatted properly."
    case FileFormatNotListed => "The provided file format is not included in the picklist."
    case TargetGroupMissing =>
      "It is recommended to provide at least one target group for a learning resource."
    case TargetGroupMalformed => "The provided target groups are not formatted properly."
    case TargetGroupNotListed => "The provided target group is not included in the picklist."
  }

  /** One diagnostic: the source line it is reported at and what was found. */
  datatype Diagnostic = Diagnostic(line: nat, kind: Kind)

  /** The diagnostics for one row: each kind, in order, at the row's line. */
  function Stamp(kinds: seq<Kind>, line: nat): (ds: seq<Diagnostic>) {
    seq(|kinds|, j requires 0 <= j < |kinds| => Diagnostic(line, kinds[j]))
  }

  /** Appending one kind to a row appends one diagnostic at the row's line. */
  lemma StampSnoc(kinds: seq<Kind>, k: Kind, line: nat)
    ensures Stamp(kinds + [k], line) == Stamp(kinds, line) + [Diagnostic(line, k)]
  {
  }

  /** Stamping two runs of kinds one after the other stamps their concatenation. */
  lemma StampAppend(xs: seq<Kind>, ys: seq<Kind>, line: nat)
    ensures Stamp(xs + ys, line) == Stamp(xs, line) + Stamp(ys, line)
  {
  }

  // ---------------------------------------------------------------- rendering

  function DigitChar(d: nat): char
    requires d < 10
  {
    ('0' as int + d) as char
  }

  /** Python's `str` of a non-negative integer: decimal, no leading zeros. */
  function NatText(n: nat): (s: string)
    decreases n
    ensures |s| >= 1 && (|s| > 1 ==> s[0] != '0')
    ensures forall i :: 0 <= i < |s| ==> '0' <= s[i] <= '9'
  {
    if n < 10 then [DigitChar(n)] else NatText(n / 10) + [DigitChar(n % 10)]
  }

  /** The value of a string of decimal digits. */
  function DecimalValue(s: string): nat
    requires forall i :: 0 <= i < |s| ==> '0' <= s[i] <= '9'
    decreases |s|
  {
    if s == [] then 0 else 10 * DecimalValue(s[..|s| - 1]) + (s[|s| - 1] as int - '0' as int)
  }

  /** The rendered line number reads back as the line number. */
  lemma {:induction false} NatTextValue(n: nat)
    decreases n
    ensures DecimalValue(NatText(n)) == n
  {
    if n >= 10 {
      NatTextValue(n / 10);
      var s := NatText(n);
      assert s == NatText(n / 10) + [DigitChar(n % 10)];
      assert s[..|s| - 1] == NatText(n / 10);
      assert s[|s| - 1] as int - '0' as int == n % 10;
      assert DecimalValue(s) == 10 * (n / 10) + n % 10;
    }
  }

  /** The f-string `Line {n}: {message}` the source appends. */
  function Render(d: Diagnostic): (s: string)
    ensures |s| > 5 + |Message(d.kind)| && s[..5] == "Line " && s[|s| - |Message(d.kind)|..] == Message(d.kind)
  {
    "Line " + NatText(d.line) + ": " + Message(d.kind)
  }

  // ---------------------------------------------------------------- reference data

  /** The picklists, loaded once per run. `subsidiaries` is the `subsidiaries` entry of the
      communities document; `targetGroups` is the set the TargetGroup lookup tests against. */
  datatype Reference = Reference(
    licenses: set<string>,
    subsidiaries: set<string>,
    fileTypes: set<string>,
    targetGroups: set<string>)
}
