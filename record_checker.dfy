/** `check_data`: every attribute column of the data frame, in a fixed order, is either
    checked by its validator or, when the frame has no such column, marked absent (the source
    stores one message string instead of a list). */
module RecordChecker {
  import opened Diagnostics
  import opened Rules
  import opened Validators
  import opened Properties

  /** The value `check_data` stores under a column's key: the validator's list of diagnostics,
      or, for a column the frame does not have, the message `AbsentMessage` of that key. */
  datatype Column = Checked(diagnostics: seq<Diagnostic>) | Absent

  /** The message for an absent column, as written; the one for Link names 'License'. */
  function AbsentMessage(a: Attribute): string {
    match a
    case Authors =>
      "The mandatory Attribute 'Authors' is missing from every item!"
    case License =>
      "The mandatory Attribute 'License' is missing from every item!"
    case Link =>
      "The mandatory Attribute 'License' is missing from every item!"
    case Title =>
      "The mandatory Attribute 'Title' is missing from every item!"
    case Description =>
      "It is recommended to provide a description for every item!"
    case Community =>
      "It is recommended to provide information about recommending and supporting communities!"
    case Discipline =>
      "It is recommended to provide at least one relevant discipline listed in https://skohub.io/dini-ag-kim/hochschulfaechersystematik/heads/master/w3id.org/kim/hochschulfaechersystematik/scheme.html"
    case MediaType =>
      "It is recommended to provide media types for learning resources."
    case ProficiencyLevel =>
      "It is recommended to provide proficiency levels for learning resources."
    case PublicationDate =>
      "It is recommended to provide publication dates for learning resources."
    case FileFormat =>
      "It is recommended to provide the file formats of the resources."
    case TargetGroup =>
      "It is recommended to provide at least one target group for a learning resource."
  }

  /** The value stored under the key of attribute a. */
  function Expected(a: Attribute, frame: map<string, seq<string>>, headerLines: nat, ref: Reference): Column {
    if Name(a) in frame then Checked(Diagnose(a, frame[Name(a)], headerLines, ref)) else Absent
  }

  /** The validator of attribute a run over one column. The validators of the attributes
      that read no picklist give the same result for any reference data. */
  method RunValidator(a: Attribute, cells: seq<string>, ref: Reference, headerLines: nat)
    returns (found: seq<Diagnostic>)
    ensures found == Diagnose(a, cells, headerLines, ref)
  {
    if ReferenceFree(a) {
      DiagnoseIgnoresReference(a, cells, headerLines, NoPicklists, ref);
    }
    match a
    case Authors => found := CheckAuthors(cells, headerLines);
    case License => found := CheckLicenses(cells, ref, headerLines);
    case Link => found := CheckLink(cells, headerLines);
    case Title => found := CheckTitle(cells, headerLines);
    case Description => found := CheckDescription(cells, headerLines);
    case Community => found := CheckCommunity(cells, ref, headerLines);
    case Discipline => found := CheckDisciplines(cells, headerLines);
    case MediaType => found := CheckMediaTypes(cells, headerLines);
    case ProficiencyLevel => found := CheckProficiencyLevels(cells, headerLines);
    case PublicationDate => found := CheckPublicationDates(cells, headerLines);
    case FileFormat => found := CheckFileFormat(cells, ref, headerLines);
    case TargetGroup => found := CheckTargetGroup(cells, ref, headerLines);
  }

  /** One `if dataframe[key] is not None … else …` block of `check_data`. */
  method CheckEntry(a: Attribute, frame: map<string, seq<string>>, ref: Reference, headerLines: nat)
    returns (entry: (Attribute, Column))
    ensures entry == (a, Expected(a, frame, headerLines, ref))
  {
    if Name(a) in frame {
      var found := RunValidator(a, frame[Name(a)], ref, headerLines);
      entry := (a, Checked(found));
    } else {
      entry := (a, Absent);
    }
  }

  /** The result of `check_data`, one entry per attribute in the order the source inserts the
      keys; the key of an entry is the column name `Name` of its attribute. */
  function Report(frame: map<string, seq<string>>, headerLines: nat, ref: Reference): seq<(Attribute, Column)> {
    [ (Authors, Expected(Authors, frame, headerLines, ref)),
      (License, Expected(License, frame, headerLines, ref)),
      (Link, Expected(Link, frame, headerLines, ref)),
      (Title, Expected(Title, frame, headerLines, ref)),
      (Description, Expected(Description, frame, headerLines, ref)),
      (Community, Expected(Community, frame, headerLines, ref)),
      (Discipline, Expected(Discipline, frame, headerLines, ref)),
      (MediaType, Expected(MediaType, frame, headerLines, ref)),
      (ProficiencyLevel, Expected(ProficiencyLevel, frame, headerLines, ref)),
      (PublicationDate, Expected(PublicationDate, frame, headerLines, ref)),
      (FileFormat, Expected(FileFormat, frame, headerLines, ref)),
      (TargetGroup, Expected(TargetGroup, frame, headerLines, ref)) ]
  }

  /** `check_data`. `frame` maps each column label to its cells after the header lines have
      been dropped and empty cells filled with the empty string. */
  method CheckData(frame: map<string, seq<string>>, ref: Reference, headerLines: nat)
    returns (errors: seq<(Attribute, Column)>)
    ensures errors == Report(frame, headerLines, ref)
  {
    var authors := CheckEntry(Authors, frame, ref, headerLines);
    var license := CheckEntry(License, frame, ref, headerLines);
    var link := CheckEntry(Link, frame, ref, headerLines);
    var title := CheckEntry(Title, frame, ref, headerLines);
    var description := CheckEntry(Description, frame, ref, headerLines);
    var community := CheckEntry(Community, frame, ref, headerLines);
    var discipline := CheckEntry(Discipline, frame, ref, headerLines);
    var mediaType := CheckEntry(MediaType, frame, ref, headerLines);
    var proficiencyLevel := CheckEntry(ProficiencyLevel, frame, ref, headerLines);
    var publicationDate := CheckEntry(PublicationDate, frame, ref, headerLines);
    var fileFormat := CheckEntry(FileFormat, frame, ref, headerLines);
    var targetGroup := CheckEntry(TargetGroup, frame, ref, headerLines);
    errors := [authors, license, link, title, description, community, discipline, mediaType,
      proficiencyLevel, publicationDate, fileFormat, targetGroup];
  }

  /** The keys come in the fixed attribute order, each attribute once. */
  lemma ReportKeys(frame: map<string, seq<string>>, headerLines: nat, ref: Reference)
    ensures |Report(frame, headerLines, ref)| == |AttributeOrder|
    ensures forall i :: 0 <= i < |AttributeOrder| ==> Report(frame, headerLines, ref)[i].0 == AttributeOrder[i]
    ensures forall i, j :: 0 <= i < j < |AttributeOrder| ==> AttributeOrder[i] != AttributeOrder[j]
  {
  }

  /** The value under every key is its column's diagnostics when the frame has that column,
      and the absent marker exactly when it does not. */
  lemma ReportValues(frame: map<string, seq<string>>, headerLines: nat, ref: Reference)
    ensures forall i :: 0 <= i < |Report(frame, headerLines, ref)| ==>
      var (a, value) := Report(frame, headerLines, ref)[i];
      (value == Absent <==> Name(a) !in frame)
      && (Name(a) in frame ==> value == Checked(Diagnose(a, frame[Name(a)], headerLines, ref)))
  {
  }

  /** As written, a frame without a Link column and one without a License column report the
      same text: the Link message names 'License'. */
  lemma AbsentLinkMessageNamesLicense()
    ensures AbsentMessage(Link) == AbsentMessage(License)
  {
  }
}
