/** The column validators `check_authors` … `check_target_group`: each walks its column row by
    row, appending one diagnostic per finding, and is proved to return exactly the column
    specification `Rules.Diagnose`. The reference lists that the source reads from its resource
    files inside the validators are parameters here. */
module Validators {
  import opened Splitter
  import opened Grammar
  import opened Lines
  import opened Diagnostics
  import opened Rules
  import opened Patterns

  /** `check_author_format`, which answers True for a name that none of its three patterns
      matches; the second clause is the form `check_authors` relies on. */
  method CheckAuthorFormat(author: string) returns (malformed: bool)
    ensures malformed <==> !AuthorRegexOk(author)
    ensures malformed <==> !AuthorFormatOk(author)
  {
    AuthorFormatIsRegex(author);
    malformed := !AuthorFormatOk(author);
  }

  /** Appends one finding of kind k at the line for every item that fails ok; the inner loop of
      `check_media_types` and `check_proficiency_levels`. */
  method CheckItems(items: seq<string>, ok: string -> bool, k: Kind, line: nat, errors: seq<Diagnostic>)
    returns (result: seq<Diagnostic>)
    ensures result == errors + Stamp(PerItem(items, ok, k), line)
  {
    result := errors;
    var j := 0;
    while j < |items|
      invariant j <= |items|
      invariant result == errors + Stamp(PerItem(items[..j], ok, k), line)
    {
      PerItemStep(items, ok, k, j);
      ghost var done := PerItem(items[..j], ok, k);
      if !ok(items[j]) {
        StampSnoc(done, k, line);
        result := result + [Diagnostic(line, k)];
        assert result == errors + Stamp(done + [k], line);
      } else {
        assert done + [] == done;
      }
      j := j + 1;
    }
    assert items[..j] == items;
  }

  /** A single value judged by ok: one finding of kind k when it fails. */
  method CheckOne(value: string, ok: string -> bool, k: Kind, line: nat, errors: seq<Diagnostic>)
    returns (result: seq<Diagnostic>)
    ensures result == errors + Stamp(if ok(value) then [] else [k], line)
  {
    StampSnoc([], k, line);
    result := errors;
    if !ok(value) {
      result := result + [Diagnostic(line, k)];
    }
  }

  /** The test of one author in `check_authors`: a wrong-name finding when `check_author_format`
      answers True. */
  method CheckSingleAuthor(author: string, line: nat, errors: seq<Diagnostic>) returns (result: seq<Diagnostic>)
    ensures result == errors + Stamp(if AuthorFormatOk(author) then [] else [WrongNameFormat], line)
  {
    StampSnoc([], WrongNameFormat, line);
    result := errors;
    var malformed := CheckAuthorFormat(author);
    if malformed {
      result := result + [Diagnostic(line, WrongNameFormat)];
    }
  }

  /** The inner loop of `check_authors` over the names of a split cell. */
  method CheckAuthorItems(items: seq<string>, line: nat, errors: seq<Diagnostic>) returns (result: seq<Diagnostic>)
    ensures result == errors + Stamp(PerItem(items, AuthorFormatOk, WrongNameFormat), line)
  {
    result := errors;
    var j := 0;
    while j < |items|
      invariant j <= |items|
      invariant result == errors + Stamp(PerItem(items[..j], AuthorFormatOk, WrongNameFormat), line)
    {
      ghost var done := PerItem(items[..j], AuthorFormatOk, WrongNameFormat);
      ghost var next: seq<Kind> := if AuthorFormatOk(items[j]) then [] else [WrongNameFormat];
      PerItemStep(items, AuthorFormatOk, WrongNameFormat, j);
      StampAppend(done, next, line);
      result := CheckSingleAuthor(items[j], line, result);
      assert result == errors + (Stamp(done, line) + Stamp(next, line));
      j := j + 1;
    }
    assert items[..j] == items;
  }

  method CheckAuthors(authors: seq<string>, headerLines: nat) returns (errors: seq<Diagnostic>)
    ensures errors == Diagnose(Authors, authors, headerLines, NoPicklists)
  {
    errors := [];
    var index := 0;
    while index < |authors|
      invariant index <= |authors|
      invariant errors == Diagnose(Authors, authors[..index], headerLines, NoPicklists)
    {
      DiagnoseStep(Authors, authors, headerLines, NoPicklists, index);
      var author := authors[index];
      var line := LineOf(index, headerLines);
      if author == "" {
        StampSnoc([], AuthorMissing, line);
        errors := errors + [Diagnostic(line, AuthorMissing)];
      } else if HasEscapedStar(author) {
        errors := CheckAuthorItems(Split(author), line, errors);
      } else {
        errors := CheckSingleAuthor(author, line, errors);
      }
      index := index + 1;
    }
    assert authors[..index] == authors;
  }

  method CheckLicenses(licenses: seq<string>, ref: Reference, headerLines: nat) returns (errors: seq<Diagnostic>)
    ensures errors == Diagnose(License, licenses, headerLines, ref)
  {
    errors := [];
    var index := 0;
    while index < |licenses|
      invariant index <= |licenses|
      invariant errors == Diagnose(License, licenses[..index], headerLines, ref)
    {
      DiagnoseStep(License, licenses, headerLines, ref, index);
      var licenseId := licenses[index];
      var line := LineOf(index, headerLines);
      if licenseId == "" {
        StampSnoc([], LicenseMissing, line);
        errors := errors + [Diagnostic(line, LicenseMissing)];
      } else if licenseId !in ref.licenses {
        StampSnoc([], LicenseNotListed, line);
        errors := errors + [Diagnostic(line, LicenseNotListed)];
      }
      index := index + 1;
    }
    assert licenses[..index] == licenses;
  }

  method CheckLink(links: seq<string>, headerLines: nat) returns (errors: seq<Diagnostic>)
    ensures errors == Diagnose(Link, links, headerLines, NoPicklists)
  {
    errors := [];
    var index := 0;
    while index < |links|
      invariant index <= |links|
      invariant errors == Diagnose(Link, links[..index], headerLines, NoPicklists)
    {
      DiagnoseStep(Link, links, headerLines, NoPicklists, index);
      var link := links[index];
      var line := LineOf(index, headerLines);
      if link == "" {
        StampSnoc([], LinkMissing, line);
        errors := errors + [Diagnostic(line, LinkMissing)];
      } else {
        errors := CheckOne(link, LinkFormatOk, LinkMalformed, line, errors);
      }
      index := index + 1;
    }
    assert links[..index] == links;
  }

  /** The two validators that only report empty cells (`check_title`, `check_description`). */
  method CheckPresent(a: Attribute, cells: seq<string>, headerLines: nat) returns (errors: seq<Diagnostic>)
    requires a == Title || a == Description
    ensures errors == Diagnose(a, cells, headerLines, NoPicklists)
  {
    errors := [];
    var index := 0;
    while index < |cells|
      invariant index <= |cells|
      invariant errors == Diagnose(a, cells[..index], headerLines, NoPicklists)
    {
      DiagnoseStep(a, cells, headerLines, NoPicklists, index);
      if cells[index] == "" {
        var line := LineOf(index, headerLines);
        StampSnoc([], MissingKind(a), line);
        errors := errors + [Diagnostic(line, MissingKind(a))];
      }
      index := index + 1;
    }
    assert cells[..index] == cells;
  }

  method CheckTitle(titles: seq<string>, headerLines: nat) returns (errors: seq<Diagnostic>)
    ensures errors == Diagnose(Title, titles, headerLines, NoPicklists)
  {
    errors := CheckPresent(Title, titles, headerLines);
  }

  method CheckDescription(descriptions: seq<string>, headerLines: nat) returns (errors: seq<Diagnostic>)
    ensures errors == Diagnose(Description, descriptions, headerLines, NoPicklists)
  {
    errors := CheckPresent(Description, descriptions, headerLines);
  }

  /** `check_community_name`: the item with every ` (roles)` group removed is a subsidiary; for
      an item `name (tag)` whose name carries no role group of its own, that is the name. */
  method CheckCommunityName(com: string, subsidiaries: set<string>) returns (known: bool)
    ensures known <==> StripRoles(com) in subsidiaries
    ensures forall name, tag :: NoRoleMarker(name) && NoSpace(tag) && com == WithRole(name, tag) ==>
      (known <==> name in subsidiaries)
  {
    forall name, tag | NoRoleMarker(name) && NoSpace(tag) && com == WithRole(name, tag)
      ensures StripRoles(com) == name
    {
      StripRoleSuffix(name, tag);
    }
    known := StripRoles(com) in subsidiaries;
  }

  /** `check_community_format`, which answers True for an item without a role suffix. */
  method CheckCommunityFormat(com: string) returns (malformed: bool)
    ensures malformed <==> !CommunityRegexMatch(com)
    ensures malformed <==> !CommunityFormatOk(com)
  {
    CommunityFormatIsRegex(com);
    malformed := !CommunityFormatOk(com);
  }

  /** `check_single_community`: a format finding, then a name finding, both at the row's line. */
  method CheckSingleCommunity(com: string, errors: seq<Diagnostic>, index: nat, subsidiaries: set<string>, headerLines: nat)
    returns (result: seq<Diagnostic>)
    ensures result == errors + Stamp(CommunityItem(com, CommunityFormatOk, KnownIn(subsidiaries)), LineOf(index, headerLines))
  {
    var line := LineOf(index, headerLines);
    result := errors;
    var kinds: seq<Kind> := [];
    var malformed := CheckCommunityFormat(com);
    if malformed {
      StampSnoc(kinds, CommunityMalformed, line);
      result := result + [Diagnostic(line, CommunityMalformed)];
      kinds := kinds + [CommunityMalformed];
    }
    var known := CheckCommunityName(com, subsidiaries);
    if !known {
      StampSnoc(kinds, CommunityUnknownName, line);
      result := result + [Diagnostic(line, CommunityUnknownName)];
      kinds := kinds + [CommunityUnknownName];
    }
    assert kinds == CommunityItem(com, CommunityFormatOk, KnownIn(subsidiaries));
  }

  /** The inner loop of `check_community` over the items of a split cell. */
  method CheckCommunityItems(items: seq<string>, errors: seq<Diagnostic>, index: nat, subsidiaries: set<string>, headerLines: nat)
    returns (result: seq<Diagnostic>)
    ensures result == errors + Stamp(CommunityItems(items, CommunityFormatOk, KnownIn(subsidiaries)), LineOf(index, headerLines))
  {
    var line := LineOf(index, headerLines);
    result := errors;
    var j := 0;
    while j < |items|
      invariant j <= |items|
      invariant result == errors + Stamp(CommunityItems(items[..j], CommunityFormatOk, KnownIn(subsidiaries)), line)
    {
      ghost var done := CommunityItems(items[..j], CommunityFormatOk, KnownIn(subsidiaries));
      ghost var next := CommunityItem(items[j], CommunityFormatOk, KnownIn(subsidiaries));
      CommunityItemsStep(items, CommunityFormatOk, KnownIn(subsidiaries), j);
      StampAppend(done, next, line);
      result := CheckSingleCommunity(items[j], result, index, subsidiaries, headerLines);
      assert result == errors + (Stamp(done, line) + Stamp(next, line));
      j := j + 1;
    }
    assert items[..j] == items;
  }

  method CheckCommunity(communities: seq<string>, ref: Reference, headerLines: nat) returns (errors: seq<Diagnostic>)
    ensures errors == Diagnose(Community, communities, headerLines, ref)
  {
    errors := [];
    var index := 0;
    while index < |communities|
      invariant index <= |communities|
      invariant errors == Diagnose(Community, communities[..index], headerLines, ref)
    {
      DiagnoseStep(Community, communities, headerLines, ref, index);
      var community := communities[index];
      var line := LineOf(index, headerLines);
      if community == "" {
        StampSnoc([], CommunityMissing, line);
        errors := errors + [Diagnostic(line, CommunityMissing)];
      } else if HasEscapedStar(community) {
        errors := CheckCommunityItems(Split(community), errors, index, ref.subsidiaries, headerLines);
      } else {
        errors := CheckSingleCommunity(community, errors, index, ref.subsidiaries, headerLines);
      }
      index := index + 1;
    }
    assert communities[..index] == communities;
  }

  /** `check_discipline_link`, which answers True for a link outside the subject scheme. */
  method CheckDisciplineLink(discipline: string) returns (malformed: bool)
    ensures malformed <==> !DisciplineRegexMatch(discipline)
    ensures malformed <==> !DisciplineLinkOk(discipline)
  {
    DisciplineLinkIsRegex(discipline);
    malformed := !DisciplineLinkOk(discipline);
  }

  /** `check_single_discipline`. */
  method CheckSingleDiscipline(discipline: string, errors: seq<Diagnostic>, index: nat, headerLines: nat)
    returns (result: seq<Diagnostic>)
    ensures result == errors + Stamp(if DisciplineLinkOk(discipline) then [] else [DisciplineMalformed], LineOf(index, headerLines))
  {
    var line := LineOf(index, headerLines);
    StampSnoc([], DisciplineMalformed, line);
    result := errors;
    var malformed := CheckDisciplineLink(discipline);
    if malformed {
      result := result + [Diagnostic(line, DisciplineMalformed)];
    }
  }

  /** The inner loop of `check_disciplines` over the items of a split cell. */
  method CheckDisciplineItems(items: seq<string>, errors: seq<Diagnostic>, index: nat, headerLines: nat)
    returns (result: seq<Diagnostic>)
    ensures result == errors + Stamp(PerItem(items, DisciplineLinkOk, DisciplineMalformed), LineOf(index, headerLines))
  {
    var line := LineOf(index, headerLines);
    result := errors;
    var j := 0;
    while j < |items|
      invariant j <= |items|
      invariant result == errors + Stamp(PerItem(items[..j], DisciplineLinkOk, DisciplineMalformed), line)
    {
      ghost var done := PerItem(items[..j], DisciplineLinkOk, DisciplineMalformed);
      ghost var next: seq<Kind> := if DisciplineLinkOk(items[j]) then [] else [DisciplineMalformed];
      PerItemStep(items, DisciplineLinkOk, DisciplineMalformed, j);
      StampAppend(done, next, line);
      result := CheckSingleDiscipline(items[j], result, index, headerLines);
      assert result == errors + (Stamp(done, line) + Stamp(next, line));
      j := j + 1;
    }
    assert items[..j] == items;
  }

  method CheckDisciplines(disciplines: seq<string>, headerLines: nat) returns (errors: seq<Diagnostic>)
    ensures errors == Diagnose(Discipline, disciplines, headerLines, NoPicklists)
  {
    errors := [];
    var index := 0;
    while index < |disciplines|
      invariant index <= |disciplines|
      invariant errors == Diagnose(Discipline, disciplines[..index], headerLines, NoPicklists)
    {
      DiagnoseStep(Discipline, disciplines, headerLines, NoPicklists, index);
      var discipline := disciplines[index];
      var line := LineOf(index, headerLines);
      if discipline == "" {
        StampSnoc([], DisciplineMissing, line);
        errors := errors + [Diagnostic(line, DisciplineMissing)];
      } else if HasEscapedStar(discipline) {
        errors := CheckDisciplineItems(Split(discipline), errors, index, headerLines);
      } else {
        errors := CheckSingleDiscipline(discipline, errors, index, headerLines);
      }
      index := index + 1;
    }
    assert disciplines[..index] == disciplines;
  }

  method CheckMediaTypes(mediaTypes: seq<string>, headerLines: nat) returns (errors: seq<Diagnostic>)
    ensures errors == Diagnose(MediaType, mediaTypes, headerLines, NoPicklists)
  {
    errors := [];
    var index := 0;
    while index < |mediaTypes|
      invariant index <= |mediaTypes|
      invariant errors == Diagnose(MediaType, mediaTypes[..index], headerLines, NoPicklists)
    {
      DiagnoseStep(MediaType, mediaTypes, headerLines, NoPicklists, index);
      var mediaType := mediaTypes[index];
      var line := LineOf(index, headerLines);
      if mediaType == "" {
        StampSnoc([], MediaTypeMissing, line);
        errors := errors + [Diagnostic(line, MediaTypeMissing)];
      } else if '*' in mediaType {
        errors := CheckItems(Split(mediaType), IsMediaType, MediaTypeNotListed, line, errors);
      } else {
        errors := CheckOne(mediaType, IsMediaType, MediaTypeNotListed, line, errors);
      }
      index := index + 1;
    }
    assert mediaTypes[..index] == mediaTypes;
  }

  method CheckProficiencyLevels(levels: seq<string>, headerLines: nat) returns (errors: seq<Diagnostic>)
    ensures errors == Diagnose(ProficiencyLevel, levels, headerLines, NoPicklists)
  {
    errors := [];
    var index := 0;
    while index < |levels|
      invariant index <= |levels|
      invariant errors == Diagnose(ProficiencyLevel, levels[..index], headerLines, NoPicklists)
    {
      DiagnoseStep(ProficiencyLevel, levels, headerLines, NoPicklists, index);
      var level := levels[index];
      var line := LineOf(index, headerLines);
      if level == "" {
        StampSnoc([], ProficiencyMissing, line);
        errors := errors + [Diagnostic(line, ProficiencyMissing)];
      } else if '*' in level {
        errors := CheckItems(Split(level), IsProficiencyLevel, ProficiencyNotListed, line, errors);
      } else {
        errors := CheckOne(level, IsProficiencyLevel, ProficiencyNotListed, line, errors);
      }
      index := index + 1;
    }
    assert levels[..index] == levels;
  }

  /** `check_date_format`, which answers True for a date of none of the three shapes. */
  method CheckDateFormat(publicationDate: string) returns (malformed: bool)
    ensures malformed <==> !DateShape(Anchored(publicationDate))
    ensures malformed <==> !DateFormatOk(publicationDate)
  {
    DateFormatIsShape(publicationDate);
    malformed := !DateFormatOk(publicationDate);
  }

  method CheckPublicationDates(dates: seq<string>, headerLines: nat) returns (errors: seq<Diagnostic>)
    ensures errors == Diagnose(PublicationDate, dates, headerLines, NoPicklists)
  {
    errors := [];
    var index := 0;
    while index < |dates|
      invariant index <= |dates|
      invariant errors == Diagnose(PublicationDate, dates[..index], headerLines, NoPicklists)
    {
      DiagnoseStep(PublicationDate, dates, headerLines, NoPicklists, index);
      var date := dates[index];
      var line := LineOf(index, headerLines);
      if date == "" {
        StampSnoc([], DateMissing, line);
        errors := errors + [Diagnostic(line, DateMissing)];
      } else {
        var malformed := CheckDateFormat(date);
        if malformed {
          StampSnoc([], DateMalformed, line);
          errors := errors + [Diagnostic(line, DateMalformed)];
        }
      }
      index := index + 1;
    }
    assert dates[..index] == dates;
  }

  /** `check_file_format_list` and `check_target_group_list`: stops at the first item that is
      not in the picklist and answers True, or answers False when every item is listed. */
  method CheckListed(items: seq<string>, picklist: set<string>) returns (unlisted: bool)
    ensures unlisted <==> SomeNotIn(items, picklist)
  {
    var j := 0;
    while j < |items|
      invariant j <= |items|
      invariant forall m :: 0 <= m < j ==> items[m] in picklist
    {
      if items[j] !in picklist {
        return true;
      }
      j := j + 1;
    }
    return false;
  }

  /** `check_file_format_format`, which answers True for a cell that is not a ` * `-separated
      list of extensions. */
  method CheckFileFormatFormat(fileFormat: string) returns (malformed: bool)
    ensures malformed <==> !AllItems(ExtensionItem, Split(Anchored(fileFormat)))
    ensures malformed <==> !FileFormatOk(fileFormat)
  {
    FileFormatIsItemList(fileFormat);
    malformed := !FileFormatOk(fileFormat);
  }

  /** The body of `check_file_format`'s loop for a non-empty cell: the format stage, and the
      lookup only when the format passes. */
  method CheckFileFormatCell(fileFormat: string, ref: Reference, line: nat, errors: seq<Diagnostic>)
    returns (result: seq<Diagnostic>)
    requires fileFormat != ""
    ensures result == errors + Stamp(CellKinds(FileFormat, fileFormat, ref), line)
  {
    FileFormatKinds(fileFormat, ref);
    result := errors;
    var malformed := CheckFileFormatFormat(fileFormat);
    if malformed {
      StampSnoc([], FileFormatMalformed, line);
      result := result + [Diagnostic(line, FileFormatMalformed)];
    } else {
      var fileFormatList := Split(fileFormat);
      var unlisted := CheckListed(fileFormatList, ref.fileTypes);
      if unlisted {
        StampSnoc([], FileFormatNotListed, line);
        result := result + [Diagnostic(line, FileFormatNotListed)];
      } else {
        assert result + [] == result;
      }
    }
  }

  method CheckFileFormat(fileFormats: seq<string>, ref: Reference, headerLines: nat) returns (errors: seq<Diagnostic>)
    ensures errors == Diagnose(FileFormat, fileFormats, headerLines, ref)
  {
    errors := [];
    var index := 0;
    while index < |fileFormats|
      invariant index <= |fileFormats|
      invariant errors == Diagnose(FileFormat, fileFormats[..index], headerLines, ref)
    {
      DiagnoseStep(FileFormat, fileFormats, headerLines, ref, index);
      var fileFormat := fileFormats[index];
      var line := LineOf(index, headerLines);
      if fileFormat == "" {
        StampSnoc([], FileFormatMissing, line);
        errors := errors + [Diagnostic(line, FileFormatMissing)];
      } else {
        errors := CheckFileFormatCell(fileFormat, ref, line, errors);
      }
      index := index + 1;
    }
    assert fileFormats[..index] == fileFormats;
  }

  /** `check_target_group_format`, which answers True for a cell that does not begin with a
      run of word characters. */
  method CheckTargetGroupFormat(targetGroup: string) returns (malformed: bool)
    ensures malformed <==> !exists n :: 1 <= n <= |targetGroup| && AllWordChars(targetGroup[..n])
    ensures malformed <==> !TargetGroupFormatOk(targetGroup)
  {
    TargetGroupIsWordPrefix(targetGroup);
    malformed := !TargetGroupFormatOk(targetGroup);
  }

  /** The body of `check_target_group`'s loop for a non-empty cell. */
  method CheckTargetGroupCell(targetGroup: string, ref: Reference, line: nat, errors: seq<Diagnostic>)
    returns (result: seq<Diagnostic>)
    requires targetGroup != ""
    ensures result == errors + Stamp(CellKinds(TargetGroup, targetGroup, ref), line)
  {
    result := errors;
    var malformed := CheckTargetGroupFormat(targetGroup);
    if malformed {
      StampSnoc([], TargetGroupMalformed, line);
      result := result + [Diagnostic(line, TargetGroupMalformed)];
    } else {
      var targetGroupList := Split(targetGroup);
      var unlisted := CheckListed(targetGroupList, ref.targetGroups);
      if unlisted {
        StampSnoc([], TargetGroupNotListed, line);
        result := result + [Diagnostic(line, TargetGroupNotListed)];
      } else {
        assert result + [] == result;
      }
    }
  }

  method CheckTargetGroup(targetGroups: seq<string>, ref: Reference, headerLines: nat) returns (errors: seq<Diagnostic>)
    ensures errors == Diagnose(TargetGroup, targetGroups, headerLines, ref)
  {
    errors := [];
    var index := 0;
    while index < |targetGroups|
      invariant index <= |targetGroups|
      invariant errors == Diagnose(TargetGroup, targetGroups[..index], headerLines, ref)
    {
      DiagnoseStep(TargetGroup, targetGroups, headerLines, ref, index);
      var targetGroup := targetGroups[index];
      var line := LineOf(index, headerLines);
      if targetGroup == "" {
        StampSnoc([], TargetGroupMissing, line);
        errors := errors + [Diagnostic(line, TargetGroupMissing)];
      } else {
        errors := CheckTargetGroupCell(targetGroup, ref, line, errors);
      }
      index := index + 1;
    }
    assert targetGroups[..index] == targetGroups;
  }
}
