# DALIA Interchange Format compliance checker, modelled in Dafny

`check_csv.py` checks a CSV record set of learning resources against the DALIA Interchange
Format (DIF). Each attribute column (Authors, License, Link, Title, Description, Community,
Discipline, MediaType, ProficiencyLevel, PublicationDate, FileFormat, TargetGroup) has its own
validator. A validator walks its column row by row and collects one `Line n: message` string
for every finding. `check_data` runs the twelve validators in a fixed order and stores each
result under the column's name. `write_output` lays the result out as a table: one column per
attribute, with the shorter columns padded with empty cells.

This project models that core:

- `Splitter`: `split_into_list`, i.e. `re.split(r'\s\*\s', …)`, computed leftmost-first, as Python's `re` does.
- `Grammar`: every regular expression of the source, as a predicate over strings. Each one is stated positively (`XFormatOk`), where the source's `check_X_format` answers True for a bad cell.
    - Python's `$` matches at the end or just before a final newline; this is modelled exactly.
    - Unanchored searches are reduced to what they actually test: a window of a few characters, a prefix, or a suffix.
- `Patterns`: the same patterns written generatively, as the strings each one matches, with a lemma proving each equivalent to its `Grammar` predicate.
    - In `Patterns`: the organization search, all of `check_author_format`, the Link and FileFormat lists, the community suffix, the discipline prefix and the three date shapes.
    - In `Grammar`: the name-pair search (`NamePairWindowIsRegex`) and the target-group prefix (`TargetGroupIsWordPrefix`).
- `Lines`: the reported line number `index + global_header_lines + global_line_offset`.
- `Diagnostics`: the findings, one `Kind` per distinct message.
    - A diagnostic is a line number and a kind.
    - `Render` gives the exact source text.
    - `Reference` holds the picklists the validators read.
- `Rules`: a specification of all the validators.
    - `CellKinds` gives the findings of one cell, in the order the source appends them.
    - `Diagnose` gives the findings of a whole column, stamped with each row's line.
- `Validators`: every `check_*` function, as an imperative method with the source's loops.
    - Each column validator, `check_authors` to `check_target_group`, is proved to return exactly `Diagnose`.
    - The per-value helpers are proved against independent forms of their patterns:
        - `check_author_format`, `check_community_format`, `check_discipline_link`, `check_date_format` and `check_file_format_format` against the generative patterns of `Patterns`;
        - `check_community_name` against the role-suffix lemma `Grammar.StripRoleSuffix`;
        - `check_target_group_format` against `Grammar.TargetGroupIsWordPrefix`, the search for `^\w+`.
    - `check_authors` judges each name through `CheckAuthorFormat`, as the source calls `check_author_format`.
- `Properties`: what the rules promise. It covers:
    - counts per failing item;
    - independence of the community format and name checks;
    - the two-stage FileFormat and TargetGroup checks;
    - line ordering;
    - one missing finding per empty cell;
    - a uniform shift of every reported line when the number of header lines changes.
- `ReferenceData`: `extract_identifier` and `extract_file_types`, and the `Reference` picklists built from their results.
- `RecordChecker`: `check_data`.
- `Report`: the row-padding loop of `write_output`.
- `Scenarios`: a few concrete cells.

Behaviour modelled as the code has it:

- **Split items are not trimmed.** `re.split` leaves the pieces as they are.
- **Months and days are not range-checked.** A date such as `2020-13` is accepted, because the date patterns check digits only.
- **Where the cell is split.**
    - Authors, Community and Discipline cells are split only when they contain the two characters `\*` (the raw string `r'\*'`).
    - MediaType and ProficiencyLevel cells are split when they contain any `*`.
- **Multi-item cells are judged item by item.** Authors, Discipline, MediaType and ProficiencyLevel report one finding per failing item, not one per cell. Community reports up to two per item.
- **A final newline reaches the FileFormat lookup.** The format pattern ignores one final newline, because of `$`, but the split does not. So `.pdf` followed by a newline passes the format and is then looked up with the newline attached (`Properties.FileFormatNewlineItem`).
- **The Link message names License.** When the Link column is absent, the message stored for it names 'License'.
- **An absent column in the report.** Its stored message is a string, so in `write_output` it is indexed character by character: the message runs down the report one character per row.
- **An empty report raises.** `max` over an empty dictionary raises; `Report.WriteRows` requires a non-empty result, which `check_data` always gives.

Modelling choices:

- **The data frame.** It is a map from column label to the column's cells, taken after the extra header lines have been dropped and the empty cells filled with `""`.
    - A column the map lacks takes `check_data`'s `else` branch.
    - Pandas itself raises `KeyError` for a missing column, so that branch is unreachable in the program; the model keeps the branch as written.
- **The result dictionary.** It is a sequence of (attribute, value) pairs in insertion order. The key string is `Name(a)`.
    - A value is either the validator's diagnostics or `Absent`, which stands for the message string `AbsentMessage(a)`.
- **Reference data.** The picklists that the validators read from `resources/` are `Reference` parameters:
    - the license identifiers;
    - the `subsidiaries` of the communities document;
    - the flattened MIME file types;
    - the target groups.
- **Target groups.** The source's check `target_group not in <DataFrame>` tests column labels, so the model takes the target groups as a set of strings.
- **The target-group pattern.** `check_target_group_format` searches for `^\w+` followed by an optional group and a starred group. It is a search, not a full match, and both groups can match the empty string, so only `^\w+` decides the result. `Grammar.TargetGroupFormatOk` tests that alone. The reduction from the full pattern is argued here, not proved, since the model contains no regular-expression engine; `Grammar.TargetGroupIsWordPrefix` proves the rest.
- **Character classes.** `\s`, `\w` and `\d` are fixed approximations of Python's Unicode classes, defined in `CharClass`.

Where the specification functions come from. These definitions carry no contract of their own; the lemmas named after each state what they mean.

- `Grammar.AuthorFormatOk` and `Grammar.OrganizationAt` (check_csv.py:127-137): `Patterns.AuthorFormatIsRegex`, `Patterns.OrganizationAtIsRegex`.
- `Grammar.LinkFormatOk` (check_csv.py:168) and `Grammar.FileFormatOk` (check_csv.py:374-378): `Patterns.LinkFormatIsItemList`, `Patterns.FileFormatIsItemList`.
- `Grammar.CommunityFormatOk` (check_csv.py:199-206): `Patterns.CommunityFormatIsRegex`.
- `Grammar.StripRoles` (check_csv.py:214): `Grammar.StripRoleSuffix`, `Grammar.RoleMatchEnd`, `Grammar.LastClose`.
- `Grammar.DisciplineLinkOk` (check_csv.py:279-283): `Patterns.DisciplineLinkIsRegex`.
- `Grammar.DateFormatOk` (check_csv.py:328-334): `Patterns.DateFormatIsShape`.
- `Grammar.TargetGroupFormatOk` (check_csv.py:408-412): `Grammar.TargetGroupIsWordPrefix`.
- `Splitter.HasEscapedStar` (the `r'\*' in …` tests, check_csv.py:116, 232, 262): `Properties.CommunityCellItems`, `Properties.PerItemCell`.
- `Diagnostics.Message` (the message texts of check_csv.py:106-419): `Diagnostics.Render`.
- `Rules.CellKinds`, `Rules.Rows` and `Rules.Diagnose` (the validators, check_csv.py:106-419): the `Properties` lemmas, and every column validator's `ensures`.
- `RecordChecker.AbsentMessage`, `RecordChecker.Expected` and `RecordChecker.Report` (check_csv.py:422-490): `RecordChecker.ReportValues`, `RecordChecker.ReportKeys`, `RecordChecker.AbsentLinkMessageNamesLicense`.
- `Report.Cells` and `Report.Grid` (check_csv.py:493-507): `Report.GridColumn`, `Report.GridShape`, `Report.AbsentColumnSpellsMessage`.

## Model

| member | source | states |
|---|---|---|
| CharClass.NameCharNotSpace | check_csv.py:131-133 | no name character and no word character is whitespace |
| Splitter.FindDelimiter | check_csv.py:99-103 | finds the leftmost `\s\*\s` match at or after a position, or reports that there is none |
| Splitter.Split | check_csv.py:99-103 | `split_into_list` returns at least one piece, and returns the cell unchanged as its only piece exactly when it has no delimiter |
| Splitter.SplitAtFirst | check_csv.py:99-103 | the split cuts at the first delimiter and continues with the rest after it |
| Splitter.SplitPiecesHaveNoDelimiter | check_csv.py:99-103 | no piece contains a delimiter match |
| Splitter.SplitJoinStars | check_csv.py:99-103 | splitting items joined with ` * ` gives the items back, when no item contains `*` |
| Grammar.Anchored | check_csv.py:328-334 | the string an anchored `^…$` pattern must match is the cell minus at most one final newline, and is a prefix of the cell |
| Grammar.NamePairWindowIsRegex | check_csv.py:131-133 | searching for a 4-character window `N,\sN` is equivalent to searching for `[N]+,\s[N]+` |
| Grammar.RunLength | check_csv.py:168 | the greedy run `\S+` or `\w+`: all characters before it are run characters, and the next one is not |
| Grammar.ListBodySplit | check_csv.py:374-378 | a cell matches the whole-cell list pattern (Link, FileFormat) exactly when every piece of its split is one item `https://\S+` or `\.\w+` |
| Grammar.LastClose | check_csv.py:214 | finds the last `)` in a range, or reports that there is none |
| Grammar.RoleMatchEnd | check_csv.py:214 | a match of `\s\(\S*\)` is at least 3 characters long and ends in `)` |
| Grammar.StripRoleSuffix | check_csv.py:209-218 | removing the roles from `name (tag)` gives the name back, when the name contains no whitespace-then-`(` and the tag no whitespace |
| Grammar.TargetGroupIsWordPrefix | check_csv.py:408-412 | the reduced target-group test is the same as a search for `^\w+` |
| Patterns.OrganizationAtIsRegex | check_csv.py:133-134 | a window ` : {organization` somewhere is the same as a match of `^[\S\s]*\s:\s\{organization` |
| Patterns.AuthorFormatIsRegex | check_csv.py:127-137 | the author predicate holds exactly when one of the three patterns matches |
| Patterns.LinkFormatIsItemList | check_csv.py:168 | a Link cell matches exactly when every piece of its split, up to a final newline, is one `https://\S+` item |
| Patterns.FileFormatIsItemList | check_csv.py:374-378 | a FileFormat cell matches exactly when every piece of its split, up to a final newline, is one `.\w+` item |
| Patterns.EndsWithRoleIsText | check_csv.py:203 | a string ends in whitespace, `(`, the tag and `)` exactly when it is some `u w(tag)` |
| Patterns.CommunityFormatIsRegex | check_csv.py:199-206 | the community predicate holds exactly when the item, up to a final newline, ends in whitespace and `(tag)` with tag one of RS, SR, S, R, which is what `^[\S\s]*\s\((RS…R)\)$` matches |
| Patterns.DisciplineLinkIsRegex | check_csv.py:279-283 | the discipline predicate holds exactly when the link is the prefix followed by one or more digits |
| Patterns.YearMonthIsDashed | check_csv.py:328-334 | the `yyyy-mm` test holds exactly for four digits, a dash and two digits |
| Patterns.YearMonthDayIsDashed | check_csv.py:328-334 | the `yyyy-mm-dd` test holds exactly for four digits, a dash, two digits, a dash and two digits |
| Patterns.DateFormatIsShape | check_csv.py:328-334 | the date predicate holds exactly when the date, up to a final newline, is one of the three digit shapes |
| Lines.LineOf | check_csv.py:8-9 | a row is reported at `index + header lines + 2`, never before line `header lines + 2` |
| Lines.LineOfStrictlyIncreasing | check_csv.py:8-9 | later rows are reported at strictly later lines |
| Lines.LineOfShift | check_csv.py:81-89 | more header lines move every reported line by the same amount |
| Diagnostics.MissingKind | check_csv.py:106-419 | the empty-cell finding of an attribute is reported under that attribute |
| Diagnostics.FindingsPartition | check_csv.py:422-490 | every kind belongs to exactly one attribute, either as its empty-cell finding or as one of its other findings |
| Diagnostics.MissingSeverity | check_csv.py:422-490 | an empty cell is a mandatory-missing finding exactly for Authors, License, Link and Title |
| Diagnostics.MissingKindsSeverity | check_csv.py:422-490 | only the empty-cell kinds have a missing severity |
| Diagnostics.NatText | check_csv.py:114 | the line number in the message is in decimal without leading zeros |
| Diagnostics.NatTextValue | check_csv.py:114 | the rendered line number reads back as the line number |
| Diagnostics.Render | check_csv.py:112-123 | the rendered diagnostic starts with `Line ` and ends with the message of its kind |
| Properties.PerItemCount | check_csv.py:286-304 | one finding of the item kind per failing item, and none exactly when every item passes |
| Properties.CommunityItemsMalformed | check_csv.py:241-248 | a format finding appears exactly when some item is malformed |
| Properties.CommunityItemsUnknown | check_csv.py:241-248 | a name finding appears exactly when some item's name is not a subsidiary |
| Properties.CommunityItemsBound | check_csv.py:221-238 | each item adds at most two findings, so a cell has at most 2·(number of items) in total, all of the two community kinds |
| Properties.CommunityItemsCount | check_csv.py:221-248 | the number of findings is the number of malformed items plus the number of items with an unknown name |
| Properties.CellAttribution | check_csv.py:106-419 | an empty cell yields exactly its attribute's missing finding; a non-empty cell yields only findings of its own attribute |
| Properties.MissingOnlyForEmptyCell | check_csv.py:106-419 | the missing finding appears exactly for an empty cell, and every finding of a cell belongs to the cell's attribute |
| Properties.LicenseCell | check_csv.py:140-154 | a non-empty License cell yields at most one finding, exactly when it is not a known license identifier |
| Properties.PerItemCell | check_csv.py:106-124 | a non-empty Authors, Discipline, MediaType or ProficiencyLevel cell yields one finding per failing item of its split, all of the item kind |
| Properties.CommunityCellItems | check_csv.py:221-238 | a non-empty Community cell is judged as its items; a cell without `\*` is one item |
| Properties.CommunityCell | check_csv.py:221-248 | a Community cell has at most 2·(number of items) findings in total; a format finding exactly when some item is malformed; a name finding exactly when some item is unknown |
| Properties.TwoStageFindings | check_csv.py:353-371 | the two-stage check yields at most one finding and never both; malformed exactly when the format fails; unlisted exactly when the format passes and some item is not listed |
| Properties.FileFormatTwoStage | check_csv.py:353-385 | a non-empty FileFormat cell has at most one finding; it is malformed exactly when the format fails, and not listed exactly when the format passes and some split item is not a known file type |
| Properties.TargetGroupTwoStage | check_csv.py:388-419 | a non-empty TargetGroup cell has at most one finding; it is malformed exactly when the format fails, and not listed exactly when the format passes and some split item is not a target group |
| Properties.FileFormatLookupItems | check_csv.py:374-385 | once a FileFormat cell that does not end in a newline passes the format, every item looked up has the form `.ext` |
| Properties.FileFormatNewlineItem | check_csv.py:353-385 | an extension followed by a newline passes the format, is looked up as one item with the newline attached, and is reported exactly when that string is not listed |
| Properties.PublicationDateCell | check_csv.py:328-350 | a non-empty date is accepted exactly when it has one of the three digit shapes, and is otherwise reported once as malformed |
| Properties.RowsLines | check_csv.py:106-124 | every diagnostic of a column lies between the first and the last row's lines, in non-decreasing order |
| Properties.DiagnoseKinds | check_csv.py:422-490 | every finding of a column is its attribute's missing finding or one of its other findings |
| Properties.RowsAtLine | check_csv.py:106-124 | the diagnostics at the line of row i are exactly that row's findings, in order |
| Properties.EmptyCellReportedOnce | check_csv.py:106-124 | an empty cell at row i is reported once, as missing, at line i + header lines + 2 |
| Properties.RowsShift | check_csv.py:81-89 | more header lines move every diagnostic down by that many lines and change nothing else |
| Properties.DiagnoseIgnoresReference | check_csv.py:106-137 | the validators that read no picklist give the same result for any reference data |
| Validators.CheckAuthorFormat | check_csv.py:127-137 | answers True exactly when none of the three patterns matches: no `[N]+,\s[N]+`, no `\s:\s{organization`, and not `n/a` |
| Validators.CheckItems | check_csv.py:295-299 | the item loop appends one diagnostic at the row's line for every failing item, in order |
| Validators.CheckOne | check_csv.py:300-303 | a single value appends one diagnostic exactly when it fails |
| Validators.CheckSingleAuthor | check_csv.py:119-123 | appends one wrong-name finding exactly when `check_author_format` answers True |
| Validators.CheckAuthorItems | check_csv.py:117-120 | appends one wrong-name finding per malformed name of a split cell, in order |
| Validators.CheckAuthors | check_csv.py:106-124 | returns exactly the column specification for Authors |
| Validators.CheckLicenses | check_csv.py:140-154 | returns exactly the column specification for License |
| Validators.CheckLink | check_csv.py:157-171 | returns exactly the column specification for Link |
| Validators.CheckPresent | check_csv.py:174-196 | the Title and Description loops report exactly the empty cells |
| Validators.CheckTitle | check_csv.py:174-183 | returns exactly the column specification for Title |
| Validators.CheckDescription | check_csv.py:186-196 | returns exactly the column specification for Description |
| Validators.CheckCommunityName | check_csv.py:209-218 | the name is known exactly when, with every ` (roles)` group removed, it is a subsidiary; for an item `name (tag)` whose name has no role group, exactly when `name` is a subsidiary |
| Validators.CheckCommunityFormat | check_csv.py:199-206 | answers True exactly when the item, up to a final newline, is not of the form `… w(tag)` with `w` whitespace and tag one of RS, SR, S, R |
| Validators.CheckSingleCommunity | check_csv.py:241-248 | appends the format finding and then the name finding, each exactly when that check fails |
| Validators.CheckCommunityItems | check_csv.py:232-235 | appends the findings of every item of a split cell, in order |
| Validators.CheckCommunity | check_csv.py:221-238 | returns exactly the column specification for Community |
| Validators.CheckDisciplineLink | check_csv.py:279-283 | answers True exactly when the link is not the subject-scheme prefix followed by one or more digits |
| Validators.CheckSingleDiscipline | check_csv.py:271-276 | appends one finding exactly when the link is malformed |
| Validators.CheckDisciplineItems | check_csv.py:262-266 | appends one finding per malformed item of a split cell |
| Validators.CheckDisciplines | check_csv.py:251-268 | returns exactly the column specification for Discipline |
| Validators.CheckMediaTypes | check_csv.py:286-304 | returns exactly the column specification for MediaType |
| Validators.CheckProficiencyLevels | check_csv.py:307-325 | returns exactly the column specification for ProficiencyLevel |
| Validators.CheckDateFormat | check_csv.py:328-334 | answers True exactly when the date, up to a final newline, is none of `yyyy`, `yyyy-mm` and `yyyy-mm-dd` with digits |
| Validators.CheckPublicationDates | check_csv.py:337-350 | returns exactly the column specification for PublicationDate |
| Validators.CheckListed | check_csv.py:381-385 | answers True exactly when some item is not in the picklist |
| Validators.CheckFileFormatFormat | check_csv.py:374-378 | answers True exactly when some piece of the split cell, up to a final newline, is not one `.ext` item |
| Validators.CheckFileFormatCell | check_csv.py:361-369 | a non-empty cell appends exactly its FileFormat findings: malformed, or else not listed, or nothing |
| Validators.CheckFileFormat | check_csv.py:353-371 | returns exactly the column specification for FileFormat |
| Validators.CheckTargetGroupFormat | check_csv.py:408-412 | answers True exactly when no non-empty prefix of the cell consists of word characters |
| Validators.CheckTargetGroupCell | check_csv.py:397-404 | a non-empty cell appends exactly its TargetGroup findings: malformed, or else not listed, or nothing |
| Validators.CheckTargetGroup | check_csv.py:388-405 | returns exactly the column specification for TargetGroup |
| ReferenceData.ExtractIdentifier | check_csv.py:60-67 | returns the `licenseId` of every entry, in document order |
| ReferenceData.ExtractFileTypes | check_csv.py:51-57 | returns the file types of every entry, entry after entry |
| ReferenceData.FlattenMembership | check_csv.py:51-57 | a file type is extracted exactly when some entry lists it |
| ReferenceData.FlattenLength | check_csv.py:51-57 | as many file types are extracted as all entries list together |
| ReferenceData.LoadReference | check_csv.py:25-47 | a license identifier is in the picklist exactly when some entry carries it, and a file type exactly when some entry lists it; subsidiaries and target groups are passed through |
| RecordChecker.RunValidator | check_csv.py:422-490 | each attribute's validator returns its column specification |
| RecordChecker.CheckEntry | check_csv.py:428-431 | a column the frame has is checked; a column it lacks gets the absent marker |
| RecordChecker.CheckData | check_csv.py:422-490 | returns all twelve entries in the source's order |
| RecordChecker.ReportKeys | check_csv.py:422-490 | the keys are the twelve attributes, in the fixed order, each once |
| RecordChecker.ReportValues | check_csv.py:422-490 | a value is the absent marker exactly when the frame lacks the column, and otherwise is that column's diagnostics |
| RecordChecker.AbsentLinkMessageNamesLicense | check_csv.py:438-441 | an absent Link column reports the same text as an absent License column |
| Report.MaxLength | check_csv.py:495 | the number of rows is at least every column's length and equals some column's length |
| Report.WriteRows | check_csv.py:493-507 | the header is the keys in order and the rows are the padded table |
| Report.PadRows | check_csv.py:500-507 | the outer loop builds one row per index below the maximum length |
| Report.PadRow | check_csv.py:501-506 | each row has every column's i-th cell, or `''` past the column's end |
| Report.GridColumn | check_csv.py:493-507 | each column of the table holds that column's cells in order, followed only by empty cells |
| Report.GridShape | check_csv.py:493-507 | every row is as wide as the header, and some column fills every row |
| Report.AbsentColumnSpellsMessage | check_csv.py:428-431 | an absent column runs down the report one character per row, spelling its message |
| Scenarios.CommaSeparatedAuthorPasses | check_csv.py:131-133 | `Doe, Jane` is a valid author |
| Scenarios.AuthorWithoutCommaFails | check_csv.py:127-137 | `Doe Jane` is reported as a wrong name format |
| Scenarios.ThirteenthMonthAccepted | check_csv.py:328-334 | `2020-13` is accepted as a date |
| Scenarios.TrailingNewlineIgnored | check_csv.py:328-334 | `2020` followed by a newline is accepted as a date |
| Scenarios.FirstRowIsLineThree | check_csv.py:8-9 | with one extra header line, the first data row is reported as line 3 |
| Scenarios.TwoMediaTypesSplit | check_csv.py:99-103 | `a * b` splits into `a` and `b` |
| Scenarios.SplitTwo | check_csv.py:99-103 | two words without whitespace around one delimiter split into those two words |
| Scenarios.MediaTypePair | check_csv.py:286-304 | a two-item media-type cell yields one finding per unlisted item |
| Scenarios.MediaTypeCellFindings | check_csv.py:286-304 | `audio * movie` yields exactly one media-type finding |

## Left out

- Command-line parsing (`parse_arguments`) and the main block: these are I/O.
- File reading and the JSON and CSV parsing: `read_license_file`, `read_communities_list`, `read_data_formats_file` and `read_csv`.
    - The model takes their results as parameters: `Reference`, `LicenseEntry`, `MimeEntry`, and the frame map.
- `remove_header_lines` and `fill_empty_cells`: in-place pandas mutation.
    - The frame is taken as it is afterwards.
    - The number of header lines is a parameter, instead of the global `global_header_lines`.
- The CSV writer in `write_output`: file output and CSV quoting. The model stops at the header and the rows handed to `writerow`.
- Unicode semantics of `\s`, `\w` and `\d`: fixed character classes approximate them.
- Pandas `KeyError` for a missing column: the model follows `check_data`'s `else` branch instead.
- Report.WriteRows: requires a non-empty result, where Python's `max` would raise on an empty dictionary. `check_data` always stores twelve keys.
- Grammar.TargetGroupFormatOk: the step from the full target-group pattern to `^\w+` is argued, not proved, because the model has no regular-expression engine to state the full pattern in.
- Cell types: every cell is modelled as a string. Pandas may read a column of numbers as integers, and then `re.search` in `check_date_format` (check_csv.py:329) raises `TypeError`; the model has no such cells.
- RecordChecker.Column: an absent column carries no text. `AbsentMessage` holds the source's messages, and `Report.Cells` spells them out.
