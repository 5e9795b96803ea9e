/** What the rule table promises: per-item counts, per-cell classification, and the line
    accounting of whole columns. */
module Properties {
  import opened Splitter
  import opened Grammar
  import opened Lines
  import opened Diagnostics
  import opened Rules

  // ---------------------------------------------------------------- items

  /** A cell judged item by item yields one finding per failing item, ... */
  lemma {:induction false} PerItemFailing(items: seq<string>, ok: string -> bool, k: Kind)
    decreases |items|
    ensures |PerItem(items, ok, k)| == |FailingIndices(items, ok)|
  {
    if items == [] {
      assert FailingIndices(items, ok) == {};
    } else {
      var n := |items| - 1;
      var init := items[..n];
      PerItemFailing(init, ok, k);
      var before := FailingIndices(init, ok);
      var now := FailingIndices(items, ok);
      assert n !in before;
      if ok(items[n]) {
        assert now == before;
      } else {
        assert now == before + {n};
      }
    }
  }

  /** ... and every finding is of the item kind. */
  lemma {:induction false} PerItemUniform(items: seq<string>, ok: string -> bool, k: Kind)
    decreases |items|
    ensures forall j :: 0 <= j < |PerItem(items, ok, k)| ==> PerItem(items, ok, k)[j] == k
  {
    if items != [] {
      PerItemUniform(items[..|items| - 1], ok, k);
    }
  }

  /** A cell judged item by item yields exactly one finding, of the item kind, per failing
      item, and none exactly when every item passes. */
  lemma PerItemCount(items: seq<string>, ok: string -> bool, k: Kind)
    ensures |PerItem(items, ok, k)| == |FailingIndices(items, ok)|
    ensures forall j :: 0 <= j < |PerItem(items, ok, k)| ==> PerItem(items, ok, k)[j] == k
    ensures PerItem(items, ok, k) == [] <==> forall i :: 0 <= i < |items| ==> ok(items[i])
  {
    PerItemFailing(items, ok, k);
    PerItemUniform(items, ok, k);
    if i :| 0 <= i < |items| && !ok(items[i]) {
      assert i in FailingIndices(items, ok);
    } else {
      assert FailingIndices(items, ok) == {};
    }
  }

  /** Some community item fails the format test. */
  predicate SomeMalformed(items: seq<string>, formatOk: string -> bool) {
    exists i :: 0 <= i < |items| && !formatOk(items[i])
  }

  /** Some community item fails the name test. */
  predicate SomeUnknown(items: seq<string>, known: string -> bool) {
    exists i :: 0 <= i < |items| && !known(items[i])
  }

  /** Community items: a format finding appears iff some item is malformed. */
  lemma {:induction false} CommunityItemsMalformed(items: seq<string>, formatOk: string -> bool, known: string -> bool)
    decreases |items|
    ensures CommunityMalformed in CommunityItems(items, formatOk, known) <==> SomeMalformed(items, formatOk)
  {
    if items != [] {
      var n := |items| - 1;
      var init := items[..n];
      CommunityItemsMalformed(init, formatOk, known);
      var xs := CommunityItems(init, formatOk, known);
      var ys := CommunityItem(items[n], formatOk, known);
      assert CommunityItems(items, formatOk, known) == xs + ys;
      assert CommunityMalformed in ys <==> !formatOk(items[n]);
      if SomeMalformed(init, formatOk) {
        var i :| 0 <= i < n && !formatOk(init[i]);
        assert items[i] == init[i];
      }
      if SomeMalformed(items, formatOk) {
        var i :| 0 <= i < |items| && !formatOk(items[i]);
        if i < n { assert items[i] == init[i]; }
      }
    }
  }

  /** Community items: a name finding appears iff some item's name is unknown. */
  lemma {:induction false} CommunityItemsUnknown(items: seq<string>, formatOk: string -> bool, known: string -> bool)
    decreases |items|
    ensures CommunityUnknownName in CommunityItems(items, formatOk, known) <==> SomeUnknown(items, known)
  {
    if items != [] {
      var n := |items| - 1;
      var init := items[..n];
      CommunityItemsUnknown(init, formatOk, known);
      var xs := CommunityItems(init, formatOk, known);
      var ys := CommunityItem(items[n], formatOk, known);
      assert CommunityItems(items, formatOk, known) == xs + ys;
      var fs: seq<Kind> := if formatOk(items[n]) then [] else [CommunityMalformed];
      var ns: seq<Kind> := if known(items[n]) then [] else [CommunityUnknownName];
      assert ys == fs + ns;
      assert CommunityUnknownName !in fs;
      assert CommunityUnknownName in ys <==> !known(items[n]);
      if SomeUnknown(init, known) {
        var i :| 0 <= i < n && !known(init[i]);
        assert items[i] == init[i];
      }
      if SomeUnknown(items, known) {
        var i :| 0 <= i < |items| && !known(items[i]);
        if i < n { assert items[i] == init[i]; }
      }
    }
  }

  /** Each community item adds at most two findings, and only the two item kinds. */
  lemma {:induction false} CommunityItemsBound(items: seq<string>, formatOk: string -> bool, known: string -> bool)
    decreases |items|
    ensures forall i :: 0 <= i < |items| ==> |CommunityItem(items[i], formatOk, known)| <= 2
    ensures |CommunityItems(items, formatOk, known)| <= 2 * |items|
    ensures forall j :: 0 <= j < |CommunityItems(items, formatOk, known)| ==>
      CommunityItems(items, formatOk, known)[j] in {CommunityMalformed, CommunityUnknownName}
  {
    if items != [] {
      var n := |items| - 1;
      CommunityItemsBound(items[..n], formatOk, known);
      var xs := CommunityItems(items[..n], formatOk, known);
      var ys := CommunityItem(items[n], formatOk, known);
      assert CommunityItems(items, formatOk, known) == xs + ys;
      forall j | 0 <= j < |xs + ys|
        ensures (xs + ys)[j] in {CommunityMalformed, CommunityUnknownName}
      {
        if j >= |xs| {
          assert (xs + ys)[j] == ys[j - |xs|];
        }
      }
    }
  }

  /** The exact count: one format finding per malformed item plus one name finding per
      unknown item. */
  lemma {:induction false} CommunityItemsCount(items: seq<string>, formatOk: string -> bool, known: string -> bool)
    decreases |items|
    ensures |CommunityItems(items, formatOk, known)| == |FailingIndices(items, formatOk)| + |FailingIndices(items, known)|
  {
    if items == [] {
      assert FailingIndices(items, formatOk) == {};
      assert FailingIndices(items, known) == {};
    } else {
      var n := |items| - 1;
      var init := items[..n];
      CommunityItemsCount(init, formatOk, known);
      assert CommunityItems(items, formatOk, known)
          == CommunityItems(init, formatOk, known) + CommunityItem(items[n], formatOk, known);
      FailingIndicesSnoc(items, formatOk);
      FailingIndicesSnoc(items, known);
    }
  }

  /** One more item adds its position to the failing ones exactly when it fails. */
  lemma FailingIndicesSnoc(items: seq<string>, ok: string -> bool)
    requires items != []
    ensures |FailingIndices(items, ok)|
         == |FailingIndices(items[..|items| - 1], ok)| + (if ok(items[|items| - 1]) then 0 else 1)
  {
    var n := |items| - 1;
    var before := FailingIndices(items[..n], ok);
    var now := FailingIndices(items, ok);
    assert n !in before;
    if ok(items[n]) {
      assert now == before;
    } else {
      assert now == before + {n};
    }
  }

  // ---------------------------------------------------------------- cells

  /** Every finding in ks is one of the non-missing findings of attribute a. */
  predicate Owned(a: Attribute, ks: seq<Kind>) {
    forall j :: 0 <= j < |ks| ==> ks[j] in Findings(a)
  }

  lemma PerItemOwned(a: Attribute, cell: string, ref: Reference)
    requires a in {Authors, Discipline, MediaType, ProficiencyLevel} && cell != ""
    ensures Owned(a, CellKinds(a, cell, ref))
  {
    PerItemCell(a, cell, ref);
  }

  lemma CommunityOwned(cell: string, ref: Reference)
    requires cell != ""
    ensures Owned(Community, CellKinds(Community, cell, ref))
  {
    var items := ItemsOf(Community, cell);
    var known := KnownIn(ref.subsidiaries);
    CommunityCellItems(cell, ref);
    CommunityItemsBound(items, CommunityFormatOk, known);
    assert CommunityMalformed in Findings(Community) && CommunityUnknownName in Findings(Community);
  }

  lemma SingleOwned(a: Attribute, cell: string, ref: Reference)
    requires a in {License, Link, Title, Description, PublicationDate, FileFormat, TargetGroup} && cell != ""
    ensures Owned(a, CellKinds(a, cell, ref))
  {
  }

  /** Every finding of a cell belongs to the cell's attribute, and a non-empty cell never
      yields the missing finding. */
  lemma CellAttribution(a: Attribute, cell: string, ref: Reference)
    ensures cell == "" ==> CellKinds(a, cell, ref) == [MissingKind(a)]
    ensures cell != "" ==> Owned(a, CellKinds(a, cell, ref))
  {
    if cell != "" {
      if a in {Authors, Discipline, MediaType, ProficiencyLevel} {
        PerItemOwned(a, cell, ref);
      } else if a == Community {
        CommunityOwned(cell, ref);
      } else {
        SingleOwned(a, cell, ref);
      }
    }
  }

  /** An empty cell yields exactly its attribute's missing finding, and only an empty cell
      yields it. */
  lemma MissingOnlyForEmptyCell(a: Attribute, cell: string, ref: Reference)
    ensures MissingKind(a) in CellKinds(a, cell, ref) <==> cell == ""
    ensures forall j :: 0 <= j < |CellKinds(a, cell, ref)| ==> AttributeOf(CellKinds(a, cell, ref)[j]) == a
  {
    CellAttribution(a, cell, ref);
    var ks := CellKinds(a, cell, ref);
    forall j | 0 <= j < |ks|
      ensures AttributeOf(ks[j]) == a && (cell != "" ==> ks[j] != MissingKind(a))
    {
      FindingsPartition(a, ks[j]);
    }
  }

  /** A non-empty License cell yields one finding exactly when it is not in the license list. */
  lemma LicenseCell(cell: string, ref: Reference)
    requires cell != ""
    ensures |CellKinds(License, cell, ref)| <= 1
    ensures CellKinds(License, cell, ref) == [] <==> cell in ref.licenses
    ensures CellKinds(License, cell, ref) != [] ==> CellKinds(License, cell, ref)[0] == LicenseNotListed
  {
  }

  /** Authors, Discipline, MediaType and ProficiencyLevel: a non-empty cell yields as many
      findings as it has failing items, all of the attribute's item kind. */
  lemma PerItemCell(a: Attribute, cell: string, ref: Reference)
    requires a in {Authors, Discipline, MediaType, ProficiencyLevel} && cell != ""
    ensures |CellKinds(a, cell, ref)| == |FailingIndices(ItemsOf(a, cell), ItemTest(a))|
    ensures forall j :: 0 <= j < |CellKinds(a, cell, ref)| ==> CellKinds(a, cell, ref)[j] == ItemKind(a)
    ensures CellKinds(a, cell, ref) == [] <==> forall i :: 0 <= i < |ItemsOf(a, cell)| ==> ItemTest(a)(ItemsOf(a, cell)[i])
  {
    var items := ItemsOf(a, cell);
    PerItemCount(items, ItemTest(a), ItemKind(a));
    assert items == [cell] ==> PerItem(items, ItemTest(a), ItemKind(a)) == CellKinds(a, cell, ref) by {
      if items == [cell] {
        assert items[..0] == [];
      }
    }
  }

  /** A non-empty Community cell is judged as its items, a cell without `\*` as one item. */
  lemma CommunityCellItems(cell: string, ref: Reference)
    requires cell != ""
    ensures CellKinds(Community, cell, ref)
         == CommunityItems(ItemsOf(Community, cell), CommunityFormatOk, KnownIn(ref.subsidiaries))
  {
    if !HasEscapedStar(cell) {
      assert [cell][..0] == [];
    }
  }

  /** Community: a non-empty cell yields the findings of its items; format and name findings
      are independent, so each item adds 0, 1 or 2. */
  lemma CommunityCell(cell: string, ref: Reference)
    requires cell != ""
    ensures CellKinds(Community, cell, ref)
         == CommunityItems(ItemsOf(Community, cell), CommunityFormatOk, KnownIn(ref.subsidiaries))
    ensures |CellKinds(Community, cell, ref)| <= 2 * |ItemsOf(Community, cell)|
    ensures CommunityMalformed in CellKinds(Community, cell, ref)
        <==> SomeMalformed(ItemsOf(Community, cell), CommunityFormatOk)
    ensures CommunityUnknownName in CellKinds(Community, cell, ref)
        <==> SomeUnknown(ItemsOf(Community, cell), KnownIn(ref.subsidiaries))
  {
    var items := ItemsOf(Community, cell);
    CommunityCellItems(cell, ref);
    CommunityItemsMalformed(items, CommunityFormatOk, KnownIn(ref.subsidiaries));
    CommunityItemsUnknown(items, CommunityFormatOk, KnownIn(ref.subsidiaries));
    CommunityItemsBound(items, CommunityFormatOk, KnownIn(ref.subsidiaries));
  }

  /** The two-stage rule of FileFormat and TargetGroup: a malformed cell is reported once and
      never looked up; a well-formed one is reported once if some split item is not listed. */
  predicate TwoStage(ks: seq<Kind>, formatOk: bool, unlisted: bool, malformed: Kind, notListed: Kind) {
    ks == (if !formatOk then [malformed] else if unlisted then [notListed] else [])
  }

  /** What the two stages promise: at most one finding, never both, each exactly when its
      stage fails. */
  lemma TwoStageFindings(ks: seq<Kind>, formatOk: bool, unlisted: bool, malformed: Kind, notListed: Kind)
    requires malformed != notListed && TwoStage(ks, formatOk, unlisted, malformed, notListed)
    ensures |ks| <= 1
    ensures !(malformed in ks && notListed in ks)
    ensures malformed in ks <==> !formatOk
    ensures notListed in ks <==> formatOk && unlisted
  {
  }

  /** FileFormat is checked in two stages: the format of the whole cell, then the split items
      against the known extensions. */
  lemma FileFormatTwoStage(cell: string, ref: Reference)
    requires cell != ""
    ensures TwoStage(CellKinds(FileFormat, cell, ref), FileFormatOk(cell),
      exists i :: 0 <= i < |Split(cell)| && Split(cell)[i] !in ref.fileTypes,
      FileFormatMalformed, FileFormatNotListed)
    ensures |CellKinds(FileFormat, cell, ref)| <= 1
    ensures FileFormatMalformed in CellKinds(FileFormat, cell, ref) <==> !FileFormatOk(cell)
    ensures FileFormatNotListed in CellKinds(FileFormat, cell, ref)
        <==> FileFormatOk(cell) && SomeNotIn(Split(cell), ref.fileTypes)
  {
    TwoStageFindings(CellKinds(FileFormat, cell, ref), FileFormatOk(cell),
      SomeNotIn(Split(cell), ref.fileTypes), FileFormatMalformed, FileFormatNotListed);
  }

  /** TargetGroup is checked in the same two stages as FileFormat. */
  lemma TargetGroupTwoStage(cell: string, ref: Reference)
    requires cell != ""
    ensures TwoStage(CellKinds(TargetGroup, cell, ref), TargetGroupFormatOk(cell),
      exists i :: 0 <= i < |Split(cell)| && Split(cell)[i] !in ref.targetGroups,
      TargetGroupMalformed, TargetGroupNotListed)
    ensures |CellKinds(TargetGroup, cell, ref)| <= 1
    ensures TargetGroupMalformed in CellKinds(TargetGroup, cell, ref) <==> !TargetGroupFormatOk(cell)
    ensures TargetGroupNotListed in CellKinds(TargetGroup, cell, ref)
        <==> TargetGroupFormatOk(cell) && SomeNotIn(Split(cell), ref.targetGroups)
  {
    TwoStageFindings(CellKinds(TargetGroup, cell, ref), TargetGroupFormatOk(cell),
      SomeNotIn(Split(cell), ref.targetGroups), TargetGroupMalformed, TargetGroupNotListed);
  }

  /** Once a FileFormat cell (without a final newline) passes the format stage, every item
      looked up in the picklist has the form `.ext`. */
  lemma FileFormatLookupItems(cell: string)
    requires FileFormatOk(cell) && (cell == "" || cell[|cell| - 1] != '\n')
    ensures forall i :: 0 <= i < |Split(cell)| ==> IsItem(ExtensionItem, Split(cell)[i])
  {
    ListBodySplit(ExtensionItem, cell);
  }

  /** The format stage ignores one final newline, but the lookup does not: an extension with a
      newline after it passes the format and is then looked up with the newline attached. */
  lemma FileFormatNewlineItem(x: string, ref: Reference)
    requires IsItem(ExtensionItem, x)
    ensures FileFormatOk(x + "\n")
    ensures Split(x + "\n") == [x + "\n"]
    ensures CellKinds(FileFormat, x + "\n", ref) == if x + "\n" in ref.fileTypes then [] else [FileFormatNotListed]
  {
    var s := x + "\n";
    ItemHasNoSpace(ExtensionItem, x);
    assert Anchored(s) == x;
    NoSpaceNoDelimiter(x, |x|);
    assert Split(x) == [x];
    ListBodySplit(ExtensionItem, x);
    assert AllItems(ExtensionItem, [x]);
    assert s[..|x|] == x;
    NoSpaceNoDelimiter(s, |x|);
    assert !HasDelimiter(s) by {
      forall k: nat
        ensures !DelimiterAt(s, k)
      {
        if k < |x| {
          assert !DelimiterAt(s, k);
        }
      }
    }
    assert [s][0] == s;
  }

  /** A PublicationDate cell is accepted iff it is one of the three digit shapes; the month and
      day are never range-checked. */
  lemma PublicationDateCell(cell: string, ref: Reference)
    requires cell != ""
    ensures CellKinds(PublicationDate, cell, ref) == [] <==> DateFormatOk(cell)
    ensures CellKinds(PublicationDate, cell, ref) != [] ==> CellKinds(PublicationDate, cell, ref) == [DateMalformed]
  {
  }

  // ---------------------------------------------------------------- columns

  /** Every diagnostic of a column lies between the first and the last row's lines, and the
      lines never decrease along the list. */
  lemma {:induction false} RowsLines(rule: string -> seq<Kind>, col: seq<string>, headerLines: nat)
    decreases |col|
    ensures forall j :: 0 <= j < |Rows(rule, col, headerLines)| ==>
      LineOf(0, headerLines) <= Rows(rule, col, headerLines)[j].line < LineOf(|col|, headerLines)
    ensures forall p, q :: 0 <= p < q < |Rows(rule, col, headerLines)| ==>
      Rows(rule, col, headerLines)[p].line <= Rows(rule, col, headerLines)[q].line
  {
    if col != [] {
      var m := |col| - 1;
      var before := Rows(rule, col[..m], headerLines);
      var row := Stamp(rule(col[m]), LineOf(m, headerLines));
      RowsLines(rule, col[..m], headerLines);
      var ds := before + row;
      assert Rows(rule, col, headerLines) == ds;
      forall j | 0 <= j < |ds|
        ensures LineOf(0, headerLines) <= ds[j].line < LineOf(|col|, headerLines)
      {
        if j >= |before| {
          assert ds[j] == row[j - |before|];
        }
      }
      forall p, q | 0 <= p < q < |ds|
        ensures ds[p].line <= ds[q].line
      {
        if q >= |before| {
          assert ds[q] == row[q - |before|];
          if p >= |before| {
            assert ds[p] == row[p - |before|];
          }
        }
      }
    }
  }

  /** Every finding of a column belongs to the column's attribute, and is either its missing
      finding or one of its other findings. */
  lemma {:induction false} DiagnoseKinds(a: Attribute, col: seq<string>, headerLines: nat, ref: Reference)
    decreases |col|
    ensures forall j :: 0 <= j < |Diagnose(a, col, headerLines, ref)| ==>
      Diagnose(a, col, headerLines, ref)[j].kind in Findings(a) + {MissingKind(a)}
  {
    if col != [] {
      var m := |col| - 1;
      var before := Diagnose(a, col[..m], headerLines, ref);
      var kinds := CellKinds(a, col[m], ref);
      var row := Stamp(kinds, LineOf(m, headerLines));
      DiagnoseKinds(a, col[..m], headerLines, ref);
      DiagnoseStep(a, col, headerLines, ref, m);
      assert col[..m + 1] == col;
      CellAttribution(a, col[m], ref);
      var ds := before + row;
      forall j | 0 <= j < |ds|
        ensures ds[j].kind in Findings(a) + {MissingKind(a)}
      {
        if j >= |before| {
          assert ds[j] == row[j - |before|];
        }
      }
    }
  }

  lemma {:induction false} AtLineConcat(xs: seq<Diagnostic>, ys: seq<Diagnostic>, n: nat)
    decreases |ys|
    ensures AtLine(xs + ys, n) == AtLine(xs, n) + AtLine(ys, n)
  {
    if ys != [] {
      var m := |ys| - 1;
      assert (xs + ys)[..|xs + ys| - 1] == xs + ys[..m];
      AtLineConcat(xs, ys[..m], n);
    } else {
      assert xs + ys == xs;
    }
  }

  lemma {:induction false} AtLineNone(ds: seq<Diagnostic>, n: nat)
    requires forall j :: 0 <= j < |ds| ==> ds[j].line != n
    decreases |ds|
    ensures AtLine(ds, n) == []
  {
    if ds != [] {
      AtLineNone(ds[..|ds| - 1], n);
    }
  }

  lemma {:induction false} AtLineAll(ds: seq<Diagnostic>, n: nat)
    requires forall j :: 0 <= j < |ds| ==> ds[j].line == n
    decreases |ds|
    ensures AtLine(ds, n) == ds
  {
    if ds != [] {
      AtLineAll(ds[..|ds| - 1], n);
    }
  }

  /** The diagnostics a column reports at the line of row i are exactly that row's findings,
      in order: rows never share a line and every row's findings carry its line. */
  lemma {:induction false} RowsAtLine(rule: string -> seq<Kind>, col: seq<string>, headerLines: nat, i: nat)
    requires i < |col|
    decreases |col|
    ensures AtLine(Rows(rule, col, headerLines), LineOf(i, headerLines)) == Stamp(rule(col[i]), LineOf(i, headerLines))
  {
    var m := |col| - 1;
    var n := LineOf(i, headerLines);
    var before := Rows(rule, col[..m], headerLines);
    var row := Stamp(rule(col[m]), LineOf(m, headerLines));
    AtLineConcat(before, row, n);
    if i == m {
      RowsLines(rule, col[..m], headerLines);
      AtLineNone(before, n);
      AtLineAll(row, n);
    } else {
      AtLineNone(row, n);
      RowsAtLine(rule, col[..m], headerLines, i);
      assert col[..m][i] == col[i];
    }
  }

  /** An empty cell at row i is reported once, as missing, at line i + header lines + 2. */
  lemma EmptyCellReportedOnce(a: Attribute, col: seq<string>, headerLines: nat, ref: Reference, i: nat)
    requires i < |col| && col[i] == ""
    ensures AtLine(Diagnose(a, col, headerLines, ref), i + headerLines + 2)
         == [Diagnostic(i + headerLines + 2, MissingKind(a))]
  {
    assert CellRule(a, ref)(col[i]) == [MissingKind(a)];
    RowsAtLineSingle(CellRule(a, ref), col, headerLines, i, MissingKind(a));
  }

  /** A row whose rule yields the single finding k is reported at its line as just k. */
  lemma RowsAtLineSingle(rule: string -> seq<Kind>, col: seq<string>, headerLines: nat, i: nat, k: Kind)
    requires i < |col| && rule(col[i]) == [k]
    ensures AtLine(Rows(rule, col, headerLines), i + headerLines + 2) == [Diagnostic(i + headerLines + 2, k)]
  {
    var line := LineOf(i, headerLines);
    RowsAtLine(rule, col, headerLines, i);
    assert Stamp([k], line) == [Diagnostic(line, k)];
  }

  lemma {:induction false} ShiftConcat(xs: seq<Diagnostic>, ys: seq<Diagnostic>, delta: nat)
    decreases |ys|
    ensures Shift(xs + ys, delta) == Shift(xs, delta) + Shift(ys, delta)
  {
    if ys != [] {
      var m := |ys| - 1;
      assert (xs + ys)[..|xs + ys| - 1] == xs + ys[..m];
      ShiftConcat(xs, ys[..m], delta);
    } else {
      assert xs + ys == xs;
    }
  }

  lemma {:induction false} ShiftStamp(kinds: seq<Kind>, line: nat, delta: nat)
    decreases |kinds|
    ensures Shift(Stamp(kinds, line), delta) == Stamp(kinds, line + delta)
  {
    if kinds != [] {
      var m := |kinds| - 1;
      ShiftStamp(kinds[..m], line, delta);
      var s := Stamp(kinds, line);
      assert s[..|s| - 1] == Stamp(kinds[..m], line);
    }
  }

  /** Raising the header offset by delta moves every diagnostic of the column down by delta
      lines and changes nothing else. */
  lemma {:induction false} RowsShift(rule: string -> seq<Kind>, col: seq<string>, headerLines: nat, delta: nat)
    decreases |col|
    ensures Rows(rule, col, headerLines + delta) == Shift(Rows(rule, col, headerLines), delta)
  {
    if col != [] {
      var m := |col| - 1;
      var kinds := rule(col[m]);
      var before := Rows(rule, col[..m], headerLines);
      var row := Stamp(kinds, LineOf(m, headerLines));
      assert Rows(rule, col, headerLines) == before + row;
      assert Rows(rule, col, headerLines + delta)
          == Rows(rule, col[..m], headerLines + delta) + Stamp(kinds, LineOf(m, headerLines) + delta);
      RowsShift(rule, col[..m], headerLines, delta);
      ShiftConcat(before, row, delta);
      ShiftStamp(kinds, LineOf(m, headerLines), delta);
    }
  }

  /** Two rules that agree on every cell of a column give the same findings. */
  lemma {:induction false} RowsAgree(r1: string -> seq<Kind>, r2: string -> seq<Kind>, col: seq<string>, headerLines: nat)
    requires forall i :: 0 <= i < |col| ==> r1(col[i]) == r2(col[i])
    decreases |col|
    ensures Rows(r1, col, headerLines) == Rows(r2, col, headerLines)
  {
    if col != [] {
      var m := |col| - 1;
      assert forall i :: 0 <= i < m ==> col[..m][i] == col[i];
      RowsAgree(r1, r2, col[..m], headerLines);
    }
  }

  /** The rules that read no picklist give the same column result whatever the reference data. */
  lemma DiagnoseIgnoresReference(a: Attribute, col: seq<string>, headerLines: nat, r1: Reference, r2: Reference)
    requires ReferenceFree(a)
    ensures Diagnose(a, col, headerLines, r1) == Diagnose(a, col, headerLines, r2)
  {
    forall i | 0 <= i < |col|
      ensures CellRule(a, r1)(col[i]) == CellRule(a, r2)(col[i])
    {
      assert CellKinds(a, col[i], r1) == CellKinds(a, col[i], r2);
    }
    RowsAgree(CellRule(a, r1), CellRule(a, r2), col, headerLines);
  }
}
