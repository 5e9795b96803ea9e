/** `extract_identifier` and `extract_file_types`: the two loops that turn the parsed JSON
    resource documents into flat picklists. The JSON objects are modelled by the one field each
    loop reads. */
module ReferenceData {
  import opened Diagnostics

  /** One element of the `licenses` array of the SPDX license document. */
  datatype LicenseEntry = LicenseEntry(licenseId: string)

  /** One element of the MIME data document: the file extensions of one media type. */
  datatype MimeEntry = MimeEntry(fileTypes: seq<string>)

  /** `extract_identifier`: the `licenseId` of every entry, in document order. */
  method ExtractIdentifier(licenseData: seq<LicenseEntry>) returns (identifiers: seq<string>)
    ensures |identifiers| == |licenseData|
    ensures forall i :: 0 <= i < |licenseData| ==> identifiers[i] == licenseData[i].licenseId
  {
    identifiers := [];
    var i := 0;
    while i < |licenseData|
      invariant i <= |licenseData|
      invariant |identifiers| == i
      invariant forall j :: 0 <= j < i ==> identifiers[j] == licenseData[j].licenseId
    {
      identifiers := identifiers + [licenseData[i].licenseId];
      i := i + 1;
    }
  }

  /** All file types of the entries, entry after entry, each entry's in its own order. */
  function Flatten(entries: seq<MimeEntry>): seq<string>
    decreases |entries|
  {
    if entries == [] then [] else Flatten(entries[..|entries| - 1]) + entries[|entries| - 1].fileTypes
  }

  /** `extract_file_types`: the nested loop appends the file types of every entry. */
  method ExtractFileTypes(fileFormatList: seq<MimeEntry>) returns (fileTypes: seq<string>)
    ensures fileTypes == Flatten(fileFormatList)
  {
    fileTypes := [];
    var i := 0;
    while i < |fileFormatList|
      invariant i <= |fileFormatList|
      invariant fileTypes == Flatten(fileFormatList[..i])
    {
      var types := fileFormatList[i].fileTypes;
      ghost var before := fileTypes;
      var j := 0;
      while j < |types|
        invariant j <= |types|
        invariant fileTypes == before + types[..j]
      {
        fileTypes := fileTypes + [types[j]];
        assert types[..j + 1] == types[..j] + [types[j]];
        j := j + 1;
      }
      assert types[..j] == types;
      assert fileFormatList[..i + 1][..i] == fileFormatList[..i];
      i := i + 1;
    }
    assert fileFormatList[..i] == fileFormatList;
  }

  /** A file type is in the flattened picklist exactly when some entry lists it. */
  lemma {:induction false} FlattenMembership(entries: seq<MimeEntry>, x: string)
    decreases |entries|
    ensures x in Flatten(entries) <==> exists i :: 0 <= i < |entries| && x in entries[i].fileTypes
  {
    if entries != [] {
      var n := |entries| - 1;
      var init := entries[..n];
      FlattenMembership(init, x);
      assert Flatten(entries) == Flatten(init) + entries[n].fileTypes;
      if exists i :: 0 <= i < n && x in init[i].fileTypes {
        var i :| 0 <= i < n && x in init[i].fileTypes;
        assert entries[i] == init[i];
      }
      if i :| 0 <= i < |entries| && x in entries[i].fileTypes {
        if i < n {
          assert entries[i] == init[i];
        }
      }
    }
  }

  /** Nothing is dropped or invented: the flattened list is as long as all entries together. */
  function TotalTypes(entries: seq<MimeEntry>): nat
    decreases |entries|
  {
    if entries == [] then 0 else TotalTypes(entries[..|entries| - 1]) + |entries[|entries| - 1].fileTypes|
  }

  lemma {:induction false} FlattenLength(entries: seq<MimeEntry>)
    decreases |entries|
    ensures |Flatten(entries)| == TotalTypes(entries)
  {
    if entries != [] {
      FlattenLength(entries[..|entries| - 1]);
    }
  }

  /** The picklists the validators test membership in, built from the parsed resource
      documents as `read_license_file` and `read_data_formats_file` build them; the
      subsidiaries and the target groups are read without extraction. */
  method LoadReference(licenseData: seq<LicenseEntry>, subsidiaries: set<string>,
                       fileFormatList: seq<MimeEntry>, targetGroups: set<string>)
    returns (ref: Reference)
    ensures forall x :: x in ref.licenses <==> exists i :: 0 <= i < |licenseData| && licenseData[i].licenseId == x
    ensures forall x :: x in ref.fileTypes <==> exists i :: 0 <= i < |fileFormatList| && x in fileFormatList[i].fileTypes
    ensures ref.subsidiaries == subsidiaries && ref.targetGroups == targetGroups
  {
    var identifiers := ExtractIdentifier(licenseData);
    var fileTypes := ExtractFileTypes(fileFormatList);
    ref := Reference((set x | x in identifiers), subsidiaries, (set x | x in fileTypes), targetGroups);
    forall x
      ensures x in ref.fileTypes <==> exists i :: 0 <= i < |fileFormatList| && x in fileFormatList[i].fileTypes
    {
      FlattenMembership(fileFormatList, x);
    }
  }
}
