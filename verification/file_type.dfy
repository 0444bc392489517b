/** The file-type checks: `isJSONFile`, `isCSVFile` and `validateFileTypeFromFile`. */
module FileType {
  import opened Text
  import opened Records

  /** `validExtensionFile`: the extensions a directory may hold. */
  const ValidExtensionFile: seq<string> := [".json", ".csv"]

  /** `isJSONFile`: the lower-cased extension of `filename` is ".json". */
  predicate IsJsonFile(filename: string): (b: bool)
    ensures b <==> exists e :: IsExtension(e, filename) && ToLower(e) == ".json"
  {
    assert forall e :: IsExtension(e, filename) ==> e == Ext(filename) by {
      forall e | IsExtension(e, filename) {
        ExtensionUnique(e, Ext(filename), filename);
      }
    }
    ToLower(Ext(filename)) == ".json"
  }

  /** `isCSVFile`: the lower-cased extension of `filename` is ".csv". */
  predicate IsCsvFile(filename: string): (b: bool)
    ensures b <==> exists e :: IsExtension(e, filename) && ToLower(e) == ".csv"
  {
    assert forall e :: IsExtension(e, filename) ==> e == Ext(filename) by {
      forall e | IsExtension(e, filename) {
        ExtensionUnique(e, Ext(filename), filename);
      }
    }
    ToLower(Ext(filename)) == ".csv"
  }

  /** The extension of `name`, lower-cased, equals one of `validExtensions`, lower-cased. */
  predicate ExtensionAllowed(name: string, validExtensions: seq<string>)
  {
    exists k :: 0 <= k < |validExtensions| && ToLower(Ext(name)) == ToLower(validExtensions[k])
  }

  /** Every entry that is not a directory has an allowed extension. */
  predicate AllFilesAllowed(entries: seq<DirEntry>, validExtensions: seq<string>)
  {
    forall i :: 0 <= i < |entries| && !entries[i].isDir ==>
      ExtensionAllowed(entries[i].name, validExtensions)
  }

  /** `validateFileTypeFromFile`: directories are skipped; the first regular entry whose
      lower-cased extension matches none of the valid ones makes the answer false. */
  method ValidateFileTypeFromFile(entries: seq<DirEntry>, validExtensions: seq<string>)
    returns (valid: bool)
    ensures valid <==> AllFilesAllowed(entries, validExtensions)
  {
    for n := 0 to |entries|
      invariant forall i :: 0 <= i < n && !entries[i].isDir ==>
        ExtensionAllowed(entries[i].name, validExtensions)
    {
      var entry := entries[n];
      if entry.isDir {
        continue;
      }
      var ext := ToLower(Ext(entry.name));
      var found := false;
      for k := 0 to |validExtensions|
        invariant found <==> exists j :: 0 <= j < k && ext == ToLower(validExtensions[j])
      {
        if ext == ToLower(validExtensions[k]) {
          found := true;
          break;
        }
      }
      if !found {
        return false;
      }
    }
    return true;
  }

  /** With the built-in list, a regular entry passes exactly when it is a JSON file or a
      CSV file by `isJSONFile` / `isCSVFile`. */
  lemma AllowedIsJsonOrCsv(name: string)
    ensures ExtensionAllowed(name, ValidExtensionFile) <==> IsJsonFile(name) || IsCsvFile(name)
  {
    LowerOfLowerCase(".json");
    LowerOfLowerCase(".csv");
    if IsJsonFile(name) {
      assert ToLower(Ext(name)) == ToLower(ValidExtensionFile[0]);
    } else if IsCsvFile(name) {
      assert ToLower(Ext(name)) == ToLower(ValidExtensionFile[1]);
    }
  }

  /** The validator's verdict on the built-in list, stated with `isJSONFile` / `isCSVFile`. */
  lemma ValidationMeansJsonOrCsv(entries: seq<DirEntry>)
    ensures AllFilesAllowed(entries, ValidExtensionFile) <==>
      forall i :: 0 <= i < |entries| && !entries[i].isDir ==>
        IsJsonFile(entries[i].name) || IsCsvFile(entries[i].name)
  {
    forall i | 0 <= i < |entries| {
      AllowedIsJsonOrCsv(entries[i].name);
    }
  }

  /** Directory entries never make validation fail, whatever their names. */
  lemma DirectoriesIgnored(entries: seq<DirEntry>, dirs: seq<DirEntry>, validExtensions: seq<string>)
    requires forall i :: 0 <= i < |dirs| ==> dirs[i].isDir
    ensures AllFilesAllowed(entries + dirs, validExtensions) == AllFilesAllowed(entries, validExtensions)
    ensures AllFilesAllowed(dirs + entries, validExtensions) == AllFilesAllowed(entries, validExtensions)
  {
    var a := entries + dirs;
    var b := dirs + entries;
    assert forall i :: 0 <= i < |entries| ==> a[i] == entries[i] && b[|dirs| + i] == entries[i];
  }

  /** The comparison is case-insensitive: upper-casing every name keeps the verdict. */
  lemma ValidationIgnoresCase(entries: seq<DirEntry>, validExtensions: seq<string>)
    ensures AllFilesAllowed(UpperNames(entries), validExtensions) == AllFilesAllowed(entries, validExtensions)
  {
    forall i | 0 <= i < |entries|
      ensures ToLower(Ext(ToUpper(entries[i].name))) == ToLower(Ext(entries[i].name))
    {
      ExtOfUpper(entries[i].name);
      LowerAfterUpper(Ext(entries[i].name));
    }
  }

  function UpperNames(entries: seq<DirEntry>): (r: seq<DirEntry>)
    ensures |r| == |entries|
    ensures forall i :: 0 <= i < |r| ==> r[i] == DirEntry(ToUpper(entries[i].name), entries[i].isDir)
  {
    seq(|entries|, i requires 0 <= i < |entries| => DirEntry(ToUpper(entries[i].name), entries[i].isDir))
  }
}
