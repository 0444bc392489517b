/** The naming and format choices of `summaryMetrics` and `getOutputFileName`.
    Serialising, printing and writing the file are left to the libraries. */
module Output {
  import opened Text
  import opened Records

  const DefaultOutputFolderName := "summary"
  const DefaultOutputJson := "out.json"
  const DefaultOutputYaml := "out.yaml"

  datatype Format = Json | Yaml

  /** The extension a file in this format conventionally carries. */
  function FormatExtension(f: Format): string
  {
    match f
    case Json => ".json"
    case Yaml => ".yaml"
  }

  /** The serializer `summaryMetrics` uses: YAML for "yaml", JSON for anything else. */
  function OutputFormat(outputFileType: string): (f: Format)
    ensures f == Yaml <==> outputFileType == YamlType
  {
    if outputFileType == YamlType then Yaml else Json
  }

  /** `getOutputFileName`: a non-empty override wins; otherwise a default whose extension
      agrees with the format the summary is serialised in. */
  function GetOutputFileName(outputFileName: string, outputFileType: string): (r: string)
    ensures r != ""
    ensures outputFileName != "" ==> r == outputFileName
    ensures outputFileName == "" ==> r == DefaultOutputJson || r == DefaultOutputYaml
    ensures outputFileName == "" ==> Ext(r) == FormatExtension(OutputFormat(outputFileType))
  {
    if outputFileName != "" then outputFileName
    else if outputFileType == YamlType then
      assert IsExtension(".yaml", DefaultOutputYaml);
      ExtensionUnique(Ext(DefaultOutputYaml), ".yaml", DefaultOutputYaml);
      DefaultOutputYaml
    else
      assert IsExtension(".json", DefaultOutputJson);
      ExtensionUnique(Ext(DefaultOutputJson), ".json", DefaultOutputJson);
      DefaultOutputJson
  }

  /** Where the summary is written: `summary/<name>`. */
  function OutputPath(outputFileName: string, outputFileType: string): (r: string)
    ensures |r| > 8 && r[..8] == "summary/"
    ensures outputFileName != "" ==> r[8..] == outputFileName
  {
    JoinPath(DefaultOutputFolderName, GetOutputFileName(outputFileName, outputFileType))
  }

  /** The written file keeps the extension of a plain override name, and without one
      carries the extension of the format the summary is serialised in. */
  lemma OutputPathExtension(outputFileName: string, outputFileType: string)
    ensures outputFileName != "" && '/' !in outputFileName ==>
      Ext(OutputPath(outputFileName, outputFileType)) == Ext(outputFileName)
    ensures outputFileName == "" ==>
      Ext(OutputPath(outputFileName, outputFileType)) == FormatExtension(OutputFormat(outputFileType))
  {
    var name := GetOutputFileName(outputFileName, outputFileType);
    assert '/' !in DefaultOutputJson && '/' !in DefaultOutputYaml;
    if outputFileName == "" || '/' !in outputFileName {
      ExtOfJoin(DefaultOutputFolderName, name);
    }
  }

  /** Without an override the file is summary/out.yaml for "yaml" and summary/out.json for
      every other output type, unrecognised ones included. */
  lemma DefaultOutputPaths(outputFileType: string)
    ensures outputFileType == YamlType ==> OutputPath("", outputFileType) == "summary/out.yaml"
    ensures outputFileType != YamlType ==> OutputPath("", outputFileType) == "summary/out.json"
  {
    var name := GetOutputFileName("", outputFileType);
    assert OutputPath("", outputFileType) == JoinPath(DefaultOutputFolderName, name);
    if outputFileType == YamlType {
      assert name == DefaultOutputYaml;
      DefaultFolderJoin(DefaultOutputYaml);
    } else {
      assert name == DefaultOutputJson;
      DefaultFolderJoin(DefaultOutputJson);
    }
  }

  lemma DefaultFolderJoin(name: string)
    requires name != ""
    ensures JoinPath(DefaultOutputFolderName, name) == "summary/" + name
  {
  }
}
