// UMounteaAdvancedInventoryItemTemplateEditorStatics: exporting item
// templates as JSON text and looking a template up by its guid.
module EditorStatics {
  import opened Common

  /** A template as the export sees it: `json` is what GetJson returns. */
  datatype ExportTemplate = ExportTemplate(guid: Guid, displayName: string, json: string)

  /** The JSON texts of the valid templates that have one, in list order. */
  function ValidJson(templates: seq<Option<ExportTemplate>>): (r: seq<string>)
    ensures |r| <= |templates|
    ensures forall j :: j in r ==> j != "" && exists k :: 0 <= k < |templates| && templates[k].Some? && templates[k].value.json == j
    ensures forall k :: 0 <= k < |templates| && templates[k].Some? && templates[k].value.json != "" ==> templates[k].value.json in r
  {
    if templates == [] then []
    else
      var init := templates[..|templates| - 1];
      var last := templates[|templates| - 1];
      var rest := ValidJson(init);
      assert forall k :: 0 <= k < |init| ==> init[k] == templates[k];
      rest + (if last.Some? && last.value.json != "" then [last.value.json] else [])
  }

  const MultiExtension: string := ".mnteaitems"
  const SingleExtension: string := ".mnteaitem"
  const JsonHeader: string := "{\n\t\"items\": [\n"
  const JsonFooter: string := "\t]\n}"

  /** One entry of the wrapped list: indented, a comma after every entry but the last. */
  function Entry(json: string, isLast: bool): string
  {
    "\t\t" + json + (if isLast then "" else ",") + "\n"
  }

  /** The entries written for the first i texts. */
  function EntriesUpTo(jsons: seq<string>, i: nat): string
    requires i <= |jsons|
  {
    if i == 0 then "" else EntriesUpTo(jsons, i - 1) + Entry(jsons[i - 1], i - 1 == |jsons| - 1)
  }

  /** The texts joined with a separator between neighbours. */
  function JoinWith(xs: seq<string>, sep: string): string
  {
    if |xs| == 0 then "" else if |xs| == 1 then xs[0] else JoinWith(xs[..|xs| - 1], sep) + sep + xs[|xs| - 1]
  }

  const EntrySeparator: string := ",\n\t\t"

  lemma EntryForms(json: string)
    ensures Entry(json, false) == "\t\t" + json + ",\n"
    ensures Entry(json, true) == "\t\t" + json + "\n"
    ensures ",\n" + "\t\t" == EntrySeparator
  {
    assert "\t\t" + json + "" == "\t\t" + json;
  }

  lemma {:induction false} EntriesBeforeLast(jsons: seq<string>, i: nat)
    requires 1 <= i < |jsons|
    ensures EntriesUpTo(jsons, i) == "\t\t" + JoinWith(jsons[..i], EntrySeparator) + ",\n"
  {
    EntryForms(jsons[i - 1]);
    var x := jsons[i - 1];
    if i == 1 {
      assert EntriesUpTo(jsons, 0) == "";
      assert jsons[..1] == [x];
    } else {
      EntriesBeforeLast(jsons, i - 1);
      var front := JoinWith(jsons[..i - 1], EntrySeparator);
      assert jsons[..i][..i - 1] == jsons[..i - 1];
      assert JoinWith(jsons[..i], EntrySeparator) == front + EntrySeparator + x;
      assert EntriesUpTo(jsons, i) == ("\t\t" + front + ",\n") + ("\t\t" + x + ",\n");
      Regroup("\t\t", front, ",\n", x, ",\n");
    }
  }

  lemma Regroup(t: string, front: string, c: string, x: string, nl: string)
    ensures t + (front + (c + t) + x) + nl == (t + front + c) + (t + x + nl)
  {
  }

  /** The wrapped list: the texts, each indented, separated by a comma and a line break, then a final line break. */
  lemma EntriesAreJoined(jsons: seq<string>)
    requires |jsons| >= 1
    ensures EntriesUpTo(jsons, |jsons|) == "\t\t" + JoinWith(jsons, EntrySeparator) + "\n"
  {
    var n := |jsons|;
    var x := jsons[n - 1];
    EntryForms(x);
    if n > 1 {
      EntriesBeforeLast(jsons, n - 1);
      var front := JoinWith(jsons[..n - 1], EntrySeparator);
      assert JoinWith(jsons, EntrySeparator) == front + EntrySeparator + x;
      assert EntriesUpTo(jsons, n) == ("\t\t" + front + ",\n") + ("\t\t" + x + "\n");
      Regroup("\t\t", front, ",\n", x, "\n");
    } else {
      assert EntriesUpTo(jsons, 0) == "";
    }
  }

  /** FString::Replace(" ", "_") on the display name. */
  function Underscored(name: string): string
  {
    ReplaceChar(name, ' ', '_')
  }

  /**
   * The default file name offered for a single export: the name of the
   * template whose JSON is exported, the first valid one with JSON.
   */
  function SingleDefaultName(templates: seq<Option<ExportTemplate>>): (r: string)
    requires |ValidJson(templates)| >= 1
    ensures exists k :: 0 <= k < |templates| && templates[k].Some? && templates[k].value.json == ValidJson(templates)[0]
              && r == Underscored(templates[k].value.displayName)
  {
    var k := FirstWithJson(templates);
    Underscored(templates[k].value.displayName)
  }

  /** The index of the first valid template with JSON; its JSON is the first exported. */
  function FirstWithJson(templates: seq<Option<ExportTemplate>>): (k: nat)
    requires |ValidJson(templates)| >= 1
    ensures k < |templates| && templates[k].Some? && templates[k].value.json == ValidJson(templates)[0]
  {
    if templates[0].Some? && templates[0].value.json != "" then
      FirstWithJsonHead(templates);
      0
    else
      FirstWithJsonTail(templates);
      1 + FirstWithJson(templates[1..])
  }

  lemma {:induction false} ValidJsonCons(templates: seq<Option<ExportTemplate>>)
    requires |templates| >= 1
    ensures ValidJson(templates) == (if templates[0].Some? && templates[0].value.json != "" then [templates[0].value.json] else []) + ValidJson(templates[1..])
  {
    if |templates| > 1 {
      var init := templates[..|templates| - 1];
      ValidJsonCons(init);
      assert init[1..] == templates[1..][..|templates| - 2];
    } else {
      assert templates[1..] == [];
      assert templates[..0] == [];
    }
  }

  lemma FirstWithJsonHead(templates: seq<Option<ExportTemplate>>)
    requires |templates| >= 1 && templates[0].Some? && templates[0].value.json != ""
    ensures ValidJson(templates)[0] == templates[0].value.json
  {
    ValidJsonCons(templates);
  }

  lemma FirstWithJsonTail(templates: seq<Option<ExportTemplate>>)
    requires |ValidJson(templates)| >= 1 && !(templates[0].Some? && templates[0].value.json != "")
    ensures |ValidJson(templates[1..])| >= 1 && ValidJson(templates[1..])[0] == ValidJson(templates)[0]
  {
    ValidJsonCons(templates);
  }

  /**
   * The default file name as the source computes it: for a single export
   * the name of Templates[0], whichever template the JSON came from; None
   * stands for dereferencing a null Templates[0].
   */
  function DefaultFileNameAsWritten(templates: seq<Option<ExportTemplate>>, multiple: bool): Option<string>
    requires |templates| >= 1
  {
    if multiple then Some("ExportedTemplates")
    else if templates[0].None? then None
    else Some(Underscored(templates[0].value.displayName))
  }

  /** A null first entry followed by one template with JSON: the export goes ahead and reads the null entry's name. */
  lemma DefaultNameAsWrittenReadsNull(t: ExportTemplate)
    requires t.json != ""
    ensures |ValidJson([None, Some(t)])| == 1
    ensures DefaultFileNameAsWritten([None, Some(t)], false).None?
  {
    assert [None, Some(t)][..1] == [None];
    var one: seq<Option<ExportTemplate>> := [None];
    assert one[..0] == [];
  }

  /** The result of an export. */
  datatype ExportResult =
    | Failed(message: string)
    | Written(defaultName: string, path: string, json: string)

  /** ExportTemplatesToFile's first loop: the non-empty JSON of every valid template. */
  method CollectValidJson(templates: seq<Option<ExportTemplate>>) returns (validJsonData: seq<string>)
    ensures validJsonData == ValidJson(templates)
  {
    validJsonData := [];
    var i := 0;
    while i < |templates|
      invariant 0 <= i <= |templates|
      invariant validJsonData == ValidJson(templates[..i])
    {
      assert templates[..i + 1][..i] == templates[..i];
      var t := templates[i];
      if t.Some? && t.value.json != "" {
        validJsonData := validJsonData + [t.value.json];
      }
      i := i + 1;
    }
    assert templates[..|templates|] == templates;
  }

  /** ExportTemplatesToFile's second loop: the texts wrapped as the "items" list of one JSON object. */
  method WrapJson(validJsonData: seq<string>) returns (finalJson: string)
    requires |validJsonData| >= 1
    ensures finalJson == JsonHeader + "\t\t" + JoinWith(validJsonData, EntrySeparator) + "\n" + JsonFooter
  {
    finalJson := JsonHeader;
    var j := 0;
    while j < |validJsonData|
      invariant 0 <= j <= |validJsonData|
      invariant finalJson == JsonHeader + EntriesUpTo(validJsonData, j)
    {
      finalJson := finalJson + "\t\t" + validJsonData[j];
      if j < |validJsonData| - 1 {
        finalJson := finalJson + ",";
      }
      finalJson := finalJson + "\n";
      j := j + 1;
    }
    EntriesAreJoined(validJsonData);
    finalJson := finalJson + JsonFooter;
  }

  /**
   * ExportTemplatesToFile. `chosenPath` is what the save dialog returns
   * (empty when cancelled) and `saved` whether writing the file succeeds.
   */
  method ExportTemplatesToFile(templates: seq<Option<ExportTemplate>>, chosenPath: string, saved: bool) returns (r: ExportResult)
    ensures templates == [] ==> r == Failed("No templates to export")
    ensures templates != [] && ValidJson(templates) == [] ==> r == Failed("Selected templates have no JSON data to export")
    ensures templates != [] && ValidJson(templates) != [] && chosenPath == "" ==> r == Failed("No file selected")
    ensures templates != [] && ValidJson(templates) != [] && chosenPath != "" && !saved ==> r == Failed("Failed to write export file")
    ensures r.Written? <==> templates != [] && ValidJson(templates) != [] && chosenPath != "" && saved
    ensures r.Written? ==>
      var valid := ValidJson(templates);
      var ext := if |valid| > 1 then MultiExtension else SingleExtension;
      r.path == (if EndsWithCI(chosenPath, ext) then chosenPath else chosenPath + ext)
      && (|valid| > 1 ==> r.defaultName == "ExportedTemplates" && r.json == JsonHeader + "\t\t" + JoinWith(valid, EntrySeparator) + "\n" + JsonFooter)
      && (|valid| == 1 ==> r.defaultName == SingleDefaultName(templates) && r.json == valid[0])
  {
    if |templates| == 0 {
      return Failed("No templates to export");
    }
    var validJsonData := CollectValidJson(templates);
    if |validJsonData| == 0 {
      return Failed("Selected templates have no JSON data to export");
    }
    var multiple := |validJsonData| > 1;
    var fileExtension := if multiple then MultiExtension else SingleExtension;
    var defaultFileName := if multiple then "ExportedTemplates" else SingleDefaultName(templates);
    if chosenPath == "" {
      return Failed("No file selected");
    }
    var finalPath := chosenPath;
    if !EndsWithCI(finalPath, fileExtension) {
      finalPath := finalPath + fileExtension;
    }
    var finalJson: string;
    if multiple {
      finalJson := WrapJson(validJsonData);
    } else {
      finalJson := validJsonData[0];
    }
    if !saved {
      return Failed("Failed to write export file");
    }
    return Written(defaultFileName, finalPath, finalJson);
  }

  /** The written file's name always carries the extension, ignoring case. */
  lemma ExportPathHasExtension(path: string, ext: string)
    ensures EndsWithCI(if EndsWithCI(path, ext) then path else path + ext, ext)
  {
    var p := path + ext;
    assert p[|p| - |ext|..] == ext;
  }

  /**
   * FindTemplateByGuid: null for an invalid guid; otherwise the first valid
   * template with that guid, or null when there is none.
   */
  function FindTemplateByGuid(templates: seq<Option<ExportTemplate>>, guid: Guid): (r: Option<ExportTemplate>)
    ensures !GuidValid(guid) ==> r.None?
    ensures r.Some? ==> (r.value.guid == guid &&
      exists k :: 0 <= k < |templates| && templates[k] == r &&
        forall j :: 0 <= j < k ==> !(templates[j].Some? && templates[j].value.guid == guid))
    ensures GuidValid(guid) && r.None? ==> forall k :: 0 <= k < |templates| ==> !(templates[k].Some? && templates[k].value.guid == guid)
  {
    if !GuidValid(guid) || templates == [] then None
    else if templates[0].Some? && templates[0].value.guid == guid then templates[0]
    else
      var r := FindTemplateByGuid(templates[1..], guid);
      assert forall k :: 1 <= k < |templates| ==> templates[k] == templates[1..][k - 1];
      r
  }
}
