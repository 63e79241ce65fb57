/** The naming logic of the model-generator command (model-generator.js): which
    preset applies, how configuration values fall back to defaults, and the
    directory, extension and file names of the generated files. */
module ModelGenerator {
  import opened JsValues

  /** A preset: the JSON object of one entry in the presets file, restricted to
      string values. */
  type Preset = map<string, string>

  const DefaultAction := "eloquent-model"
  const DefaultTemplatePath := "./templates/php.eloquent.model.php.hbs"
  const DefaultCommand := "models"
  const DocFileName := "api-doc"

  /** The action the run uses, or None when the command returns at once
      (no action and neither flag). The `eloquent-model` flag wins over the
      `api-doc` flag, and either flag wins over the action option. */
  function ResolveAction(action: string, eloquentModel: bool, apiDoc: bool): (r: Option<string>)
    ensures r.None? <==> action == "" && !eloquentModel && !apiDoc
    ensures eloquentModel ==> r == Some(DefaultAction)
    ensures !eloquentModel && apiDoc ==> r == Some("api-doc")
    ensures !eloquentModel && !apiDoc && action != "" ==> r == Some(action)
  {
    if action == "" && !eloquentModel && !apiDoc then None
    else if eloquentModel then Some(DefaultAction)
    else if apiDoc then Some("api-doc")
    else Some(action)
  }

  /** `presets[currentPresetName]` when a preset name is set, else null. */
  function CurrentPreset(presets: map<string, Preset>, presetName: Option<string>): (r: Option<Preset>)
    ensures r.Some? ==> presetName.Some? && presetName.value in presets && r.value == presets[presetName.value]
    ensures presetName.Some? && presetName.value != "" && presetName.value in presets ==> r.Some?
  {
    match presetName
    case Some(name) => if name != "" && name in presets then Some(presets[name]) else None
    case None => None
  }

  /** `getConfig`: the preset's value for `name` when there is a preset and
      the value is truthy, else the default (None stands for `null`). */
  function GetConfig(preset: Option<Preset>, name: string, defaultValue: Option<string>): (r: Option<string>)
    ensures r != defaultValue ==> preset.Some? && name in preset.value && r == Some(preset.value[name]) && r.value != ""
    ensures preset.Some? && name in preset.value && preset.value[name] != "" ==> r == Some(preset.value[name])
    ensures preset.None? || name !in preset.value || preset.value[name] == "" ==> r == defaultValue
  {
    if preset.Some? && name in preset.value && preset.value[name] != "" then Some(preset.value[name])
    else defaultValue
  }

  /** A line terminator, which `.` in a JavaScript regular expression does not
      match. */
  predicate IsLineTerminator(c: char)
  {
    c == '\n' || c == '\r' || c == '\U{2028}' || c == '\U{2029}'
  }

  /** Whether `s` ends in a match of `/.hbs$/i`: any character except a line
      terminator, then `hbs` in any letter case. */
  predicate EndsWithAnyHbs(s: string)
  {
    |s| >= 4 && !IsLineTerminator(s[|s| - 4]) && EqualIgnoringCase(s[|s| - 3..], "hbs")
  }

  /** `templateFile.replace(/.hbs$/gi, "")`: the anchored pattern matches at
      most once, at the very end. */
  function StripHbs(s: string): (r: string)
    ensures EndsWithAnyHbs(s) ==> s == r + s[|s| - 4..]
    ensures !EndsWithAnyHbs(s) ==> r == s
  {
    if EndsWithAnyHbs(s) then s[..|s| - 4] else s
  }

  /** The last `.`-separated piece of `s`. */
  function LastPiece(s: string): string
  {
    var pieces := Split(s, '.');
    pieces[|pieces| - 1]
  }

  /** `parseOutputFileExtension`: the configured extension when it is
      truthy, else `.` and the last dotted piece of the template path without
      its `hbs` ending, else `.txt`. */
  function ParseOutputFileExtension(outputExt: Option<string>, templateFile: Option<string>): (r: string)
    ensures outputExt.Some? && outputExt.value != "" ==> r == outputExt.value
    ensures (outputExt.None? || outputExt.value == "") && (templateFile.None? || templateFile.value == "") ==> r == ".txt"
  {
    if outputExt.Some? && outputExt.value != "" then outputExt.value
    else if templateFile.Some? && templateFile.value != "" then "." + LastPiece(StripHbs(templateFile.value))
    else ".txt"
  }

  /** A template extension derived from the path is a dot and then a piece
      with no dot in it. */
  lemma TemplateExtensionShape(templateFile: string)
    requires templateFile != ""
    ensures var r := ParseOutputFileExtension(None, Some(templateFile));
      |r| >= 1 && r[0] == '.' && '.' !in r[1..]
  {
    var stripped := StripHbs(templateFile);
    SplitJoin(stripped, '.');
    var r := ParseOutputFileExtension(None, Some(templateFile));
    assert r[1..] == LastPiece(stripped);
  }

  /** A template path ending in `.hbs` yields the text between the last dot
      before that ending and the ending. */
  lemma TemplateExtensionAt(path: string, k: nat)
    requires |path| >= 4 && path[|path| - 4..] == ".hbs"
    requires k < |path| - 4 && path[k] == '.'
    requires forall x :: k < x < |path| - 4 ==> path[x] != '.'
    ensures ParseOutputFileExtension(None, Some(path)) == "." + path[k + 1..|path| - 4]
  {
    assert path[|path| - 3..] == "hbs";
    var stripped := path[..|path| - 4];
    assert StripHbs(path) == stripped;
    var ext := path[k + 1..|path| - 4];
    assert stripped == path[..k] + "." + ext;
    SplitLastPiece(path[..k], '.', ext);
  }

  /** A template named `<base>.<ext>.hbs` yields `.<ext>`. */
  lemma TemplateExtension(base: string, ext: string)
    requires '.' !in ext
    ensures ParseOutputFileExtension(None, Some(base + "." + ext + ".hbs")) == "." + ext
  {
    var path := base + "." + ext + ".hbs";
    TemplateExtensionAt(path, |base|);
    assert path[|base| + 1..|path| - 4] == ext;
  }

  /** Without configuration the default template yields `.php`. */
  lemma DefaultTemplateExtension()
    ensures ParseOutputFileExtension(None, Some(DefaultTemplatePath)) == ".php"
  {
    var path := DefaultTemplatePath;
    assert path[30] == '.' && path[31] == 'p' && path[32] == 'h' && path[33] == 'p';
    assert path[34] == '.' && path[35] == 'h' && path[36] == 'b' && path[37] == 's';
    assert path[34..] == ".hbs";
    assert path[31..34] == "php";
    TemplateExtensionAt(path, 30);
  }

  /** The dot of the pattern is not escaped: any character before `hbs` is
      removed with it. */
  lemma UnescapedDotInHbsPattern(base: string, c: char)
    requires !IsLineTerminator(c)
    ensures ParseOutputFileExtension(None, Some(base + [c] + "hbs")) == "." + LastPiece(base)
  {
    var path := base + [c] + "hbs";
    assert path[|path| - 4] == c && path[|path| - 3..] == "hbs";
    assert StripHbs(path) == base;
  }

  /** So `page.xhbs` yields `.` rather than `.xhbs`. */
  lemma UnescapedDotExample()
    ensures ParseOutputFileExtension(None, Some("page.xhbs")) == "."
  {
    assert "page.xhbs" == "page." + ['x'] + "hbs";
    UnescapedDotInHbsPattern("page.", 'x');
    assert "page." == "page" + ['.'] + "";
    SplitConcat("page", '.', "");
  }

  /** The output directory with exactly one `/` ensured at its end. */
  function OutputDir(outDir: string): (r: string)
    ensures EndsWith(r, "/")
    ensures r == outDir || r == outDir + "/"
    ensures EndsWith(outDir, "/") ==> r == outDir
  {
    outDir + (if EndsWith(outDir, "/") then "" else "/")
  }

  /** The file written for one model class. */
  function ModelFilePath(outputDir: string, className: string, extension: string): (r: string)
    ensures |r| == |outputDir| + |className| + |extension|
    ensures r[..|outputDir|] == outputDir && r[|r| - |extension|..] == extension
    ensures r[|outputDir|..|r| - |extension|] == className
  {
    outputDir + className + extension
  }

  /** The single file written by the documentation command. */
  function DocFilePath(outputDir: string, extension: string): (r: string)
    ensures r == ModelFilePath(outputDir, DocFileName, extension)
  {
    outputDir + DocFileName + extension
  }

  /** In one directory with one extension, distinct class names give
      distinct files. */
  lemma ModelFilePathInjective(outputDir: string, a: string, b: string, extension: string)
    requires ModelFilePath(outputDir, a, extension) == ModelFilePath(outputDir, b, extension)
    ensures a == b
  {
    var p := ModelFilePath(outputDir, a, extension);
    assert a == p[|outputDir|..|p| - |extension|];
    assert b == p[|outputDir|..|p| - |extension|];
  }

  /** What the `command` setting runs. */
  datatype Command = GenerateModels | GenerateDoc | NoCommand

  function ChooseCommand(command: string): (r: Command)
    ensures r == GenerateModels <==> command == "models"
    ensures r == GenerateDoc <==> command == "doc" || command == "documentation"
  {
    if command == "models" then GenerateModels
    else if command == "doc" || command == "documentation" then GenerateDoc
    else NoCommand
  }

  /** The file names `generateModels` writes, one per class in data order. */
  method PlanModelFiles(outputDir: string, classNames: seq<string>, extension: string) returns (paths: seq<string>)
    ensures |paths| == |classNames|
    ensures forall i :: 0 <= i < |classNames| ==> paths[i] == ModelFilePath(outputDir, classNames[i], extension)
  {
    paths := [];
    for i := 0 to |classNames|
      invariant |paths| == i
      invariant forall x :: 0 <= x < i ==> paths[x] == ModelFilePath(outputDir, classNames[x], extension)
    {
      paths := paths + [outputDir + classNames[i] + extension];
    }
  }

  /** Distinct class names are written to distinct files. */
  lemma PlannedFilesDistinct(outputDir: string, classNames: seq<string>, extension: string, i: nat, j: nat)
    requires i < |classNames| && j < |classNames| && classNames[i] != classNames[j]
    ensures ModelFilePath(outputDir, classNames[i], extension) != ModelFilePath(outputDir, classNames[j], extension)
  {
    if ModelFilePath(outputDir, classNames[i], extension) == ModelFilePath(outputDir, classNames[j], extension) {
      ModelFilePathInjective(outputDir, classNames[i], classNames[j], extension);
    }
  }
}
