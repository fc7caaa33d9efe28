/**
 * File discovery and output naming (`src/utils.py`): `get_file_paths`,
 * `generate_output_filename` and `is_valid_image`. The file system enters as
 * oracles: what kind of thing a path names, what `glob.glob` returns for a
 * pattern, and whether a file exists and how large it is.
 */
module Utils {
  import opened Wrappers
  import opened Text
  import opened Paths

  /** The filter `get_file_paths` uses when the caller gives none. */
  const DefaultExtensions: seq<string> := [".jpg", ".jpeg", ".png", ".webp"]

  /** The extensions `is_valid_image` accepts. */
  const ValidExtensions: seq<string> := [".jpg", ".jpeg", ".png", ".webp", ".bmp", ".tiff"]

  /**
   * The list comprehension that normalises the filter. Its two branches are
   * the same expression: an extension without its leading dot is lower-cased
   * and kept without a dot.
   */
  function NormalizeExtensions(exts: seq<string>): seq<string>
  {
    seq(|exts|, i requires 0 <= i < |exts| =>
      if !StartsWith(exts[i], ".") then Lower(exts[i]) else Lower(exts[i]))
  }

  /** Every normalised extension is the lower-case form of the one given, in the same place, and normalising twice changes nothing more. */
  lemma NormalizeExtensionsLowers(exts: seq<string>)
    ensures |NormalizeExtensions(exts)| == |exts|
    ensures forall i :: 0 <= i < |exts| ==> NormalizeExtensions(exts)[i] == Lower(exts[i])
    ensures forall i :: 0 <= i < |exts| ==> NoUpper(NormalizeExtensions(exts)[i])
    ensures forall i :: 0 <= i < |exts| ==> StartsWith(NormalizeExtensions(exts)[i], ".") == StartsWith(exts[i], ".")
    ensures NormalizeExtensions(NormalizeExtensions(exts)) == NormalizeExtensions(exts)
  {
    forall i | 0 <= i < |exts| ensures NoUpper(Lower(exts[i])) && Lower(Lower(exts[i])) == Lower(exts[i]) {
      LowerNormalises(exts[i]);
    }
    forall i | 0 <= i < |exts| ensures StartsWith(Lower(exts[i]), ".") == StartsWith(exts[i], ".") {
      if |exts[i]| > 0 {
        assert Lower(exts[i])[..1] == [LowerChar(exts[i][0])];
        assert exts[i][..1] == [exts[i][0]];
      }
    }
  }

  /** What `os.path.isfile` / `os.path.isdir` report for the input path, in the order the code asks. */
  datatype PathKind = RegularFile | Directory | Neither

  /** `extensions or default` after normalisation. */
  function FilterList(extensions: Option<seq<string>>): seq<string>
  {
    NormalizeExtensions(if extensions.None? then DefaultExtensions else extensions.value)
  }

  /** The file branch: an empty filter admits every file. */
  predicate FileAdmitted(path: string, exts: seq<string>)
  {
    exts == [] || Lower(Ext(path)) in exts
  }

  /** `os.path.join(input_path, f"*{ext}")` */
  function GlobPattern(dir: string, ext: string): string
  {
    Join(dir, "*" + ext)
  }

  /** What the directory loop has collected after the given extensions, in loop order. */
  function Gathered(dir: string, exts: seq<string>, glob: string -> seq<string>): seq<string>
  {
    if exts == [] then []
    else Gathered(dir, exts[..|exts| - 1], glob) + glob(GlobPattern(dir, exts[|exts| - 1]))
  }

  /** The value `get_file_paths` returns. */
  function FilePaths(inputPath: string, extensions: Option<seq<string>>, kind: PathKind,
                     glob: string -> seq<string>): seq<string>
  {
    var exts := FilterList(extensions);
    match kind
    case RegularFile => if FileAdmitted(inputPath, exts) then [inputPath] else []
    case Directory => SortStrings(Gathered(inputPath, exts, glob))
    case Neither => []
  }

  /**
   * `get_file_paths(input_path, extensions)`: a file is kept when its
   * lower-cased extension is in the filter or the filter is empty; a
   * directory yields every glob match of every extension, sorted; anything
   * else yields nothing.
   */
  method GetFilePaths(inputPath: string, extensions: Option<seq<string>>, kind: PathKind,
                      glob: string -> seq<string>) returns (paths: seq<string>)
    ensures paths == FilePaths(inputPath, extensions, kind, glob)
    ensures kind == RegularFile ==>
      (paths == [inputPath] <==> FileAdmitted(inputPath, FilterList(extensions))) &&
      (paths == [] <==> !FileAdmitted(inputPath, FilterList(extensions)))
    ensures kind == Directory ==>
      Sorted(paths) && multiset(paths) == multiset(Gathered(inputPath, FilterList(extensions), glob))
    ensures kind == Neither ==> paths == []
  {
    var exts := if extensions.None? then DefaultExtensions else extensions.value;
    exts := NormalizeExtensions(exts);
    if kind == RegularFile {
      var ext := Lower(Ext(inputPath));
      if exts == [] || ext in exts {
        return [inputPath];
      }
      return [];
    }
    if kind == Directory {
      var filePaths := [];
      var i := 0;
      while i < |exts|
        invariant 0 <= i <= |exts|
        invariant filePaths == Gathered(inputPath, exts[..i], glob)
      {
        var pattern := GlobPattern(inputPath, exts[i]);
        filePaths := filePaths + glob(pattern);
        assert exts[..i + 1][..i] == exts[..i];
        i := i + 1;
      }
      assert exts[..|exts|] == exts;
      return SortStrings(filePaths);
    }
    return [];
  }

  /** With the default filter, a file is kept exactly when its extension, lower-cased, is one of the four image extensions. */
  lemma DefaultFilter(path: string)
    ensures FilterList(None) == DefaultExtensions
    ensures FileAdmitted(path, FilterList(None)) <==> Lower(Ext(path)) in DefaultExtensions
  {
    NormalizeExtensionsLowers(DefaultExtensions);
    assert NormalizeExtensions(DefaultExtensions) == DefaultExtensions by {
      forall i | 0 <= i < |DefaultExtensions|
        ensures NormalizeExtensions(DefaultExtensions)[i] == DefaultExtensions[i]
      {
        LowerNormalises(DefaultExtensions[i]);
      }
    }
  }

  /** A piece of a parsed `str.format` pattern. */
  datatype Piece = Lit(c: char) | Field(name: string)

  /** The index of the first `c` in `s`, or -1. */
  function Find(s: string, c: char): (k: int)
    ensures -1 <= k < |s|
    ensures k >= 0 ==> s[k] == c
    ensures forall i :: 0 <= i < |s| && (k < 0 || i < k) ==> s[i] != c
  {
    if s == [] then -1
    else if s[0] == c then 0
    else var k := Find(s[1..], c); if k < 0 then -1 else k + 1
  }

  /**
   * Splits a pattern as `str.format` does: `{{` and `}}` stand for single
   * braces, `{name}` is a replacement field, and a lone `}` or an unclosed
   * `{` raises `ValueError` (here: `None`).
   */
  function ParsePattern(p: string): Option<seq<Piece>>
    decreases |p|
  {
    if p == [] then Some([])
    else if p[0] == '{' && |p| >= 2 && p[1] == '{' then Prepend(Lit('{'), ParsePattern(p[2..]))
    else if p[0] == '{' then
      var close := Find(p[1..], '}');
      if close < 0 then None else Prepend(Field(p[1..close + 1]), ParsePattern(p[close + 2..]))
    else if p[0] == '}' && |p| >= 2 && p[1] == '}' then Prepend(Lit('}'), ParsePattern(p[2..]))
    else if p[0] == '}' then None
    else Prepend(Lit(p[0]), ParsePattern(p[1..]))
  }

  function Prepend(x: Piece, rest: Option<seq<Piece>>): Option<seq<Piece>>
  {
    if rest.None? then None else Some([x] + rest.value)
  }

  /** The three keyword arguments `generate_output_filename` passes to `format`. */
  function FieldValue(name: string, input: string, template: string, timestamp: nat): Option<string>
  {
    if name == "input" then Some(input)
    else if name == "template" then Some(template)
    else if name == "timestamp" then Some(Decimal(timestamp))
    else None
  }

  predicate KnownField(name: string) { name == "input" || name == "template" || name == "timestamp" }

  /** Fills the fields in; a field with another name raises `KeyError` or `IndexError` (here: `None`). */
  function Render(pieces: seq<Piece>, input: string, template: string, timestamp: nat): Option<string>
  {
    if pieces == [] then Some("")
    else
      var rest := Render(pieces[1..], input, template, timestamp);
      match pieces[0]
      case Lit(c) => if rest.None? then None else Some([c] + rest.value)
      case Field(name) =>
        var v := FieldValue(name, input, template, timestamp);
        if v.None? || rest.None? then None else Some(v.value + rest.value)
  }

  /** `name_pattern.format(input=…, template=…, timestamp=…)` */
  function FormatPattern(pattern: string, input: string, template: string, timestamp: nat): Option<string>
  {
    var pieces := ParsePattern(pattern);
    if pieces.None? then None else Render(pieces.value, input, template, timestamp)
  }

  /** A pattern that `format` accepts with these three keyword arguments, whatever their values. */
  predicate WellFormedPattern(pattern: string)
  {
    var pieces := ParsePattern(pattern);
    pieces.Some? && forall i :: 0 <= i < |pieces.value| && pieces.value[i].Field? ==> KnownField(pieces.value[i].name)
  }

  lemma {:induction false} RenderSucceeds(pieces: seq<Piece>, input: string, template: string, timestamp: nat)
    ensures Render(pieces, input, template, timestamp).Some? <==>
      forall i :: 0 <= i < |pieces| && pieces[i].Field? ==> KnownField(pieces[i].name)
  {
    if pieces != [] {
      RenderSucceeds(pieces[1..], input, template, timestamp);
      assert forall i :: 1 <= i < |pieces| ==> pieces[i] == pieces[1..][i - 1];
    }
  }

  /** Whether substitution succeeds depends on the pattern alone, never on the file names or the time. */
  lemma FormatSucceedsIffWellFormed(pattern: string, input: string, template: string, timestamp: nat)
    ensures FormatPattern(pattern, input, template, timestamp).Some? <==> WellFormedPattern(pattern)
  {
    if ParsePattern(pattern).Some? {
      RenderSucceeds(ParsePattern(pattern).value, input, template, timestamp);
    }
  }

  const DefaultPattern: string := "{input}_{template}"

  /** The default pattern names the output `<input>_<template>`. */
  lemma DefaultPatternName(input: string, template: string, timestamp: nat)
    ensures FormatPattern(DefaultPattern, input, template, timestamp).Some?
    ensures FormatPattern(DefaultPattern, input, template, timestamp).value == input + "_" + template
  {
    FieldLiteralField(DefaultPattern, "input", '_', "template");
    RenderFieldLiteralField("input", '_', "template", input, template, timestamp);
  }

  /** A pattern `{a}c{b}` parses to two fields around one literal character. */
  lemma FieldLiteralField(p: string, a: string, c: char, b: string)
    requires p == "{" + a + "}" + [c] + "{" + b + "}"
    requires '}' !in a && (a == [] || a[0] != '{')
    requires '}' !in b && (b == [] || b[0] != '{')
    requires c != '{' && c != '}'
    ensures ParsePattern(p).Some?
    ensures ParsePattern(p).value == [Field(a), Lit(c), Field(b)]
  {
    var r2 := "{" + b + "}";
    var r1 := [c] + r2;
    assert p == "{" + a + "}" + r1;
    assert r2 == "{" + b + "}" + "";
    ParseField(r2, b, "");
    ParseLiteral(r1, c, r2);
    ParseField(p, a, r1);
  }

  lemma RenderFieldLiteralField(a: string, c: char, b: string, input: string, template: string, timestamp: nat)
    requires FieldValue(a, input, template, timestamp).Some? && FieldValue(b, input, template, timestamp).Some?
    ensures
      var r := Render([Field(a), Lit(c), Field(b)], input, template, timestamp);
      r.Some? && r.value == FieldValue(a, input, template, timestamp).value + [c] + FieldValue(b, input, template, timestamp).value
  {
    var pieces := [Field(a), Lit(c), Field(b)];
    assert pieces[1..] == [Lit(c), Field(b)];
    assert pieces[1..][1..] == [Field(b)];
    assert pieces[1..][1..][1..] == [];
    var va := FieldValue(a, input, template, timestamp).value;
    var vb := FieldValue(b, input, template, timestamp).value;
    var r2 := Render(pieces[1..][1..], input, template, timestamp);
    assert Render(pieces[1..][1..][1..], input, template, timestamp) == Some("");
    assert r2.Some? && r2.value == vb + "";
    var r1 := Render(pieces[1..], input, template, timestamp);
    assert r1.Some? && r1.value == [c] + (vb + "");
    var r := Render(pieces, input, template, timestamp);
    assert r.Some? && r.value == va + ([c] + (vb + ""));
    assert va + ([c] + (vb + "")) == va + [c] + vb;
  }

  /** A field `{name}` at the front of a pattern parses to one field piece. */
  lemma ParseField(p: string, name: string, rest: string)
    requires p == "{" + name + "}" + rest
    requires '}' !in name && (name == [] || name[0] != '{')
    ensures ParsePattern(p).Some? <==> ParsePattern(rest).Some?
    ensures ParsePattern(p).Some? ==> ParsePattern(p).value == [Field(name)] + ParsePattern(rest).value
  {
    assert p[1..] == name + "}" + rest;
    FindCharacterised(p[1..], '}', |name|);
    assert p[1..|name| + 1] == name;
    assert p[|name| + 2..] == rest;
  }

  /** A character other than a brace at the front of a pattern stands for itself. */
  lemma ParseLiteral(p: string, c: char, rest: string)
    requires p == [c] + rest
    requires c != '{' && c != '}'
    ensures ParsePattern(p).Some? <==> ParsePattern(rest).Some?
    ensures ParsePattern(p).Some? ==> ParsePattern(p).value == [Lit(c)] + ParsePattern(rest).value
  {
    assert p[1..] == rest;
  }

  /** Any index with `c` there and none before is the one `Find` returns. */
  lemma {:induction false} FindCharacterised(s: string, c: char, k: nat)
    requires k < |s| && s[k] == c
    requires forall i :: 0 <= i < k ==> s[i] != c
    ensures Find(s, c) == k
  {
    if k > 0 {
      FindCharacterised(s[1..], c, k - 1);
    }
  }

  predicate NoBraces(s: string) { forall i :: 0 <= i < |s| ==> s[i] != '{' && s[i] != '}' }

  /** A pattern without braces is used as the name verbatim. */
  lemma {:induction false} LiteralPattern(p: string, input: string, template: string, timestamp: nat)
    requires NoBraces(p)
    ensures FormatPattern(p, input, template, timestamp) == Some(p)
  {
    if p != [] {
      LiteralPattern(p[1..], input, template, timestamp);
      var rest := ParsePattern(p[1..]).value;
      assert ParsePattern(p) == Some([Lit(p[0])] + rest);
      assert ([Lit(p[0])] + rest)[1..] == rest;
      assert p == [p[0]] + p[1..];
    }
  }

  /** `if not output_format.startswith('.'): output_format = f".{output_format}"` */
  function DottedExtension(format: string): string
  {
    if !StartsWith(format, ".") then "." + format else format
  }

  /** The extension carries exactly one added dot at most: it starts with '.', and is the format itself or the format behind one new dot; a second pass adds nothing. */
  lemma DottedExtensionOnce(format: string)
    ensures StartsWith(DottedExtension(format), ".")
    ensures DottedExtension(format) == format || DottedExtension(format) == "." + format
    ensures StartsWith(format, ".") <==> DottedExtension(format) == format
    ensures DottedExtension(DottedExtension(format)) == DottedExtension(format)
  {
    assert ("." + format)[..1] == ".";
  }

  /**
   * `generate_output_filename(input_path, template_path, output_dir,
   * name_pattern, output_format)`, with `int(time.time())` given as
   * `timestamp`. `None` stands for the exception `format` raises.
   */
  function GenerateOutputFilename(inputPath: string, templatePath: string, outputDir: string,
                                  namePattern: string, outputFormat: string, timestamp: nat): Option<string>
  {
    var inputName := Stem(Basename(inputPath));
    var templateName := Stem(Basename(templatePath));
    var filename := FormatPattern(namePattern, inputName, templateName, timestamp);
    if filename.None? then None
    else Some(Join(outputDir, filename.value + DottedExtension(outputFormat)))
  }

  /** The output path is the output directory joined with the formatted name and the dotted extension; it exists exactly when the pattern is well formed. */
  lemma OutputFilenameShape(inputPath: string, templatePath: string, outputDir: string,
                            namePattern: string, outputFormat: string, timestamp: nat)
    ensures GenerateOutputFilename(inputPath, templatePath, outputDir, namePattern, outputFormat, timestamp).Some?
      <==> WellFormedPattern(namePattern)
    ensures
      var r := GenerateOutputFilename(inputPath, templatePath, outputDir, namePattern, outputFormat, timestamp);
      var name := FormatPattern(namePattern, Stem(Basename(inputPath)), Stem(Basename(templatePath)), timestamp);
      r.Some? ==> EndsWith(r.value, name.value + DottedExtension(outputFormat))
  {
    FormatSucceedsIffWellFormed(namePattern, Stem(Basename(inputPath)), Stem(Basename(templatePath)), timestamp);
  }

  /** With the default pattern the output is `<output_dir>/<input stem>_<template stem>.<format>` for a format without a dot. */
  lemma DefaultOutputFilename(inputPath: string, templatePath: string, outputDir: string,
                              outputFormat: string, timestamp: nat)
    requires !StartsWith(outputFormat, ".")
    ensures
      var filename := Stem(Basename(inputPath)) + "_" + Stem(Basename(templatePath));
      GenerateOutputFilename(inputPath, templatePath, outputDir, DefaultPattern, outputFormat, timestamp)
        == Some(Join(outputDir, filename + ("." + outputFormat)))
  {
    var input, template := Stem(Basename(inputPath)), Stem(Basename(templatePath));
    DefaultPatternName(input, template, timestamp);
    DottedExtensionOnce(outputFormat);
    OutputFilenameOf(inputPath, templatePath, outputDir, DefaultPattern, outputFormat, timestamp,
                     input + "_" + template);
  }

  /** A name the pattern formats to becomes the output path, joined with the dotted extension. */
  lemma OutputFilenameOf(inputPath: string, templatePath: string, outputDir: string,
                         namePattern: string, outputFormat: string, timestamp: nat, name: string)
    requires FormatPattern(namePattern, Stem(Basename(inputPath)), Stem(Basename(templatePath)), timestamp)
      == Some(name)
    ensures GenerateOutputFilename(inputPath, templatePath, outputDir, namePattern, outputFormat, timestamp)
      == Some(Join(outputDir, name + DottedExtension(outputFormat)))
  {
  }

  /** The names substituted for `{input}` and `{template}`: the last path component without its extension. */
  lemma StemIsNameWithoutExtension(path: string)
    ensures Stem(Basename(path)) + Ext(path) == Basename(path)
    ensures '/' !in Stem(Basename(path))
  {
    ExtOfBasename(path);
    BasenameIsLastComponent(path);
    var b := Basename(path);
    assert forall i :: 0 <= i < |Stem(b)| ==> Stem(b)[i] == b[i];
  }

  /** `is_valid_image(file_path)`, with `os.path.isfile` and `os.path.getsize` given. */
  function IsValidImage(filePath: string, isFile: bool, size: nat): (valid: bool)
    ensures valid <==> Lower(Ext(filePath)) in ValidExtensions && isFile && size > 0
    ensures valid ==> Ext(filePath) != "" && Ext(filePath)[0] == '.'
  {
    ExtShape(filePath);
    var ext := Lower(Ext(filePath));
    if ext !in ValidExtensions then false
    else if !isFile || size == 0 then false
    else true
  }

  /** A file that passes the default filter of `get_file_paths` also passes the extension test of `is_valid_image`, and is valid exactly when it is non-empty. */
  lemma DefaultAdmittedIsValidExtension(path: string, size: nat)
    requires FileAdmitted(path, FilterList(None))
    ensures Lower(Ext(path)) in ValidExtensions
    ensures IsValidImage(path, true, size) <==> size > 0
  {
    DefaultFilter(path);
  }
}
