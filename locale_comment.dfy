/**
 * locale/lang-tools/comment_langs.py: every string line of a locale file gets
 * the template's text for its key appended as a TOML comment, so that
 * translators see the original next to the translation. Lines are the file's
 * lines as read, each with its line terminator.
 */
module LocaleComment {
  import opened Wrappers
  import opened Text
  import opened Toml

  // ---------------------------------------------------------------- one line

  /** `'{}'.format(v)` for an ALERTS string or a flag. */
  function ShowScalar(v: Scalar): string
  {
    match v
    case Str(s) => s
    case Flag(b) => if b then "True" else "False"
  }

  /** `'{}'.format(v)` for a top-level value; a table prints as `showTable` says. */
  function Show(v: Value, showTable: Dict<Scalar> -> string): string
  {
    match v
    case Plain(s) => ShowScalar(s)
    case Table(t) => showTable(t)
  }

  /** A line holding a string and no comment yet. */
  predicate Uncommented(line: string)
  {
    '=' in line && '#' !in line
  }

  /** The line with the template's text as a comment. */
  function WithComment(line: string, text: string): (r: string)
    ensures '#' in r
    ensures Trim(line) <= r
  {
    var t := Trim(line);
    var r := t + (" # " + text + "\n");
    assert r[|t| + 1] == '#';
    assert r[..|t|] == t;
    r
  }

  /**
   * One line of comment_file: an uncommented string line whose key (the text
   * before the first space) the template has, at the top level or else in
   * ALERTS, gets that text as a comment; every other line is kept. Looking in
   * a template without ALERTS raises KeyError.
   */
  function CommentLine(line: string, template: Doc, showTable: Dict<Scalar> -> string): Result<string, Failure>
  {
    if !Uncommented(line) then Success(line)
    else
      var key := BeforeFirst(line, ' ');
      if key in template.vals then Success(WithComment(line, Show(template.vals[key], showTable)))
      else if "ALERTS" !in template.vals then Failure(KeyError("ALERTS"))
      else if !template.vals["ALERTS"].Table? then Failure(NotATable("ALERTS"))
      else if key in template.vals["ALERTS"].t.vals then Success(WithComment(line, ShowScalar(template.vals["ALERTS"].t.vals[key])))
      else Success(line)
  }

  /** A line is either kept or is its trimmed text followed by a comment. */
  lemma CommentLineShape(line: string, template: Doc, showTable: Dict<Scalar> -> string)
    ensures var r := CommentLine(line, template, showTable);
      r.Success? ==> r.value == line || (Uncommented(line) && Trim(line) <= r.value && '#' in r.value)
    ensures CommentLine(line, template, showTable).Failure? ==> Uncommented(line)
  {
    if Uncommented(line) {
      var key := BeforeFirst(line, ' ');
      if key in template.vals {
        var _ := WithComment(line, Show(template.vals[key], showTable));
      }
    }
  }

  /** A line commented once is left alone the second time. */
  lemma CommentLineIdempotent(line: string, template: Doc, showTable: Dict<Scalar> -> string)
    requires CommentLine(line, template, showTable).Success?
    ensures CommentLine(CommentLine(line, template, showTable).value, template, showTable) == CommentLine(line, template, showTable)
  {
  }

  // ---------------------------------------------------------------- a file's lines

  /**
   * The lines comment_file writes, in order, and the error that stopped it:
   * the lines before the first failing one are written.
   */
  function Commented(lines: seq<string>, template: Doc, showTable: Dict<Scalar> -> string): (seq<string>, Option<Failure>)
  {
    if |lines| == 0 then ([], None)
    else
      var (out, err) := Commented(lines[..|lines| - 1], template, showTable);
      if err.Some? then (out, err)
      else
        match CommentLine(lines[|lines| - 1], template, showTable)
        case Success(l) => (out + [l], None)
        case Failure(e) => (out, Some(e))
  }

  /**
   * Without an error there is one output line per input line, each kept or
   * commented; with one, the output is the commented prefix before the
   * failing line.
   */
  lemma {:induction false} CommentedShape(lines: seq<string>, template: Doc, showTable: Dict<Scalar> -> string)
    ensures var (out, err) := Commented(lines, template, showTable);
      (err.None? ==> |out| == |lines|) && (err.Some? ==> |out| < |lines|)
      && forall i :: 0 <= i < |out| ==> CommentLine(lines[i], template, showTable) == Success(out[i])
    decreases |lines|
  {
    if |lines| > 0 {
      var init := lines[..|lines| - 1];
      CommentedShape(init, template, showTable);
      assert forall i :: 0 <= i < |init| ==> lines[i] == init[i];
    }
  }

  /** A failure is the first line that fails. */
  lemma {:induction false} CommentedFailure(lines: seq<string>, template: Doc, showTable: Dict<Scalar> -> string)
    ensures var (out, err) := Commented(lines, template, showTable);
      err.Some? ==> |out| < |lines| && CommentLine(lines[|out|], template, showTable) == Failure(err.value)
    decreases |lines|
  {
    CommentedShape(lines, template, showTable);
    if |lines| > 0 {
      var init := lines[..|lines| - 1];
      CommentedFailure(init, template, showTable);
      CommentedShape(init, template, showTable);
    }
  }

  /** Commenting an already commented file changes nothing. */
  lemma {:induction false} CommentedIdempotent(lines: seq<string>, template: Doc, showTable: Dict<Scalar> -> string)
    requires Commented(lines, template, showTable).1.None?
    ensures Commented(Commented(lines, template, showTable).0, template, showTable) == Commented(lines, template, showTable)
    decreases |lines|
  {
    if |lines| > 0 {
      var init := lines[..|lines| - 1];
      var last := lines[|lines| - 1];
      CommentedIdempotent(init, template, showTable);
      CommentLineIdempotent(last, template, showTable);
      var out := Commented(lines, template, showTable).0;
      var l := CommentLine(last, template, showTable).value;
      assert out == Commented(init, template, showTable).0 + [l];
      assert out[..|out| - 1] == Commented(init, template, showTable).0;
    }
  }

  /** Once a line fails, the lines after it change nothing. */
  lemma {:induction false} CommentedStops(lines: seq<string>, j: nat, template: Doc, showTable: Dict<Scalar> -> string)
    requires j <= |lines| && Commented(lines[..j], template, showTable).1.Some?
    ensures Commented(lines, template, showTable) == Commented(lines[..j], template, showTable)
    decreases |lines|
  {
    if j < |lines| {
      var init := lines[..|lines| - 1];
      assert init[..j] == lines[..j];
      CommentedStops(init, j, template, showTable);
    } else {
      assert lines[..j] == lines;
    }
  }

  // ---------------------------------------------------------------- comment_file

  /**
   * comment_file(locale_file, template_path) on the files `fs`: the template
   * itself (by absolute path) is skipped; the file is read and truncated
   * before the template is loaded, so a missing template leaves it empty, and
   * a failing line leaves the lines before it. A finished file keeps its
   * parsed contents (comments do not change them); a cut one holds what
   * `parse` reads from its lines.
   */
  function CommentedFile(fs: Fs, localeFile: string, templatePath: string, abspath: string -> string,
                         showTable: Dict<Scalar> -> string, parse: seq<string> -> Doc): (Fs, Option<Failure>)
  {
    if abspath(localeFile) == abspath(templatePath) then (fs, None)
    else if localeFile !in fs then (fs, Some(FileNotFound(localeFile)))
    else if templatePath !in fs then (fs[localeFile := File(EmptyDict(), [])], Some(FileNotFound(templatePath)))
    else
      var (out, err) := Commented(fs[localeFile].lines, fs[templatePath].doc, showTable);
      if err.Some? then (fs[localeFile := File(parse(out), out)], err)
      else (fs[localeFile := File(fs[localeFile].doc, out)], None)
  }

  /** comment_file creates no file and never rewrites the template. */
  lemma CommentedFileKeeps(fs: Fs, localeFile: string, templatePath: string, abspath: string -> string,
                           showTable: Dict<Scalar> -> string, parse: seq<string> -> Doc)
    ensures var (fs', _) := CommentedFile(fs, localeFile, templatePath, abspath, showTable, parse);
      fs'.Keys == fs.Keys && (templatePath in fs ==> fs'[templatePath] == fs[templatePath])
      && forall p :: p in fs && p != localeFile ==> fs'[p] == fs[p]
  {
  }

  /** Commenting a file a second time, after a first run that finished, changes nothing. */
  lemma CommentedFileIdempotent(fs: Fs, localeFile: string, templatePath: string, abspath: string -> string,
                                showTable: Dict<Scalar> -> string, parse: seq<string> -> Doc)
    requires CommentedFile(fs, localeFile, templatePath, abspath, showTable, parse).1.None?
    ensures var once := CommentedFile(fs, localeFile, templatePath, abspath, showTable, parse).0;
      CommentedFile(once, localeFile, templatePath, abspath, showTable, parse) == (once, None)
  {
    if abspath(localeFile) != abspath(templatePath) {
      var template := fs[templatePath].doc;
      CommentedIdempotent(fs[localeFile].lines, template, showTable);
      var out := Commented(fs[localeFile].lines, template, showTable).0;
      var once := fs[localeFile := File(fs[localeFile].doc, out)];
      assert CommentedFile(fs, localeFile, templatePath, abspath, showTable, parse).0 == once;
      assert once[templatePath].doc == template;
      assert Commented(once[localeFile].lines, template, showTable) == (out, None);
      assert once[localeFile := File(once[localeFile].doc, out)] == once;
    }
  }

  /** comment_file: the file's lines are rewritten one by one. */
  method CommentFile(fs: Fs, localeFile: string, templatePath: string, abspath: string -> string,
                     showTable: Dict<Scalar> -> string, parse: seq<string> -> Doc)
    returns (fs': Fs, err: Option<Failure>)
    ensures (fs', err) == CommentedFile(fs, localeFile, templatePath, abspath, showTable, parse)
  {
    if abspath(localeFile) == abspath(templatePath) {
      return fs, None;
    }
    if localeFile !in fs {
      return fs, Some(FileNotFound(localeFile));
    }
    var lines := fs[localeFile].lines;
    var doc := fs[localeFile].doc;
    fs' := fs[localeFile := File(EmptyDict(), [])];
    if templatePath !in fs' {
      return fs', Some(FileNotFound(templatePath));
    }
    var template := fs'[templatePath].doc;
    assert template == fs[templatePath].doc;
    var written: seq<string> := [];
    assert lines[..0] == [];
    for i := 0 to |lines|
      invariant Commented(lines[..i], template, showTable) == (written, None)
    {
      assert lines[..i + 1][..i] == lines[..i];
      var line := CommentLine(lines[i], template, showTable);
      if line.Failure? {
        assert Commented(lines[..i + 1], template, showTable) == (written, Some(line.error));
        CommentedStops(lines, i + 1, template, showTable);
        assert fs'[localeFile := File(parse(written), written)] == fs[localeFile := File(parse(written), written)];
        return fs'[localeFile := File(parse(written), written)], Some(line.error);
      }
      written := written + [line.value];
    }
    assert lines[..|lines|] == lines;
    assert fs'[localeFile := File(doc, written)] == fs[localeFile := File(doc, written)];
    return fs'[localeFile := File(doc, written)], None;
  }

  // ---------------------------------------------------------------- comment_files

  /** The files `paths` commented in turn, up to the first error. */
  function CommentedAll(fs: Fs, paths: seq<string>, templatePath: string, abspath: string -> string,
                        showTable: Dict<Scalar> -> string, parse: seq<string> -> Doc): (Fs, Option<Failure>)
  {
    if |paths| == 0 then (fs, None)
    else
      var (before, err) := CommentedAll(fs, paths[..|paths| - 1], templatePath, abspath, showTable, parse);
      if err.Some? then (before, err)
      else CommentedFile(before, paths[|paths| - 1], templatePath, abspath, showTable, parse)
  }

  /** Once a file fails, the files after it are not touched. */
  lemma {:induction false} CommentedAllStops(fs: Fs, paths: seq<string>, j: nat, templatePath: string, abspath: string -> string,
                                             showTable: Dict<Scalar> -> string, parse: seq<string> -> Doc)
    requires j <= |paths| && CommentedAll(fs, paths[..j], templatePath, abspath, showTable, parse).1.Some?
    ensures CommentedAll(fs, paths, templatePath, abspath, showTable, parse)
            == CommentedAll(fs, paths[..j], templatePath, abspath, showTable, parse)
    decreases |paths|
  {
    if j < |paths| {
      var init := paths[..|paths| - 1];
      assert init[..j] == paths[..j];
      CommentedAllStops(fs, init, j, templatePath, abspath, showTable, parse);
    } else {
      assert paths[..j] == paths;
    }
  }

  /** However many files are commented, none is created and the template stays as it was. */
  lemma {:induction false} CommentedAllKeeps(fs: Fs, paths: seq<string>, templatePath: string, abspath: string -> string,
                                             showTable: Dict<Scalar> -> string, parse: seq<string> -> Doc)
    ensures var (fs', _) := CommentedAll(fs, paths, templatePath, abspath, showTable, parse);
      fs'.Keys == fs.Keys && (templatePath in fs ==> fs'[templatePath] == fs[templatePath])
      && forall p :: p in fs && p !in paths ==> fs'[p] == fs[p]
    decreases |paths|
  {
    if |paths| > 0 {
      var init := paths[..|paths| - 1];
      CommentedAllKeeps(fs, init, templatePath, abspath, showTable, parse);
      var (before, _) := CommentedAll(fs, init, templatePath, abspath, showTable, parse);
      CommentedFileKeeps(before, paths[|paths| - 1], templatePath, abspath, showTable, parse);
      assert forall p :: p in paths <==> p in init || p == paths[|paths| - 1];
    }
  }

  /**
   * comment_files(locale_dir, template_path): a directory has each of its
   * `<dir>/<lang>/<file>.toml` files (`files`, in the order glob gives) commented; anything
   * else is commented as one file.
   */
  method CommentFiles(fs: Fs, localeDir: string, isDir: bool, files: seq<string>, templatePath: string,
                      abspath: string -> string, showTable: Dict<Scalar> -> string, parse: seq<string> -> Doc)
    returns (fs': Fs, err: Option<Failure>)
    ensures (fs', err) == CommentedAll(fs, if isDir then files else [localeDir], templatePath, abspath, showTable, parse)
  {
    var paths := if isDir then files else [localeDir];
    fs', err := fs, None;
    assert paths[..0] == [];
    for i := 0 to |paths|
      invariant CommentedAll(fs, paths[..i], templatePath, abspath, showTable, parse) == (fs', err) && err.None?
    {
      assert paths[..i + 1][..i] == paths[..i];
      fs', err := CommentFile(fs', paths[i], templatePath, abspath, showTable, parse);
      assert CommentedAll(fs, paths[..i + 1], templatePath, abspath, showTable, parse) == (fs', err);
      if err.Some? {
        CommentedAllStops(fs, paths, i + 1, templatePath, abspath, showTable, parse);
        return;
      }
    }
    assert paths[..|paths|] == paths;
  }
}
