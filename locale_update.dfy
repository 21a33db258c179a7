/**
 * locale/lang-tools/update_translations.py: `tame` runs the three tools over
 * every locale file, in order: sync with the template, merge the regional
 * variants of a language, and comment the strings. The locale files are the
 * paths `glob` lists for the current files: the .toml files one directory
 * below the locale directory.
 */
module LocaleUpdate {
  import opened Wrappers
  import opened Text
  import opened Toml
  import opened LocaleMerge
  import opened LocaleSync
  import opened LocaleComment

  // ---------------------------------------------------------------- variant groups

  /** The path has a directory part: path.split('/')[-2] exists exactly when a '/' occurs. */
  predicate HasDir(p: string)
  {
    '/' in p
  }

  /** The language directory of a path. */
  function Dir(p: string): string
    requires HasDir(p)
  {
    SplitMany(p, '/');
    var parts := Split(p, '/');
    parts[|parts| - 2]
  }

  /** A regional variant's file: its directory names a language and a region. */
  predicate IsVariant(p: string)
  {
    HasDir(p) && '-' in Dir(p)
  }

  /** The language a variant belongs to: its directory up to the first '-'. */
  function Lang(p: string): string
    requires IsVariant(p)
  {
    BeforeFirst(Dir(p), '-')
  }

  /** The variants of the language `lang` among `paths`, in order. */
  function Variants(paths: seq<string>, lang: string): seq<string>
  {
    if |paths| == 0 then []
    else
      var last := paths[|paths| - 1];
      Variants(paths[..|paths| - 1], lang) + if IsVariant(last) && Lang(last) == lang then [last] else []
  }

  lemma {:induction false} VariantsAreVariants(paths: seq<string>, lang: string)
    ensures forall p :: p in Variants(paths, lang) ==> IsVariant(p) && Lang(p) == lang && p in paths
    decreases |paths|
  {
    if |paths| > 0 {
      VariantsAreVariants(paths[..|paths| - 1], lang);
    }
  }

  lemma VariantsStep(paths: seq<string>, i: nat, lang: string)
    requires i < |paths|
    ensures Variants(paths[..i + 1], lang)
            == Variants(paths[..i], lang) + if IsVariant(paths[i]) && Lang(paths[i]) == lang then [paths[i]] else []
  {
    assert paths[..i + 1][..i] == paths[..i];
  }

  /** `langs` and `groups` hold the variants among `paths`, grouped by language. */
  ghost predicate Grouped(paths: seq<string>, langs: seq<string>, groups: map<string, seq<string>>)
  {
    Listed(langs, groups) && Held(paths, groups)
  }

  /** `langs` lists the languages of `groups`, each once. */
  ghost predicate Listed(langs: seq<string>, groups: map<string, seq<string>>)
  {
    Distinct(langs) && (forall l :: l in groups <==> l in langs)
  }

  /** `groups` holds, for each language with variants among `paths`, those variants. */
  ghost predicate Held(paths: seq<string>, groups: map<string, seq<string>>)
  {
    (forall l :: l in groups ==> groups[l] == Variants(paths, l) && |groups[l]| > 0)
    && (forall l :: l !in groups ==> Variants(paths, l) == [])
  }

  lemma GroupedNothing(paths: seq<string>)
    ensures Grouped(paths[..0], [], map[])
  {
    assert paths[..0] == [];
  }

  /** A path that is not a variant changes no group. */
  lemma GroupedSkip(paths: seq<string>, i: nat, langs: seq<string>, groups: map<string, seq<string>>)
    requires i < |paths| && !IsVariant(paths[i]) && Grouped(paths[..i], langs, groups)
    ensures Grouped(paths[..i + 1], langs, groups)
  {
    forall l
      ensures Variants(paths[..i + 1], l) == Variants(paths[..i], l)
    {
      VariantsStep(paths, i, l);
    }
  }

  /** A variant joins its language's group, which is created when new. */
  lemma GroupedAdd(paths: seq<string>, i: nat, langs: seq<string>, groups: map<string, seq<string>>)
    requires i < |paths| && IsVariant(paths[i]) && Grouped(paths[..i], langs, groups)
    ensures var p := paths[i];
      var l := Lang(p);
      Grouped(paths[..i + 1], if l in groups then langs else langs + [l],
              groups[l := (if l in groups then groups[l] else []) + [p]])
  {
    var p := paths[i];
    var lang := Lang(p);
    ListedAdd(langs, groups, lang, (if lang in groups then groups[lang] else []) + [p]);
    HeldAdd(paths, i, groups);
  }

  lemma ListedAdd(langs: seq<string>, groups: map<string, seq<string>>, lang: string, g: seq<string>)
    requires Listed(langs, groups)
    ensures Listed(if lang in groups then langs else langs + [lang], groups[lang := g])
  {
  }

  lemma HeldAdd(paths: seq<string>, i: nat, groups: map<string, seq<string>>)
    requires i < |paths| && IsVariant(paths[i]) && Held(paths[..i], groups)
    ensures var p := paths[i];
      var lang := Lang(p);
      Held(paths[..i + 1], groups[lang := (if lang in groups then groups[lang] else []) + [p]])
  {
    var p := paths[i];
    var lang := Lang(p);
    var groups' := groups[lang := (if lang in groups then groups[lang] else []) + [p]];
    VariantsStep(paths, i, lang);
    forall l | l != lang
      ensures Variants(paths[..i + 1], l) == Variants(paths[..i], l)
    {
      VariantsStep(paths, i, l);
    }
    forall l | l in groups'
      ensures groups'[l] == Variants(paths[..i + 1], l) && |groups'[l]| > 0
    {
      if l == lang {
        assert groups'[l] == Variants(paths[..i], l) + [p];
      }
    }
  }

  /**
   * The path_dict loop of tame as a value: the variants grouped by language,
   * the languages in the order they first appear. The first path without a
   * directory part raises IndexError.
   */
  function Grouping(paths: seq<string>): (r: Result<(seq<string>, map<string, seq<string>>), Failure>)
    ensures r.Success? ==> forall l, j :: l in r.value.1 && 0 <= j < |r.value.1[l]| ==> IsVariant(r.value.1[l][j])
    decreases |paths|
  {
    if |paths| == 0 then Success(([], map[]))
    else
      var prev := Grouping(paths[..|paths| - 1]);
      var p := paths[|paths| - 1];
      if prev.Failure? then prev
      else if !HasDir(p) then Failure(NoLanguageDirectory(p))
      else if !IsVariant(p) then prev
      else
        var (langs, groups) := prev.value;
        var l := Lang(p);
        Success((if l in groups then langs else langs + [l], groups[l := (if l in groups then groups[l] else []) + [p]]))
  }

  /** Once a path raises, the paths after it are not looked at. */
  lemma {:induction false} GroupingStops(paths: seq<string>, j: nat)
    requires j <= |paths| && Grouping(paths[..j]).Failure?
    ensures Grouping(paths) == Grouping(paths[..j])
    decreases |paths|
  {
    if j < |paths| {
      var init := paths[..|paths| - 1];
      assert init[..j] == paths[..j];
      GroupingStops(init, j);
    } else {
      assert paths[..j] == paths;
    }
  }

  /**
   * The path_dict loop of tame: the variants grouped by language, the
   * languages in the order they first appear. A path without a directory
   * part raises IndexError.
   */
  method GroupVariants(paths: seq<string>) returns (r: Result<(seq<string>, map<string, seq<string>>), Failure>)
    ensures r == Grouping(paths)
    ensures r.Failure? <==> exists p :: p in paths && !HasDir(p)
    ensures r.Success? ==> var (langs, groups) := r.value;
      Distinct(langs) && (forall l :: l in groups <==> l in langs)
      && (forall l :: l in groups ==> groups[l] == Variants(paths, l) && |groups[l]| > 0)
      && (forall l :: l !in groups ==> Variants(paths, l) == [])
  {
    var langs: seq<string> := [];
    var groups: map<string, seq<string>> := map[];
    GroupedNothing(paths);
    assert paths[..0] == [];
    for i := 0 to |paths|
      invariant forall q :: q in paths[..i] ==> HasDir(q)
      invariant Grouped(paths[..i], langs, groups)
      invariant Grouping(paths[..i]) == Success((langs, groups))
    {
      var p := paths[i];
      assert paths[..i + 1][..i] == paths[..i] && paths[..i + 1][i] == p;
      if !HasDir(p) {
        GroupingStops(paths, i + 1);
        return Failure(NoLanguageDirectory(p));
      }
      assert forall q :: q in paths[..i + 1] ==> q in paths[..i] || q == p;
      if !IsVariant(p) {
        GroupedSkip(paths, i, langs, groups);
      } else {
        GroupedAdd(paths, i, langs, groups);
      }
      if '-' in Dir(p) {
        var lang := Lang(p);
        var before := if lang in groups then groups[lang] else [];
        if lang !in groups {
          langs := langs + [lang];
        }
        groups := groups[lang := before + [p]];
      }
    }
    assert paths[..|paths|] == paths;
    return Success((langs, groups));
  }

  // ---------------------------------------------------------------- the passes

  /** Paths that name the template are skipped by the sync and comment passes. */
  predicate IsTemplate(p: string)
  {
    HasSubstring(p, "template")
  }

  /** The paths the sync and comment passes visit, in order: those that do not name the template. */
  function NonTemplates(paths: seq<string>): (r: seq<string>)
    ensures forall p :: p in r <==> p in paths && !IsTemplate(p)
    decreases |paths|
  {
    if |paths| == 0 then []
    else
      var last := paths[|paths| - 1];
      NonTemplates(paths[..|paths| - 1]) + if IsTemplate(last) then [] else [last]
  }

  lemma {:induction false} NonTemplatesPrefix(paths: seq<string>, i: nat)
    requires i <= |paths|
    ensures NonTemplates(paths[..i]) <= NonTemplates(paths)
    decreases |paths|
  {
    if i < |paths| {
      var init := paths[..|paths| - 1];
      assert init[..i] == paths[..i];
      NonTemplatesPrefix(init, i);
    } else {
      assert paths[..i] == paths;
    }
  }

  /** The sync pass as a value: copy_template on each path that does not name the template, up to the first error. */
  ghost function SyncedAll(fs: Fs, paths: seq<string>, templatePath: string, dump: Doc -> seq<string>): (r: (Fs, Option<Failure>))
    requires FsWf(fs)
    ensures FsWf(r.0) && r.0.Keys == fs.Keys
    decreases |paths|
  {
    if |paths| == 0 then (fs, None)
    else
      var (before, err) := SyncedAll(fs, paths[..|paths| - 1], templatePath, dump);
      var p := paths[|paths| - 1];
      if err.Some? || IsTemplate(p) then (before, err)
      else
        CopiedTemplateSpec(before, p, templatePath, dump);
        var r := CopiedTemplate(before, p, templatePath, dump);
        if r.Failure? then (before, Some(r.error)) else (r.value, None)
  }

  lemma {:induction false} SyncedAllStops(fs: Fs, paths: seq<string>, j: nat, templatePath: string, dump: Doc -> seq<string>)
    requires FsWf(fs) && j <= |paths| && SyncedAll(fs, paths[..j], templatePath, dump).1.Some?
    ensures SyncedAll(fs, paths, templatePath, dump) == SyncedAll(fs, paths[..j], templatePath, dump)
    decreases |paths|
  {
    if j < |paths| {
      var init := paths[..|paths| - 1];
      assert init[..j] == paths[..j];
      SyncedAllStops(fs, init, j, templatePath, dump);
    } else {
      assert paths[..j] == paths;
    }
  }

  /** The sync pass leaves the template paths and the unlisted files as they were. */
  lemma {:induction false} SyncedAllFrame(fs: Fs, paths: seq<string>, templatePath: string, dump: Doc -> seq<string>)
    requires FsWf(fs)
    ensures var fs' := SyncedAll(fs, paths, templatePath, dump).0;
      forall q :: q in fs && (q !in paths || IsTemplate(q)) ==> fs'[q] == fs[q]
    decreases |paths|
  {
    if |paths| > 0 {
      var init := paths[..|paths| - 1];
      var p := paths[|paths| - 1];
      SyncedAllFrame(fs, init, templatePath, dump);
      var (before, err) := SyncedAll(fs, init, templatePath, dump);
      assert forall q :: q in paths <==> q in init || q == p;
      if err.None? && !IsTemplate(p) {
        CopiedTemplateSpec(before, p, templatePath, dump);
      }
    }
  }

  /**
   * After a sync pass that finished, with a template whose path names the
   * template, each visited file either holds every template string and
   * ALERTS string (it was rewritten) or is as it was (it is marked merged).
   */
  lemma {:induction false} SyncedAllCovers(fs: Fs, paths: seq<string>, templatePath: string, dump: Doc -> seq<string>)
    requires FsWf(fs) && IsTemplate(templatePath)
    ensures var (fs', err) := SyncedAll(fs, paths, templatePath, dump);
      err.None? ==> forall q :: q in paths && !IsTemplate(q) ==>
        q in fs && templatePath in fs && (fs'[q] == fs[q] || Covers(fs'[q].doc, fs[templatePath].doc))
    decreases |paths|
  {
    if |paths| > 0 {
      var init := paths[..|paths| - 1];
      var p := paths[|paths| - 1];
      SyncedAllCovers(fs, init, templatePath, dump);
      SyncedAllFrame(fs, init, templatePath, dump);
      var (before, err) := SyncedAll(fs, init, templatePath, dump);
      if err.None? && !IsTemplate(p) {
        CopiedTemplateSpec(before, p, templatePath, dump);
        var r := CopiedTemplate(before, p, templatePath, dump);
        if r.Success? {
          assert templatePath in before && before[templatePath] == fs[templatePath];
          forall q | q in paths && !IsTemplate(q)
            ensures q in fs && (r.value[q] == fs[q] || Covers(r.value[q].doc, fs[templatePath].doc))
          {
            if q != p {
              assert q in init;
            }
          }
        }
      }
    }
  }

  /** The sync pass: copy_template on each locale file that is not the template. */
  method SyncAll(fs: Fs, paths: seq<string>, templatePath: string, dump: Doc -> seq<string>)
    returns (fs': Fs, err: Option<Failure>)
    requires FsWf(fs)
    ensures (fs', err) == SyncedAll(fs, paths, templatePath, dump)
    ensures FsWf(fs') && fs'.Keys == fs.Keys
    ensures forall p :: p in fs && (p !in paths || IsTemplate(p)) ==> fs'[p] == fs[p]
  {
    fs', err := fs, None;
    assert paths[..0] == [];
    for i := 0 to |paths|
      invariant FsWf(fs') && fs'.Keys == fs.Keys
      invariant forall p :: p in fs && (p !in paths || IsTemplate(p)) ==> fs'[p] == fs[p]
      invariant SyncedAll(fs, paths[..i], templatePath, dump) == (fs', err) && err.None?
    {
      assert paths[..i + 1][..i] == paths[..i] && paths[..i + 1][i] == paths[i];
      if !IsTemplate(paths[i]) {
        var r := CopyTemplate(fs', paths[i], templatePath, dump);
        if r.Failure? {
          SyncedAllStops(fs, paths, i + 1, templatePath, dump);
          return fs', Some(r.error);
        }
        fs' := r.value;
      }
    }
    assert paths[..|paths|] == paths;
  }

  /** The parent language's file for a variant: the formula tame builds from the first path of a group. */
  function ParentPath(p: string): string
    requires HasDir(p)
  {
    SplitMany(p, '/');
    ParentFile(Split(p, '/'))
  }

  /** A parent language's file is never a regional variant's: its language directory holds no '-'. */
  lemma VariantNotParent(v: string, u: string)
    requires IsVariant(v) && HasDir(u)
    ensures v != ParentPath(u)
  {
    SplitMany(u, '/');
    var q := Split(u, '/');
    var n := |q|;
    var lang := BeforeFirst(q[n - 2], '-');
    var parts := q[..n - 2] + [lang] + [q[n - 1]];
    SplitPiecesFree(u, '/');
    assert forall k :: 0 <= k < |lang| ==> lang[k] == q[n - 2][k];
    forall k | 0 <= k < |parts|
      ensures '/' !in parts[k]
    {
      if k < n - 2 {
        assert parts[k] == q[k];
      } else if k == n - 1 {
        assert parts[k] == q[n - 1];
      }
    }
    SplitJoin(parts, '/');
    assert Split(ParentPath(u), '/') == parts;
    SplitMany(ParentPath(u), '/');
    assert Dir(ParentPath(u)) == lang;
  }

  /** The parent files of the languages among `langs` that have exactly two variants. */
  ghost function Parents(langs: seq<string>, groups: map<string, seq<string>>): set<string>
    requires forall l, j :: l in groups && 0 <= j < |groups[l]| ==> IsVariant(groups[l][j])
  {
    set l | l in langs && l in groups && |groups[l]| == 2 :: ParentOf(groups, l)
  }

  /** The parent file of a language with exactly two variants. */
  function ParentOf(groups: map<string, seq<string>>, l: string): string
    requires forall l, j :: l in groups && 0 <= j < |groups[l]| ==> IsVariant(groups[l][j])
    requires l in groups && |groups[l]| == 2
  {
    assert IsVariant(groups[l][0]);
    ParentPath(groups[l][0])
  }

  /** The merge pass as a value: each language with exactly two variants, in order, merged into its parent's file, up to the first error. */
  ghost function MergedAll(fs: Fs, langs: seq<string>, groups: map<string, seq<string>>, dump: Doc -> seq<string>)
    : (r: (Fs, Option<Failure>))
    requires FsWf(fs)
    requires forall l, j :: l in groups && 0 <= j < |groups[l]| ==> IsVariant(groups[l][j])
    ensures FsWf(r.0)
    decreases |langs|
  {
    if |langs| == 0 then (fs, None)
    else
      var (before, err) := MergedAll(fs, langs[..|langs| - 1], groups, dump);
      var l := langs[|langs| - 1];
      if err.Some? || l !in groups || |groups[l]| != 2 then (before, err)
      else
        var paths := groups[l];
        MergedWrites(before, paths[0], paths[1], ParentOf(groups, l), dump);
        var r := Merged(before, paths[0], paths[1], ParentOf(groups, l), dump);
        if r.Failure? then (before, Some(r.error)) else (r.value, None)
  }

  lemma {:induction false} MergedAllStops(fs: Fs, langs: seq<string>, j: nat, groups: map<string, seq<string>>, dump: Doc -> seq<string>)
    requires FsWf(fs) && forall l, k :: l in groups && 0 <= k < |groups[l]| ==> IsVariant(groups[l][k])
    requires j <= |langs| && MergedAll(fs, langs[..j], groups, dump).1.Some?
    ensures MergedAll(fs, langs, groups, dump) == MergedAll(fs, langs[..j], groups, dump)
    decreases |langs|
  {
    if j < |langs| {
      var init := langs[..|langs| - 1];
      assert init[..j] == langs[..j];
      MergedAllStops(fs, init, j, groups, dump);
    } else {
      assert langs[..j] == langs;
    }
  }

  /** The files of the languages among `langs` merged in the pass: both variants and the parent. */
  ghost predicate Touched(q: string, langs: seq<string>, groups: map<string, seq<string>>)
    requires forall l, j :: l in groups && 0 <= j < |groups[l]| ==> IsVariant(groups[l][j])
  {
    exists l :: l in langs && l in groups && |groups[l]| == 2
                && (q == groups[l][0] || q == groups[l][1] || q == ParentOf(groups, l))
  }

  /** The merge pass creates at most the parents' files of the languages with exactly two variants. */
  lemma {:induction false} MergedAllKeys(fs: Fs, langs: seq<string>, groups: map<string, seq<string>>, dump: Doc -> seq<string>)
    requires FsWf(fs)
    requires forall l, j :: l in groups && 0 <= j < |groups[l]| ==> IsVariant(groups[l][j])
    ensures var fs' := MergedAll(fs, langs, groups, dump).0;
      fs.Keys <= fs'.Keys <= fs.Keys + Parents(langs, groups)
    decreases |langs|
  {
    if |langs| > 0 {
      var init := langs[..|langs| - 1];
      var m := langs[|langs| - 1];
      MergedAllKeys(fs, init, groups, dump);
      var (before, err) := MergedAll(fs, init, groups, dump);
      assert Parents(init, groups) <= Parents(langs, groups);
      if err.None? && m in groups && |groups[m]| == 2 {
        var paths := groups[m];
        assert ParentOf(groups, m) in Parents(langs, groups);
        MergedWrites(before, paths[0], paths[1], ParentOf(groups, m), dump);
      }
    }
  }

  /** Every file that is neither a variant nor the parent of a language with exactly two variants is left as it was. */
  lemma {:induction false} MergedAllFrame(fs: Fs, langs: seq<string>, groups: map<string, seq<string>>, dump: Doc -> seq<string>)
    requires FsWf(fs)
    requires forall l, j :: l in groups && 0 <= j < |groups[l]| ==> IsVariant(groups[l][j])
    ensures var fs' := MergedAll(fs, langs, groups, dump).0;
      forall q :: q in fs && !Touched(q, langs, groups) ==> q in fs' && fs'[q] == fs[q]
    decreases |langs|
  {
    if |langs| > 0 {
      var init := langs[..|langs| - 1];
      var m := langs[|langs| - 1];
      MergedAllFrame(fs, init, groups, dump);
      MergedAllKeys(fs, init, groups, dump);
      var (before, err) := MergedAll(fs, init, groups, dump);
      assert forall q :: Touched(q, init, groups) ==> Touched(q, langs, groups);
      if err.None? && m in groups && |groups[m]| == 2 {
        var paths := groups[m];
        var out := ParentOf(groups, m);
        MergedWrites(before, paths[0], paths[1], out, dump);
        assert Touched(paths[0], langs, groups) && Touched(paths[1], langs, groups) && Touched(out, langs, groups);
      }
    }
  }

  /** Once the merge pass finishes, the parent file of each language with exactly two variants is marked merged. */
  lemma {:induction false} MergedAllMarks(fs: Fs, langs: seq<string>, groups: map<string, seq<string>>, dump: Doc -> seq<string>)
    requires FsWf(fs)
    requires forall l, j :: l in groups && 0 <= j < |groups[l]| ==> IsVariant(groups[l][j])
    ensures var (fs', err) := MergedAll(fs, langs, groups, dump);
      err.None? ==> forall l :: l in langs && l in groups && |groups[l]| == 2 ==>
        ParentOf(groups, l) in fs' && MarkedMerged(fs'[ParentOf(groups, l)].doc)
    decreases |langs|
  {
    if |langs| > 0 {
      var init := langs[..|langs| - 1];
      var m := langs[|langs| - 1];
      MergedAllMarks(fs, init, groups, dump);
      var (before, err) := MergedAll(fs, init, groups, dump);
      if err.None? && m in groups && |groups[m]| == 2 {
        var paths := groups[m];
        var out := ParentOf(groups, m);
        MergedWrites(before, paths[0], paths[1], out, dump);
        var r := Merged(before, paths[0], paths[1], out, dump);
        if r.Success? {
          forall l | l in init && l in groups && |groups[l]| == 2
            ensures ParentOf(groups, l) in r.value && MarkedMerged(r.value[ParentOf(groups, l)].doc)
          {
            if ParentOf(groups, l) != out {
              VariantNotParent(paths[0], groups[l][0]);
              VariantNotParent(paths[1], groups[l][0]);
            }
          }
        }
      }
    }
  }

  /**
   * The merge pass: each language with exactly two variants has them merged
   * into the parent language's file; other groups are left alone.
   */
  method MergeAll(fs: Fs, langs: seq<string>, groups: map<string, seq<string>>, dump: Doc -> seq<string>)
    returns (fs': Fs, err: Option<Failure>)
    requires FsWf(fs)
    requires forall l, j :: l in groups && 0 <= j < |groups[l]| ==> IsVariant(groups[l][j])
    ensures (fs', err) == MergedAll(fs, langs, groups, dump)
    ensures FsWf(fs') && fs.Keys <= fs'.Keys <= fs.Keys + Parents(langs, groups)
  {
    MergedAllKeys(fs, langs, groups, dump);
    fs', err := fs, None;
    assert langs[..0] == [];
    for i := 0 to |langs|
      invariant MergedAll(fs, langs[..i], groups, dump) == (fs', err) && err.None?
    {
      var lang := langs[i];
      assert langs[..i + 1][..i] == langs[..i] && langs[..i + 1][i] == lang;
      if lang in groups && |groups[lang]| == 2 {
        var paths := groups[lang];
        var r := Merge(fs', paths[0], paths[1], ParentOf(groups, lang), dump);
        if r.Failure? {
          MergedAllStops(fs, langs, i + 1, groups, dump);
          return fs', Some(r.error);
        }
        fs' := r.value;
      }
    }
    assert langs[..|langs|] == langs;
  }

  lemma NonTemplatesStep(paths: seq<string>, i: nat)
    requires i < |paths|
    ensures IsTemplate(paths[i]) ==> NonTemplates(paths[..i + 1]) == NonTemplates(paths[..i])
    ensures !IsTemplate(paths[i]) ==> NonTemplates(paths[..i + 1]) == NonTemplates(paths[..i]) + [paths[i]]
  {
    assert paths[..i + 1][..i] == paths[..i];
    assert NonTemplates(paths[..i]) + [] == NonTemplates(paths[..i]);
  }

  /** Commenting one more file continues from where the pass stood. */
  lemma CommentedAllAppend(fs: Fs, done: seq<string>, p: string, templatePath: string, abspath: string -> string,
                           showTable: Dict<Scalar> -> string, parse: seq<string> -> Doc)
    ensures CommentedAll(fs, done + [p], templatePath, abspath, showTable, parse)
            == var (before, err) := CommentedAll(fs, done, templatePath, abspath, showTable, parse);
               if err.Some? then (before, err) else CommentedFile(before, p, templatePath, abspath, showTable, parse)
  {
    assert (done + [p])[..|done|] == done;
  }

  /** A comment pass that fails on a path's file stops there. */
  lemma CommentedNonTemplatesStops(fs: Fs, paths: seq<string>, i: nat, templatePath: string, abspath: string -> string,
                                   showTable: Dict<Scalar> -> string, parse: seq<string> -> Doc)
    requires i <= |paths| && CommentedAll(fs, NonTemplates(paths[..i]), templatePath, abspath, showTable, parse).1.Some?
    ensures CommentedAll(fs, NonTemplates(paths), templatePath, abspath, showTable, parse)
            == CommentedAll(fs, NonTemplates(paths[..i]), templatePath, abspath, showTable, parse)
  {
    NonTemplatesPrefix(paths, i);
    var j := |NonTemplates(paths[..i])|;
    assert NonTemplates(paths)[..j] == NonTemplates(paths[..i]);
    CommentedAllStops(fs, NonTemplates(paths), j, templatePath, abspath, showTable, parse);
  }

  /** The comment pass: comment_file on each locale file that is not the template. */
  method CommentAll(fs: Fs, paths: seq<string>, templatePath: string, abspath: string -> string,
                    showTable: Dict<Scalar> -> string, parse: seq<string> -> Doc)
    returns (fs': Fs, err: Option<Failure>)
    ensures (fs', err) == CommentedAll(fs, NonTemplates(paths), templatePath, abspath, showTable, parse)
    ensures fs'.Keys == fs.Keys
    ensures forall p :: p in fs && (p !in paths || IsTemplate(p) || p == templatePath) ==> fs'[p] == fs[p]
  {
    CommentedAllKeeps(fs, NonTemplates(paths), templatePath, abspath, showTable, parse);
    fs', err := fs, None;
    assert paths[..0] == [];
    for i := 0 to |paths|
      invariant CommentedAll(fs, NonTemplates(paths[..i]), templatePath, abspath, showTable, parse) == (fs', err) && err.None?
    {
      NonTemplatesStep(paths, i);
      if !IsTemplate(paths[i]) {
        CommentedAllAppend(fs, NonTemplates(paths[..i]), paths[i], templatePath, abspath, showTable, parse);
        fs', err := CommentFile(fs', paths[i], templatePath, abspath, showTable, parse);
        if err.Some? {
          CommentedNonTemplatesStops(fs, paths, i + 1, templatePath, abspath, showTable, parse);
          return;
        }
      }
    }
    assert paths[..|paths|] == paths;
  }

  /**
   * tame as a value: the enabled passes in the order sync, merge, comment,
   * each over the files glob lists at that point; the first error stops
   * everything.
   */
  ghost function Tamed(fs: Fs, templatePath: string, comment: bool, doMerge: bool, sync: bool, glob: Fs -> seq<string>,
                       dump: Doc -> seq<string>, abspath: string -> string, showTable: Dict<Scalar> -> string,
                       parse: seq<string> -> Doc): (Fs, Option<Failure>)
    requires FsWf(fs)
  {
    var (synced, syncErr) := if sync then SyncedAll(fs, glob(fs), templatePath, dump) else (fs, None);
    if syncErr.Some? then (synced, syncErr)
    else
      var groups := Grouping(glob(synced));
      var (merged, mergeErr) :=
        if !doMerge then (synced, None)
        else if groups.Failure? then (synced, Some(groups.error))
        else MergedAll(synced, groups.value.0, groups.value.1, dump);
      if mergeErr.Some? then (merged, mergeErr)
      else if comment then CommentedAll(merged, NonTemplates(glob(merged)), templatePath, abspath, showTable, parse)
      else (merged, None)
  }

  /**
   * tame(template_path, locale_path, comment, do_merge, sync): the enabled
   * passes run in the order sync, merge, comment, each over the files glob
   * lists at that point; the first error stops everything. No file is ever
   * removed, only merging creates files, and without merging a template whose
   * path names "template" is left as it was.
   */
  method Tame(fs: Fs, templatePath: string, comment: bool, doMerge: bool, sync: bool, glob: Fs -> seq<string>,
              dump: Doc -> seq<string>, abspath: string -> string, showTable: Dict<Scalar> -> string,
              parse: seq<string> -> Doc)
    returns (fs': Fs, err: Option<Failure>)
    requires FsWf(fs)
    ensures (fs', err) == Tamed(fs, templatePath, comment, doMerge, sync, glob, dump, abspath, showTable, parse)
    ensures fs.Keys <= fs'.Keys
    ensures !doMerge ==> fs'.Keys == fs.Keys
    ensures !doMerge && templatePath in fs && IsTemplate(templatePath) ==> fs'[templatePath] == fs[templatePath]
    ensures !sync && !doMerge && !comment ==> fs' == fs && err.None?
  {
    fs', err := fs, None;
    if sync {
      fs', err := SyncAll(fs', glob(fs'), templatePath, dump);
      if err.Some? {
        return;
      }
    }
    if doMerge {
      var groups := GroupVariants(glob(fs'));
      if groups.Failure? {
        return fs', Some(groups.error);
      }
      var (langs, byLang) := groups.value;
      fs', err := MergeAll(fs', langs, byLang, dump);
      if err.Some? {
        return;
      }
    }
    if comment {
      fs', err := CommentAll(fs', glob(fs'), templatePath, abspath, showTable, parse);
    }
  }
}
