/**
 * locale/lang-tools/add_string.py: a locale file is synced with the template,
 * every template string it lacks being added as an empty string, so that
 * translators see what is left to translate.
 */
module LocaleSync {
  import opened Wrappers
  import opened Toml
  import opened LocaleMerge
  import opened Text

  // ---------------------------------------------------------------- copy_template_internal

  /** Among `ks`, the keys copy_template_internal adds to `res`: those `res` lacks, ALERTS excepted. */
  ghost function Missing<V>(res: Dict<V>, ks: seq<string>): set<string>
  {
    set k | k in ks && k != "ALERTS" && k !in res.vals
  }

  /** The entry `blank` for each of the keys `m`. */
  ghost function Blanks<V>(m: set<string>, blank: V): map<string, V>
  {
    map k | k in m :: blank
  }

  /**
   * `res` once the template keys `ks` are visited: the missing keys are
   * appended in template order, each holding `blank`, and nothing else changes.
   */
  ghost function Synced<V>(res: Dict<V>, ks: seq<string>, blank: V): Dict<V>
  {
    var m := Missing(res, ks);
    Dict(res.keys + Only(ks, m), res.vals + Blanks(m, blank))
  }

  lemma SyncedNothing<V>(res: Dict<V>, blank: V)
    ensures Synced(res, [], blank) == res
  {
    assert Missing(res, []) == {};
    assert Blanks(Missing(res, []), blank).Keys == {};
    assert res.vals + Blanks(Missing(res, []), blank) == res.vals;
  }

  /** Whether copy_template_internal adds the key `k` to `res`. */
  predicate Adds<V>(res: Dict<V>, k: string)
  {
    k != "ALERTS" && k !in res.vals
  }

  lemma SyncedStepKeys<V>(res: Dict<V>, ks: seq<string>, k: string, blank: V)
    requires k !in ks
    ensures Synced(res, ks + [k], blank).keys == Synced(res, ks, blank).keys + (if Adds(res, k) then [k] else [])
  {
    var m, m' := Missing(res, ks), Missing(res, ks + [k]);
    OnlyAppend(ks, k, m');
    if Adds(res, k) {
      assert k in m';
      assert Only(ks, m') == Only(ks, m) by {
        assert m' == m + {k};
        OnlyCongruent(ks, m', m);
      }
    } else {
      assert k !in m';
      assert m' == m;
    }
  }

  lemma SyncedStepVals<V>(res: Dict<V>, ks: seq<string>, k: string, blank: V)
    requires k !in ks
    ensures Synced(res, ks + [k], blank).vals
            == if Adds(res, k) then Synced(res, ks, blank).vals[k := blank] else Synced(res, ks, blank).vals
  {
    var m, m' := Missing(res, ks), Missing(res, ks + [k]);
    if Adds(res, k) {
      assert m' == m + {k};
      assert Blanks(m', blank) == Blanks(m, blank)[k := blank];
    } else {
      assert m' == m;
    }
  }

  /** One more template key: it is added exactly when it is not ALERTS and not there yet. */
  lemma SyncedStep<V>(res: Dict<V>, ks: seq<string>, k: string, blank: V)
    requires k !in ks
    ensures var cur := Synced(res, ks, blank);
      Synced(res, ks + [k], blank) == if k == "ALERTS" || k in cur.vals then cur else Set(cur, k, blank)
  {
    var cur := Synced(res, ks, blank);
    assert k in cur.vals <==> k in res.vals;
    SyncedStepKeys(res, ks, k, blank);
    SyncedStepVals(res, ks, k, blank);
  }

  lemma SyncedWf<V>(res: Dict<V>, ks: seq<string>, blank: V)
    requires Wf(res) && Distinct(ks)
    ensures Wf(Synced(res, ks, blank))
  {
    var m := Missing(res, ks);
    OnlyDistinct(ks, m);
    OnlyMembers(ks, m);
    var s := res.keys + Only(ks, m);
    forall i, j | 0 <= i < j < |s|
      ensures s[i] != s[j]
    {
      if j >= |res.keys| && i < |res.keys| {
        assert s[j] in Only(ks, m);
      }
    }
  }

  /**
   * After the sync every template key but ALERTS is present, the entries
   * `res` had are unchanged, and the added ones are blank.
   */
  lemma SyncedCovers<V>(res: Dict<V>, ks: seq<string>, blank: V)
    ensures var r := Synced(res, ks, blank);
      (forall k :: k in ks && k != "ALERTS" ==> k in r.vals)
      && (forall k :: k in r.vals <==> k in res.vals || (k in ks && k != "ALERTS"))
      && (forall k :: k in res.vals ==> r.vals[k] == res.vals[k])
      && (forall k :: k in r.vals && k !in res.vals ==> r.vals[k] == blank)
      && r.keys[..|res.keys|] == res.keys
  {
    var r := Synced(res, ks, blank);
    assert r.keys[..|res.keys|] == res.keys;
  }

  /** Syncing twice with the same template is syncing once. */
  lemma SyncedIdempotent<V>(res: Dict<V>, ks: seq<string>, blank: V)
    ensures Synced(Synced(res, ks, blank), ks, blank) == Synced(res, ks, blank)
  {
    var r := Synced(res, ks, blank);
    SyncedCovers(res, ks, blank);
    assert Missing(r, ks) == {};
    OnlyNone(ks);
    assert Blanks(Missing(r, ks), blank).Keys == {};
    assert r.vals + Blanks(Missing(r, ks), blank) == r.vals;
    assert r.keys + [] == r.keys;
  }

  /** Syncing a document's top level keeps it well formed: the added values are plain strings. */
  lemma SyncedDocWf(res: Doc, ks: seq<string>)
    requires DocWf(res) && Distinct(ks)
    ensures DocWf(Synced(res, ks, BlankValue))
  {
    SyncedWf(res, ks, BlankValue);
    SyncedCovers(res, ks, BlankValue);
  }

  /**
   * copy_template_internal(res, template): each template key, in order, that
   * `res` lacks (ALERTS excepted) is set to the blank string.
   */
  method CopyTemplateInternal<V, W>(res: Dict<V>, template: Dict<W>, blank: V) returns (r: Dict<V>)
    requires Wf(template)
    ensures r == Synced(res, template.keys, blank)
  {
    var keys := template.keys;
    r := res;
    SyncedNothing(res, blank);
    assert keys[..0] == [];
    for i := 0 to |keys|
      invariant r == Synced(res, keys[..i], blank)
    {
      var k := keys[i];
      assert keys[..i + 1] == keys[..i] + [k];
      assert k !in keys[..i] by {
        forall j | 0 <= j < i
          ensures keys[j] != k
        {
        }
      }
      SyncedStep(res, keys[..i], k, blank);
      if k !in r.vals && k != "ALERTS" {
        r := Set(r, k, blank);
      }
    }
    assert keys[..|keys|] == keys;
  }

  // ---------------------------------------------------------------- copy_template

  /** The blank string, as a top-level value and as an ALERTS entry. */
  const BlankValue: Value := Plain(Str(""))
  const BlankScalar: Scalar := Str("")

  /** Every template string is present in `doc`, the ALERTS strings in its ALERTS table. */
  ghost predicate Covers(doc: Doc, template: Doc)
  {
    (forall k :: k in template.vals && k != "ALERTS" ==> k in doc.vals)
    && "ALERTS" in doc.vals && doc.vals["ALERTS"].Table?
    && ("ALERTS" in template.vals && template.vals["ALERTS"].Table? ==>
          forall k :: k in template.vals["ALERTS"].t.vals && k != "ALERTS" ==> k in doc.vals["ALERTS"].t.vals)
  }

  /** The file is marked as a merge output: `info.merged` is truthy. */
  predicate IsMergedFile(d: Doc)
  {
    "info" in d.vals && d.vals["info"].Table? && "merged" in d.vals["info"].t.vals
    && ScalarTruthy(d.vals["info"].t.vals["merged"])
  }

  /**
   * copy_template(file_path, template_path): the template is loaded, the
   * file unmerged; a file marked merged is left alone; otherwise the missing
   * strings and ALERTS strings are added and the file is written.
   */
  ghost function CopiedTemplate(fs: Fs, filePath: string, templatePath: string, dump: Doc -> seq<string>): Result<Fs, Failure>
    requires FsWf(fs)
  {
    var loaded := Load(fs, templatePath);
    var unmerged := Unmerged(fs, filePath);
    if loaded.Failure? then Failure(loaded.error)
    else if unmerged.Failure? then Failure(unmerged.error)
    else
      var locale := unmerged.value;
      if "info" in locale.vals && !locale.vals["info"].Table? then Failure(NotATable("info"))
      else if "info" in locale.vals && "merged" !in locale.vals["info"].t.vals then Failure(KeyError("merged"))
      else if "info" in locale.vals && ScalarTruthy(locale.vals["info"].t.vals["merged"]) then Success(fs)
      else
        var synced := SyncedDoc(locale, loaded.value);
        if synced.Failure? then Failure(synced.error) else Success(Write(fs, filePath, synced.value, dump))
  }

  /**
   * What copy_template does to the files: a missing template is reported, a
   * file whose unmerged contents are marked merged is left alone, and any
   * other successful run rewrites only the file, which then holds every
   * template string and ALERTS string.
   */
  lemma CopiedTemplateSpec(fs: Fs, filePath: string, templatePath: string, dump: Doc -> seq<string>)
    requires FsWf(fs)
    ensures var r := CopiedTemplate(fs, filePath, templatePath, dump);
      && (templatePath !in fs ==> r == Failure(FileNotFound(templatePath)))
      && (r.Success? ==> filePath in fs && templatePath in fs && r.value.Keys == fs.Keys && FsWf(r.value))
      && (templatePath in fs && Unmerged(fs, filePath).Success? && IsMergedFile(Unmerged(fs, filePath).value) ==> r == Success(fs))
      && (r.Success? && r.value != fs ==>
            var d := r.value[filePath].doc;
            Covers(d, fs[templatePath].doc) && r.value == fs[filePath := File(d, dump(d))])
  {
    UnmergedSpec(fs, filePath);
    var r := CopiedTemplate(fs, filePath, templatePath, dump);
    if r.Success? && r.value != fs {
      var locale := Unmerged(fs, filePath).value;
      SyncedDocSpec(locale, fs[templatePath].doc);
      var synced := SyncedDoc(locale, fs[templatePath].doc).value;
      WriteWf(fs, filePath, synced, dump);
      assert r.value[filePath].doc.vals == synced.vals;
    }
  }

  /** A file that is not a variant with an overlaid parent, and is marked merged, is left alone. */
  lemma CopiedTemplateSkipsMerged(fs: Fs, filePath: string, templatePath: string, dump: Doc -> seq<string>)
    requires FsWf(fs)
    ensures var p := Split(filePath, '/');
      (templatePath in fs && filePath in fs && |p| >= 2 && ('-' !in p[|p| - 2] || ParentFile(p) !in fs)
       && IsMergedFile(fs[filePath].doc)) ==> CopiedTemplate(fs, filePath, templatePath, dump) == Success(fs)
  {
    UnmergedSpec(fs, filePath);
    CopiedTemplateSpec(fs, filePath, templatePath, dump);
  }

  /** copy_template, step by step as the script runs it. */
  method CopyTemplate(fs: Fs, filePath: string, templatePath: string, dump: Doc -> seq<string>) returns (r: Result<Fs, Failure>)
    requires FsWf(fs)
    ensures r == CopiedTemplate(fs, filePath, templatePath, dump)
    ensures templatePath !in fs ==> r == Failure(FileNotFound(templatePath))
    ensures r.Success? ==> filePath in fs && templatePath in fs && r.value.Keys == fs.Keys && FsWf(r.value)
    ensures r.Success? && r.value != fs ==>
      var d := r.value[filePath].doc;
      Covers(d, fs[templatePath].doc) && r.value == fs[filePath := File(d, dump(d))]
  {
    CopiedTemplateSpec(fs, filePath, templatePath, dump);
    var loaded := Load(fs, templatePath);
    if loaded.Failure? {
      return Failure(loaded.error);
    }
    var template := loaded.value;
    var unmerged := Unmerge(fs, filePath);
    if unmerged.Failure? {
      return Failure(unmerged.error);
    }
    var locale := unmerged.value;
    if "info" in locale.vals {
      if !locale.vals["info"].Table? {
        return Failure(NotATable("info"));
      }
      var info := locale.vals["info"].t;
      if "merged" !in info.vals {
        return Failure(KeyError("merged"));
      }
      if ScalarTruthy(info.vals["merged"]) {
        return Success(fs);
      }
    }
    var synced := SyncDoc(locale, template);
    if synced.Failure? {
      return Failure(synced.error);
    }
    r := Success(Write(fs, filePath, synced.value, dump));
  }

  /**
   * The sync of copy_template on a loaded document: the top-level strings,
   * then an ALERTS table (added when missing) and its strings. The template
   * must have an ALERTS table.
   */
  ghost function SyncedDoc(locale: Doc, template: Doc): Result<Doc, Failure>
  {
    var top := Synced(locale, template.keys, BlankValue);
    var doc := if "ALERTS" !in top.vals then Set(top, "ALERTS", Table(EmptyDict())) else top;
    if "ALERTS" !in template.vals then Failure(KeyError("ALERTS"))
    else if !doc.vals["ALERTS"].Table? || !template.vals["ALERTS"].Table? then Failure(NotATable("ALERTS"))
    else Success(Set(doc, "ALERTS", Table(Synced(doc.vals["ALERTS"].t, template.vals["ALERTS"].t.keys, BlankScalar))))
  }

  /** The sync fails exactly when the template lacks an ALERTS table or the file's ALERTS is no table; otherwise it covers the template. */
  lemma SyncedDocSpec(locale: Doc, template: Doc)
    requires DocWf(locale) && DocWf(template)
    ensures var r := SyncedDoc(locale, template);
      && (r.Failure? <==> "ALERTS" !in template.vals || !template.vals["ALERTS"].Table?
                          || ("ALERTS" in locale.vals && !locale.vals["ALERTS"].Table?))
      && (r.Success? ==> Covers(r.value, template) && DocWf(r.value))
  {
    var top := Synced(locale, template.keys, BlankValue);
    SyncedDocWf(locale, template.keys);
    SyncedCovers(locale, template.keys, BlankValue);
    var doc := top;
    if "ALERTS" !in top.vals {
      SetTableWf(top, "ALERTS", EmptyDict());
      doc := Set(top, "ALERTS", Table(EmptyDict()));
    }
    if "ALERTS" in template.vals && doc.vals["ALERTS"].Table? && template.vals["ALERTS"].Table? {
      var alerts := doc.vals["ALERTS"].t;
      SyncedCovers(alerts, template.vals["ALERTS"].t.keys, BlankScalar);
      SyncedWf(alerts, template.vals["ALERTS"].t.keys, BlankScalar);
      SetTableWf(doc, "ALERTS", Synced(alerts, template.vals["ALERTS"].t.keys, BlankScalar));
      assert forall k :: k in top.vals ==> k in doc.vals;
    }
  }

  /** copy_template's sync, step by step. */
  method SyncDoc(locale: Doc, template: Doc) returns (r: Result<Doc, Failure>)
    requires DocWf(locale) && DocWf(template)
    ensures r == SyncedDoc(locale, template)
    ensures r.Failure? <==> "ALERTS" !in template.vals || !template.vals["ALERTS"].Table?
                            || ("ALERTS" in locale.vals && !locale.vals["ALERTS"].Table?)
    ensures r.Success? ==> Covers(r.value, template) && DocWf(r.value)
  {
    SyncedDocSpec(locale, template);
    var doc := CopyTemplateInternal(locale, template, BlankValue);
    if "ALERTS" !in doc.vals {
      doc := Set(doc, "ALERTS", Table(EmptyDict()));
    }
    if "ALERTS" !in template.vals {
      return Failure(KeyError("ALERTS"));
    }
    if !doc.vals["ALERTS"].Table? || !template.vals["ALERTS"].Table? {
      return Failure(NotATable("ALERTS"));
    }
    var alerts := CopyTemplateInternal(doc.vals["ALERTS"].t, template.vals["ALERTS"].t, BlankScalar);
    doc := Set(doc, "ALERTS", Table(alerts));
    return Success(doc);
  }
}
