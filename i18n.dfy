/**
 * scripts/i18n.js: the parent-language fallback used to fill the shared
 * `translation` object from the locale files, the supported-language check
 * of `switchTranslation`, and the `{x}` templating of `tr`.
 */
module I18n {
  import opened Text
  import opened Wrappers

  const DefaultLang: string := "en"

  /** The codes of arrActiveLangs, in order. */
  const ActiveLangs: seq<string> := ["auto", "en", "fr", "de", "nl", "it", "pl", "pt-pt", "pt-br", "cnr", "es-mx", "ph", "uwu"]

  /**
   * A translation.toml: its top-level strings and, when present, its ALERTS
   * table.
   */
  datatype LangFile = LangFile(strings: map<string, string>, alerts: Option<map<string, string>>)

  /** The locale files that can be imported, by code, and the template. */
  datatype Locales = Locales(files: map<string, LangFile>, template: LangFile)
  {
    /** getLanguage: a code without a locale file falls back to the template. */
    function Get(code: string): LangFile
    {
      if code in files then files[code] else template
    }
  }

  /** getParentLanguage: the text before the first '-', or the default language. */
  function ParentLanguage(code: string): (p: string)
    ensures '-' !in p
    ensures '-' in code ==> p <= code && p == code[..IndexOf(code, '-')]
    ensures '-' !in code ==> p == DefaultLang
  {
    if '-' in code then BeforeFirst(code, '-') else DefaultLang
  }

  /** Lookups left before the chain of parents reaches the default language. */
  function Depth(code: string): nat
  {
    if code == DefaultLang then 0 else if '-' in code then 2 else 1
  }

  lemma ParentIsCloser(code: string)
    requires code != DefaultLang
    ensures Depth(ParentLanguage(code)) < Depth(code)
  {
  }

  /** The languages the fallback consults, from `code` to the default language. */
  function Chain(code: string): seq<string>
  {
    if code == DefaultLang then [DefaultLang]
    else if ParentLanguage(code) == DefaultLang then [code, DefaultLang]
    else [code, ParentLanguage(code), DefaultLang]
  }

  /**
   * The chain starts at `code`, each step goes to the parent language, and it
   * ends at the default language after at most three lookups.
   */
  lemma ChainShape(code: string)
    ensures var c := Chain(code);
      0 < |c| <= 3 && c[0] == code && c[|c| - 1] == DefaultLang
      && forall i :: 0 <= i < |c| - 1 ==> c[i] != DefaultLang && c[i + 1] == ParentLanguage(c[i])
  {
    if code != DefaultLang && ParentLanguage(code) != DefaultLang {
      assert ParentLanguage(ParentLanguage(code)) == DefaultLang;
    }
  }

  lemma ChainStep(code: string)
    requires code != DefaultLang
    ensures Chain(code) == [code] + Chain(ParentLanguage(code))
  {
    var p := ParentLanguage(code);
    if p != DefaultLang {
      assert ParentLanguage(p) == DefaultLang;
    }
  }

  // ---------------------------------------------------------------- top-level keys

  /** `lang[key]` is truthy: present and not the empty string. */
  predicate HasText(loc: Locales, key: string, code: string)
  {
    key in loc.Get(code).strings && loc.Get(code).strings[key] != ""
  }

  /** The value setTranslationKey stores for `key` when switching to `code`. */
  function ResolveKey(loc: Locales, key: string, code: string): string
    decreases Depth(code)
  {
    if HasText(loc, key, code) then loc.Get(code).strings[key]
    else if code == DefaultLang then ""
    else
      ParentIsCloser(code);
      ResolveKey(loc, key, ParentLanguage(code))
  }

  /**
   * The resolved value is the first truthy value along the chain of parent
   * languages, and '' exactly when no language on the chain has one.
   */
  lemma {:induction false} ResolveKeyFirstText(loc: Locales, key: string, code: string)
    ensures var c, r := Chain(code), ResolveKey(loc, key, code);
      (r == "" <==> forall i :: 0 <= i < |c| ==> !HasText(loc, key, c[i]))
      && (r != "" ==> exists i :: 0 <= i < |c| && HasText(loc, key, c[i]) && r == loc.Get(c[i]).strings[key]
                                && forall j :: 0 <= j < i ==> !HasText(loc, key, c[j]))
    decreases Depth(code)
  {
    var c := Chain(code);
    assert c[0] == code;
    if HasText(loc, key, code) {
      assert HasText(loc, key, c[0]);
    } else if code != DefaultLang {
      var p := ParentLanguage(code);
      ParentIsCloser(code);
      ChainStep(code);
      ResolveKeyFirstText(loc, key, p);
      if ResolveKey(loc, key, p) != "" {
        var i :| 0 <= i < |Chain(p)| && HasText(loc, key, Chain(p)[i]) && ResolveKey(loc, key, p) == loc.Get(Chain(p)[i]).strings[key]
                 && forall j :: 0 <= j < i ==> !HasText(loc, key, Chain(p)[j]);
        assert c[i + 1] == Chain(p)[i] && HasText(loc, key, c[i + 1]);
        forall j | 0 <= j < i + 1
          ensures !HasText(loc, key, c[j])
        {
          if j > 0 {
            assert c[j] == Chain(p)[j - 1];
          }
        }
      } else {
        forall j | 0 <= j < |c|
          ensures !HasText(loc, key, c[j])
        {
          if j > 0 {
            assert c[j] == Chain(p)[j - 1];
          }
        }
      }
    }
  }

  // ---------------------------------------------------------------- ALERTS sub-keys

  /** `lang['ALERTS'][subKey]` is truthy. */
  predicate HasAlert(loc: Locales, subKey: string, code: string)
    requires loc.Get(code).alerts.Some?
  {
    subKey in loc.Get(code).alerts.value && loc.Get(code).alerts.value[subKey] != ""
  }

  /**
   * The value setAlertSubKey stores for `subKey`, or None when a language it
   * consults has no ALERTS table (the lookup throws and nothing is stored).
   */
  function ResolveAlert(loc: Locales, subKey: string, code: string): Option<string>
    decreases Depth(code)
  {
    if loc.Get(code).alerts.None? then None
    else if HasAlert(loc, subKey, code) then Some(loc.Get(code).alerts.value[subKey])
    else if code == DefaultLang then Some("")
    else
      ParentIsCloser(code);
      ResolveAlert(loc, subKey, ParentLanguage(code))
  }

  /**
   * When every language on the chain has an ALERTS table, a sub-key resolves
   * to the first truthy value along the chain, or to '' when there is none.
   */
  lemma {:induction false} ResolveAlertFirstText(loc: Locales, subKey: string, code: string)
    requires forall i :: 0 <= i < |Chain(code)| ==> loc.Get(Chain(code)[i]).alerts.Some?
    ensures var c, r := Chain(code), ResolveAlert(loc, subKey, code);
      r.Some?
      && (r.value == "" <==> forall i :: 0 <= i < |c| ==> !HasAlert(loc, subKey, c[i]))
      && (r.value != "" ==> exists i :: 0 <= i < |c| && HasAlert(loc, subKey, c[i]) && r.value == loc.Get(c[i]).alerts.value[subKey]
                                      && forall j :: 0 <= j < i ==> !HasAlert(loc, subKey, c[j]))
    decreases Depth(code)
  {
    var c := Chain(code);
    assert c[0] == code;
    if HasAlert(loc, subKey, code) {
      assert HasAlert(loc, subKey, c[0]);
    } else if code != DefaultLang {
      var p := ParentLanguage(code);
      ParentIsCloser(code);
      ChainStep(code);
      forall i | 0 <= i < |Chain(p)|
        ensures loc.Get(Chain(p)[i]).alerts.Some?
      {
        assert Chain(p)[i] == c[i + 1];
      }
      ResolveAlertFirstText(loc, subKey, p);
      var r := ResolveAlert(loc, subKey, p).value;
      if r != "" {
        var i :| 0 <= i < |Chain(p)| && HasAlert(loc, subKey, Chain(p)[i]) && r == loc.Get(Chain(p)[i]).alerts.value[subKey]
                 && forall j :: 0 <= j < i ==> !HasAlert(loc, subKey, Chain(p)[j]);
        assert c[i + 1] == Chain(p)[i] && HasAlert(loc, subKey, c[i + 1]);
        forall j | 0 <= j < i + 1
          ensures !HasAlert(loc, subKey, c[j])
        {
          if j > 0 {
            assert c[j] == Chain(p)[j - 1];
          }
        }
      } else {
        forall j | 0 <= j < |c|
          ensures !HasAlert(loc, subKey, c[j])
        {
          if j > 0 {
            assert c[j] == Chain(p)[j - 1];
          }
        }
      }
    }
  }

  /**
   * The ALERTS table setAlertKey leaves behind: the language's own table (it
   * is assigned, then written into), each sub-key replaced by its resolved
   * value when the resolution does not throw.
   */
  function AlertTable(loc: Locales, code: string): Option<map<string, string>>
  {
    match loc.Get(code).alerts
    case None => None
    case Some(table) => Some(AlertsPending(loc, code, table, {}))
  }

  /** The keys of the template: its strings, and 'ALERTS' when it has that table. */
  function TemplateKeys(loc: Locales): set<string>
  {
    loc.template.strings.Keys + (if loc.template.alerts.Some? then {"ALERTS"} else {})
  }

  /** `langName === 'auto' || !langName` asks the browser's negotiated language instead. */
  function Requested(langName: string, negotiated: string): string
  {
    if langName == "auto" || langName == "" then negotiated else langName
  }

  /** The ALERTS table while setAlertKey is at work: the sub-keys in `todo` still hold the language's own value. */
  function AlertsPending(loc: Locales, code: string, table: map<string, string>, todo: set<string>): map<string, string>
  {
    map k | k in table :: if k !in todo && ResolveAlert(loc, k, code).Some? then ResolveAlert(loc, k, code).value else table[k]
  }

  lemma AlertsPendingStep(loc: Locales, code: string, table: map<string, string>, todo: set<string>, subKey: string)
    requires subKey in todo && todo <= table.Keys
    ensures AlertsPending(loc, code, table, todo - {subKey})
            == match ResolveAlert(loc, subKey, code)
               case Some(v) => AlertsPending(loc, code, table, todo)[subKey := v]
               case None => AlertsPending(loc, code, table, todo)
  {
  }

  lemma AlertsPendingAll(loc: Locales, code: string, table: map<string, string>)
    ensures AlertsPending(loc, code, table, table.Keys) == table
  {
  }

  /** The values setTranslationKey stores for `keys`. */
  function Resolved(loc: Locales, code: string, keys: set<string>): map<string, string>
  {
    map k | k in keys :: ResolveKey(loc, k, code)
  }

  lemma ResolvedStep(m: map<string, string>, loc: Locales, code: string, keys: set<string>, key: string)
    ensures (m + Resolved(loc, code, keys))[key := ResolveKey(loc, key, code)] == m + Resolved(loc, code, keys + {key})
  {
  }

  /** The shared, reactive `translation` object. */
  class Translation {
    var strings: map<string, string>
    var alerts: Option<map<string, string>>

    constructor ()
      ensures strings == map[] && alerts == None
    {
      strings := map[];
      alerts := None;
    }

    /** setAlertSubKey: store the resolved sub-key into the current ALERTS table. */
    method SetAlertSubKey(loc: Locales, subKey: string, langName: string)
      requires alerts.Some?
      modifies this
      ensures strings == old(strings)
      ensures alerts == match ResolveAlert(loc, subKey, langName)
                        case Some(v) => Some(old(alerts).value[subKey := v])
                        case None => old(alerts)
      decreases Depth(langName)
    {
      var lang := loc.Get(langName);
      if lang.alerts.None? {
        // `lang['ALERTS'][subKey]` throws; the promise is never awaited and nothing is stored
        return;
      }
      var item := if subKey in lang.alerts.value then lang.alerts.value[subKey] else "";
      if item != "" {
        alerts := Some(alerts.value[subKey := item]);
      } else {
        if langName == DefaultLang {
          alerts := Some(alerts.value[subKey := ""]);
          return;
        }
        ParentIsCloser(langName);
        SetAlertSubKey(loc, subKey, ParentLanguage(langName));
      }
    }

    /** setAlertKey: take the language's ALERTS table, then resolve each of its sub-keys. */
    method SetAlertKey(loc: Locales, langName: string)
      modifies this
      ensures strings == old(strings)
      ensures alerts == AlertTable(loc, langName)
    {
      var lang := loc.Get(langName);
      alerts := lang.alerts;
      if lang.alerts.None? {
        return;
      }
      var table := lang.alerts.value;
      var todo := table.Keys;
      AlertsPendingAll(loc, langName, table);
      while todo != {}
        invariant todo <= table.Keys
        invariant strings == old(strings)
        invariant alerts == Some(AlertsPending(loc, langName, table, todo))
        decreases todo
      {
        var subKey :| subKey in todo;
        AlertsPendingStep(loc, langName, table, todo, subKey);
        SetAlertSubKey(loc, subKey, langName);
        todo := todo - {subKey};
      }
    }

    /** setTranslationKey: store the resolved value of one template key. */
    method SetTranslationKey(loc: Locales, key: string, langName: string)
      modifies this
      ensures key == "ALERTS" ==> strings == old(strings) && alerts == AlertTable(loc, langName)
      ensures key != "ALERTS" ==> strings == old(strings)[key := ResolveKey(loc, key, langName)] && alerts == old(alerts)
      decreases Depth(langName)
    {
      var lang := loc.Get(langName);
      if key == "ALERTS" {
        SetAlertKey(loc, langName);
        return;
      }
      if key in lang.strings && lang.strings[key] != "" {
        strings := strings[key := lang.strings[key]];
      } else {
        if langName == DefaultLang {
          strings := strings[key := ""];
          return;
        }
        ParentIsCloser(langName);
        SetTranslationKey(loc, key, ParentLanguage(langName));
      }
    }

    /** The loop of switchTranslation over `Object.keys(template)`. */
    method LoadKeys(loc: Locales, langName: string)
      requires "ALERTS" !in loc.template.strings
      modifies this
      ensures strings == old(strings) + Resolved(loc, langName, loc.template.strings.Keys)
      ensures alerts == if loc.template.alerts.Some? then AlertTable(loc, langName) else old(alerts)
    {
      var todo := TemplateKeys(loc);
      assert loc.template.strings.Keys - todo == {};
      assert Resolved(loc, langName, {}) == map[];
      assert old(strings) + map[] == old(strings);
      while todo != {}
        invariant todo <= TemplateKeys(loc)
        invariant strings == old(strings) + Resolved(loc, langName, loc.template.strings.Keys - todo)
        invariant alerts == if loc.template.alerts.Some? && "ALERTS" !in todo then AlertTable(loc, langName) else old(alerts)
        decreases todo
      {
        var key :| key in todo;
        if key != "ALERTS" {
          ResolvedStep(old(strings), loc, langName, loc.template.strings.Keys - todo, key);
          assert (loc.template.strings.Keys - todo) + {key} == loc.template.strings.Keys - (todo - {key});
        } else {
          assert loc.template.strings.Keys - todo == loc.template.strings.Keys - (todo - {key});
        }
        SetTranslationKey(loc, key, langName);
        todo := todo - {key};
      }
      assert loc.template.strings.Keys - todo == loc.template.strings.Keys;
    }

    /**
     * switchTranslation: a supported code loads every template key and
     * answers true; any other code loads the default language and answers
     * false. `negotiated` is the browser's choice for 'auto' or no code.
     */
    method SwitchTranslation(loc: Locales, langName: string, negotiated: string) returns (ok: bool)
      requires "ALERTS" !in loc.template.strings
      modifies this
      ensures ok <==> Requested(langName, negotiated) in ActiveLangs
      ensures var code := if ok then Requested(langName, negotiated) else DefaultLang;
        strings == old(strings) + Resolved(loc, code, loc.template.strings.Keys)
        && alerts == if loc.template.alerts.Some? then AlertTable(loc, code) else old(alerts)
      decreases if Requested(langName, negotiated) in ActiveLangs then 0 else 1
    {
      var code := Requested(langName, negotiated);
      if code in ActiveLangs {
        LoadKeys(loc, code);
        return true;
      } else {
        assert ActiveLangs[1] == DefaultLang;
        var _ := SwitchTranslation(loc, DefaultLang, negotiated);
        return false;
      }
    }
  }

  // ---------------------------------------------------------------- tr

  /** `'{' + name + '}'`. */
  function Placeholder(name: string): (p: string)
    ensures |p| >= 2
  {
    "{" + name + "}"
  }

  /** String.prototype.replaceAll with a string pattern: left to right, without overlaps. */
  function ReplaceAll(s: string, pat: string, rep: string): string
    requires |pat| > 0
    decreases |s|
  {
    if |s| == 0 then ""
    else if pat <= s then rep + ReplaceAll(s[|pat|..], pat, rep)
    else [s[0]] + ReplaceAll(s[1..], pat, rep)
  }

  /** Without an occurrence of the pattern the string is returned unchanged. */
  lemma {:induction false} ReplaceAllAbsent(s: string, pat: string, rep: string)
    requires |pat| > 0 && !HasSubstring(s, pat)
    ensures ReplaceAll(s, pat, rep) == s
    decreases |s|
  {
    if |s| > 0 {
      ReplaceAllAbsent(s[1..], pat, rep);
    }
  }

  /**
   * The text before the leftmost occurrence is kept, the occurrence is
   * replaced, and replacing resumes after it.
   */
  lemma {:induction false} ReplaceAllLeftmost(s: string, pat: string, rep: string, i: nat)
    requires |pat| > 0 && i <= |s| && pat <= s[i..]
    requires forall j :: 0 <= j < i ==> !(pat <= s[j..])
    ensures ReplaceAll(s, pat, rep) == s[..i] + rep + ReplaceAll(s[i + |pat|..], pat, rep)
    decreases i
  {
    if i > 0 {
      assert !(pat <= s[0..]) && s[0..] == s;
      var t := s[1..];
      assert t[i - 1..] == s[i..];
      forall j | 0 <= j < i - 1
        ensures !(pat <= t[j..])
      {
        assert t[j..] == s[j + 1..];
      }
      ReplaceAllLeftmost(t, pat, rep, i - 1);
      assert t[i - 1 + |pat|..] == s[i + |pat|..];
      assert s[..i] == [s[0]] + t[..i - 1];
    } else {
      assert s[..0] == "";
    }
  }

  /** tr's result: each variable's placeholder replaced in turn, in list order. */
  function Translate(message: string, variables: seq<(string, string)>): string
    decreases |variables|
  {
    if |variables| == 0 then message
    else Translate(ReplaceAll(message, Placeholder(variables[0].0), variables[0].1), variables[1..])
  }

  /** A message with none of the variables' placeholders comes back unchanged. */
  lemma {:induction false} TranslateNoPlaceholders(message: string, variables: seq<(string, string)>)
    requires forall k :: 0 <= k < |variables| ==> !HasSubstring(message, Placeholder(variables[k].0))
    ensures Translate(message, variables) == message
    decreases |variables|
  {
    if |variables| > 0 {
      ReplaceAllAbsent(message, Placeholder(variables[0].0), variables[0].1);
      TranslateNoPlaceholders(message, variables[1..]);
    }
  }

  /** tr: `message` reassigned once per variable object. */
  method Tr(message: string, variables: seq<(string, string)>) returns (r: string)
    ensures r == Translate(message, variables)
    ensures |variables| == 0 ==> r == message
  {
    r := message;
    for i := 0 to |variables|
      invariant Translate(message, variables) == Translate(r, variables[i..])
    {
      assert variables[i..][1..] == variables[i + 1..];
      r := ReplaceAll(r, Placeholder(variables[i].0), variables[i].1);
    }
  }
}
