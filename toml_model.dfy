/**
 * The locale files as the lang-tools scripts see them: a parsed TOML file is
 * a Python dict (insertion-ordered), whose values are strings, booleans or
 * one level of tables (ALERTS, info). The file system maps a path to its
 * parsed document and its text lines; `toml.dump` is a parameter.
 */
module Toml {
  import opened Wrappers

  datatype Scalar = Str(s: string) | Flag(b: bool)

  datatype Value = Plain(v: Scalar) | Table(t: Dict<Scalar>)

  /** A Python dict: its keys in insertion order and its contents. */
  datatype Dict<V> = Dict(keys: seq<string>, vals: map<string, V>)

  type Doc = Dict<Value>

  function EmptyDict<V>(): Dict<V>
  {
    Dict([], map[])
  }

  ghost predicate Distinct(s: seq<string>)
  {
    forall i, j :: 0 <= i < j < |s| ==> s[i] != s[j]
  }

  /** The key order lists each key of the contents exactly once. */
  ghost predicate Wf<V>(d: Dict<V>)
  {
    Distinct(d.keys) && forall k :: k in d.vals <==> k in d.keys
  }

  /** A parsed document: the dict and each of its tables are well formed. */
  ghost predicate DocWf(d: Doc)
  {
    Wf(d) && forall k :: k in d.vals && d.vals[k].Table? ==> Wf(d.vals[k].t)
  }

  // ---------------------------------------------------------------- key lists

  /** `s` without the members of `ks`, in order. */
  function Without(s: seq<string>, ks: set<string>): seq<string>
  {
    if |s| == 0 then [] else (if s[0] in ks then [] else [s[0]]) + Without(s[1..], ks)
  }

  /** `s` restricted to the members of `ks`, in order. */
  function Only(s: seq<string>, ks: set<string>): seq<string>
  {
    if |s| == 0 then [] else Only(s[..|s| - 1], ks) + (if s[|s| - 1] in ks then [s[|s| - 1]] else [])
  }

  lemma {:induction false} WithoutMembers(s: seq<string>, ks: set<string>)
    ensures forall x :: x in Without(s, ks) <==> x in s && x !in ks
    decreases |s|
  {
    if |s| > 0 {
      WithoutMembers(s[1..], ks);
      assert forall x :: x in s <==> x == s[0] || x in s[1..];
    }
  }

  lemma {:induction false} OnlyMembers(s: seq<string>, ks: set<string>)
    ensures forall x :: x in Only(s, ks) <==> x in s && x in ks
    decreases |s|
  {
    if |s| > 0 {
      var init := s[..|s| - 1];
      OnlyMembers(init, ks);
      assert s == init + [s[|s| - 1]];
      assert forall x :: x in s <==> x in init || x == s[|s| - 1];
    }
  }

  lemma {:induction false} WithoutDistinct(s: seq<string>, ks: set<string>)
    requires Distinct(s)
    ensures Distinct(Without(s, ks))
    decreases |s|
  {
    if |s| > 0 {
      WithoutDistinct(s[1..], ks);
      WithoutMembers(s[1..], ks);
    }
  }

  lemma {:induction false} OnlyDistinct(s: seq<string>, ks: set<string>)
    requires Distinct(s)
    ensures Distinct(Only(s, ks))
    decreases |s|
  {
    if |s| > 0 {
      OnlyDistinct(s[..|s| - 1], ks);
      OnlyMembers(s[..|s| - 1], ks);
    }
  }

  lemma {:induction false} WithoutUnion(s: seq<string>, a: set<string>, b: set<string>)
    ensures Without(Without(s, a), b) == Without(s, a + b)
    decreases |s|
  {
    if |s| > 0 {
      WithoutUnion(s[1..], a, b);
      var tail := Without(s[1..], a);
      if s[0] in a {
        assert Without(s, a) == tail;
      } else {
        var w := Without(s, a);
        assert w == [s[0]] + tail;
        assert w[0] == s[0] && w[1..] == tail;
        assert Without(w, b) == (if s[0] in b then [] else [s[0]]) + Without(tail, b);
      }
    }
  }

  /** Removing keys that are not there changes nothing. */
  lemma {:induction false} WithoutAbsent(s: seq<string>, ks: set<string>)
    requires forall x :: x in ks ==> x !in s
    ensures Without(s, ks) == s
    decreases |s|
  {
    if |s| > 0 {
      WithoutAbsent(s[1..], ks);
    }
  }

  lemma {:induction false} OnlyCongruent(s: seq<string>, a: set<string>, b: set<string>)
    requires forall x :: x in s ==> (x in a <==> x in b)
    ensures Only(s, a) == Only(s, b)
    decreases |s|
  {
    if |s| > 0 {
      OnlyCongruent(s[..|s| - 1], a, b);
    }
  }

  lemma {:induction false} OnlyNone(s: seq<string>)
    ensures Only(s, {}) == []
    decreases |s|
  {
    if |s| > 0 {
      OnlyNone(s[..|s| - 1]);
    }
  }

  lemma OnlyAppend(s: seq<string>, x: string, ks: set<string>)
    ensures Only(s + [x], ks) == Only(s, ks) + (if x in ks then [x] else [])
  {
    assert (s + [x])[..|s|] == s;
  }

  lemma DistinctConcat(s: seq<string>, t: seq<string>)
    requires Distinct(s) && Distinct(t) && forall x :: x in s ==> x !in t
    ensures Distinct(s + t)
  {
    forall i, j | 0 <= i < j < |s + t|
      ensures (s + t)[i] != (s + t)[j]
    {
      if j >= |s| && i < |s| {
        assert (s + t)[i] in s && (s + t)[j] in t;
      }
    }
  }

  // ---------------------------------------------------------------- dict operations

  /** `d[k] = v`: an existing key keeps its place, a new one goes last. */
  function Set<V>(d: Dict<V>, k: string, v: V): Dict<V>
  {
    if k in d.vals then Dict(d.keys, d.vals[k := v]) else Dict(d.keys + [k], d.vals[k := v])
  }

  /** `del d[k]` for a present key. */
  function Del<V>(d: Dict<V>, k: string): Dict<V>
  {
    Dict(Without(d.keys, {k}), d.vals - {k})
  }

  lemma SetWf<V>(d: Dict<V>, k: string, v: V)
    requires Wf(d)
    ensures Wf(Set(d, k, v))
  {
  }

  lemma DelWf<V>(d: Dict<V>, k: string)
    requires Wf(d)
    ensures Wf(Del(d, k))
  {
    WithoutDistinct(d.keys, {k});
    WithoutMembers(d.keys, {k});
  }

  /** Setting a key of a document to a well-formed table keeps the document well formed. */
  lemma SetTableWf(d: Doc, k: string, t: Dict<Scalar>)
    requires DocWf(d) && Wf(t)
    ensures DocWf(Set(d, k, Table(t)))
  {
  }

  /** `d` with the keys `ks` deleted. */
  function Deleted<V>(d: Dict<V>, ks: set<string>): Dict<V>
  {
    Dict(Without(d.keys, ks), d.vals - ks)
  }

  lemma DeletedNone<V>(d: Dict<V>)
    ensures Deleted(d, {}) == d
  {
    WithoutAbsent(d.keys, {});
    assert d.vals - {} == d.vals;
  }

  lemma DeletedMore<V>(d: Dict<V>, ks: set<string>, k: string)
    ensures Del(Deleted(d, ks), k) == Deleted(d, ks + {k})
  {
    WithoutUnion(d.keys, ks, {k});
    assert d.vals - ks - {k} == d.vals - (ks + {k});
  }

  lemma DeletedWf<V>(d: Dict<V>, ks: set<string>)
    requires Wf(d)
    ensures Wf(Deleted(d, ks))
  {
    WithoutDistinct(d.keys, ks);
    WithoutMembers(d.keys, ks);
  }

  /** `d.update(e)`: each of `keys` (with its value in `vals`) set in turn. */
  function UpdateWith<V>(d: Dict<V>, keys: seq<string>, vals: map<string, V>): Dict<V>
    requires forall k :: k in keys ==> k in vals
    decreases |keys|
  {
    if |keys| == 0 then d else UpdateWith(Set(d, keys[0], vals[keys[0]]), keys[1..], vals)
  }

  function Update<V>(d: Dict<V>, e: Dict<V>): Dict<V>
    requires Wf(e)
  {
    UpdateWith(d, e.keys, e.vals)
  }

  lemma {:induction false} UpdateWithWf<V>(d: Dict<V>, keys: seq<string>, vals: map<string, V>)
    requires Wf(d) && forall k :: k in keys ==> k in vals
    ensures Wf(UpdateWith(d, keys, vals))
    decreases |keys|
  {
    if |keys| > 0 {
      SetWf(d, keys[0], vals[keys[0]]);
      UpdateWithWf(Set(d, keys[0], vals[keys[0]]), keys[1..], vals);
    }
  }

  lemma {:induction false} UpdateWithKeys<V>(d: Dict<V>, keys: seq<string>, vals: map<string, V>)
    requires Distinct(keys) && forall k :: k in keys ==> k in vals
    ensures UpdateWith(d, keys, vals).keys == d.keys + Without(keys, d.vals.Keys)
    decreases |keys|
  {
    if |keys| > 0 {
      var k, rest := keys[0], keys[1..];
      var d' := Set(d, k, vals[k]);
      assert UpdateWith(d, keys, vals) == UpdateWith(d', rest, vals);
      UpdateWithKeys(d', rest, vals);
      if k !in d.vals {
        assert k !in rest;
        assert d'.keys == d.keys + [k] && d'.vals.Keys == d.vals.Keys + {k};
        assert keys == [k] + rest;
        NewKeyOrder(d.keys, d.vals.Keys, k, rest);
      } else {
        assert Without(keys, d.vals.Keys) == Without(rest, d.vals.Keys);
        assert d'.vals.Keys == d.vals.Keys;
      }
    }
  }

  /** A new key goes after the existing keys and before the later new ones. */
  lemma NewKeyOrder(keys: seq<string>, present: set<string>, k: string, rest: seq<string>)
    requires k !in present && k !in rest
    ensures (keys + [k]) + Without(rest, present + {k}) == keys + Without([k] + rest, present)
  {
    assert ([k] + rest)[0] == k && ([k] + rest)[1..] == rest;
    assert Without([k] + rest, present) == [k] + Without(rest, present);
    WithoutUnion(rest, present, {k});
    WithoutMembers(rest, present);
    WithoutAbsent(Without(rest, present), {k});
  }

  /** The entries of `vals` for the keys `keys`. */
  function Entries<V>(keys: seq<string>, vals: map<string, V>): map<string, V>
    requires forall k :: k in keys ==> k in vals
  {
    map k | k in keys :: vals[k]
  }

  lemma EntriesStep<V>(keys: seq<string>, vals: map<string, V>)
    requires |keys| > 0 && forall k :: k in keys ==> k in vals
    ensures Entries(keys, vals) == Entries(keys[1..], vals)[keys[0] := vals[keys[0]]]
  {
    assert forall x :: x in keys <==> x == keys[0] || x in keys[1..];
  }

  /** All of a well-formed dict's entries. */
  lemma EntriesAll<V>(e: Dict<V>)
    requires Wf(e)
    ensures Entries(e.keys, e.vals) == e.vals
  {
  }

  lemma MapUpdateMerge<V>(a: map<string, V>, b: map<string, V>, k: string, v: V)
    requires k !in b
    ensures a[k := v] + b == a + b[k := v]
  {
  }

  lemma {:induction false} UpdateWithVals<V>(d: Dict<V>, keys: seq<string>, vals: map<string, V>)
    requires Distinct(keys) && forall k :: k in keys ==> k in vals
    ensures UpdateWith(d, keys, vals).vals == d.vals + Entries(keys, vals)
    decreases |keys|
  {
    if |keys| == 0 {
      assert Entries(keys, vals).Keys == {};
      assert d.vals + Entries(keys, vals) == d.vals;
    } else {
      var k, rest := keys[0], keys[1..];
      var d' := Set(d, k, vals[k]);
      assert UpdateWith(d, keys, vals) == UpdateWith(d', rest, vals);
      UpdateWithVals(d', rest, vals);
      EntriesStep(keys, vals);
      assert k !in rest;
      MapUpdateMerge(d.vals, Entries(rest, vals), k, vals[k]);
    }
  }

  /**
   * `d.update(e)` keeps `d`'s keys in place, appends `e`'s new keys in
   * order, and `e`'s values win.
   */
  lemma UpdateSpec<V>(d: Dict<V>, e: Dict<V>)
    requires Wf(d) && Wf(e)
    ensures var r := Update(d, e);
      Wf(r) && r.keys == d.keys + Without(e.keys, d.vals.Keys) && r.vals == d.vals + e.vals
  {
    UpdateWithWf(d, e.keys, e.vals);
    UpdateWithKeys(d, e.keys, e.vals);
    UpdateWithVals(d, e.keys, e.vals);
    EntriesAll(e);
  }

  // ---------------------------------------------------------------- Python values

  /** Python truthiness of a table entry. */
  predicate ScalarTruthy(v: Scalar)
  {
    match v
    case Str(s) => s != ""
    case Flag(b) => b
  }

  /** Python `==` on values: tables compare their contents, not their order. */
  predicate ValueEq(a: Value, b: Value)
  {
    match (a, b)
    case (Plain(x), Plain(y)) => x == y
    case (Table(x), Table(y)) => x.vals == y.vals
    case _ => false
  }

  predicate IsBlank(v: Value)
  {
    v == Plain(Str(""))
  }

  predicate ScalarEq(a: Scalar, b: Scalar)
  {
    a == b
  }

  predicate ScalarBlank(v: Scalar)
  {
    v == Str("")
  }

  // ---------------------------------------------------------------- files

  /** A file on disk: what `toml.load` reads from it, and its text lines. */
  datatype File = File(doc: Doc, lines: seq<string>)

  type Fs = map<string, File>

  ghost predicate FsWf(fs: Fs)
  {
    forall p :: p in fs ==> DocWf(fs[p].doc)
  }

  /** The Python exceptions the scripts can raise. */
  datatype Failure =
    | FileNotFound(path: string)
    | KeyError(key: string)
    | OutOfOrder(key1: string, key2: string)
    | NoLanguageDirectory(path: string)
    | NotATable(key: string)

  /** `toml.load(path)`. */
  function Load(fs: Fs, path: string): (r: Result<Doc, Failure>)
    ensures r.Success? <==> path in fs
    ensures FsWf(fs) && r.Success? ==> DocWf(r.value)
  {
    if path in fs then Success(fs[path].doc) else Failure(FileNotFound(path))
  }

  /** The keys of `d` that hold tables. */
  function TableKeys(d: Doc): set<string>
  {
    set k | k in d.vals && d.vals[k].Table?
  }

  /**
   * What `toml.load` reads back from the text `toml.dump` writes for `d`: the
   * library writes the plain values first and the tables after them, each
   * group in dict order, so the contents are kept and the tables move last.
   */
  function Dumped(d: Doc): (r: Doc)
    ensures r.vals == d.vals
  {
    Dict(Without(d.keys, TableKeys(d)) + Only(d.keys, TableKeys(d)), d.vals)
  }

  /** Dumping keeps a document well formed. */
  lemma DumpedWf(d: Doc)
    requires DocWf(d)
    ensures DocWf(Dumped(d))
  {
    var s, t := Without(d.keys, TableKeys(d)), Only(d.keys, TableKeys(d));
    WithoutDistinct(d.keys, TableKeys(d));
    WithoutMembers(d.keys, TableKeys(d));
    OnlyDistinct(d.keys, TableKeys(d));
    OnlyMembers(d.keys, TableKeys(d));
    DistinctConcat(s, t);
  }

  /** A dumped document lists no table before a plain value, and dumping it again changes nothing. */
  lemma DumpedOrder(d: Doc)
    ensures var ks := Dumped(d).keys;
      forall i, j :: 0 <= i < j < |ks| && ks[i] in TableKeys(d) ==> ks[j] in TableKeys(d)
    ensures Dumped(Dumped(d)) == Dumped(d)
  {
    var s, t := Without(d.keys, TableKeys(d)), Only(d.keys, TableKeys(d));
    WithoutMembers(d.keys, TableKeys(d));
    OnlyMembers(d.keys, TableKeys(d));
    var ks := s + t;
    forall i, j | 0 <= i < j < |ks| && ks[i] in TableKeys(d)
      ensures ks[j] in TableKeys(d)
    {
      if j >= |s| {
        assert ks[j] == t[j - |s|] && t[j - |s|] in t;
      }
    }
    WithoutAfter(s, t, TableKeys(d));
    OnlyAfter(s, t, TableKeys(d));
  }

  /** Writing a well-formed document changes that one file and keeps the files well formed. */
  lemma WriteWf(fs: Fs, path: string, doc: Doc, dump: Doc -> seq<string>)
    requires FsWf(fs) && DocWf(doc)
    ensures var r := Write(fs, path, doc, dump);
      FsWf(r) && r[path].doc.vals == doc.vals && r[path].lines == dump(r[path].doc)
      && forall q :: q in fs && q != path ==> r[q] == fs[q]
  {
    DumpedWf(doc);
  }

  /** A list whose members of `ks` all come last splits into its other members, then its members of `ks`. */
  lemma {:induction false} WithoutAfter(s: seq<string>, t: seq<string>, ks: set<string>)
    requires forall x :: x in s ==> x !in ks
    requires forall x :: x in t ==> x in ks
    ensures Without(s + t, ks) == s
    decreases |s|
  {
    if |s| > 0 {
      assert (s + t)[1..] == s[1..] + t;
      WithoutAfter(s[1..], t, ks);
    } else {
      assert s + t == t;
      WithoutAbsentAll(t, ks);
    }
  }

  lemma {:induction false} WithoutAbsentAll(t: seq<string>, ks: set<string>)
    requires forall x :: x in t ==> x in ks
    ensures Without(t, ks) == []
    decreases |t|
  {
    if |t| > 0 {
      WithoutAbsentAll(t[1..], ks);
    }
  }

  lemma {:induction false} OnlyAfter(s: seq<string>, t: seq<string>, ks: set<string>)
    requires forall x :: x in s ==> x !in ks
    requires forall x :: x in t ==> x in ks
    ensures Only(s + t, ks) == t
    decreases |t|
  {
    if |t| > 0 {
      var init := t[..|t| - 1];
      assert (s + t)[..|s + t| - 1] == s + init;
      OnlyAfter(s, init, ks);
      assert t == init + [t[|t| - 1]];
    } else {
      assert s + t == s;
      OnlyNoneOf(s, ks);
    }
  }

  lemma {:induction false} OnlyNoneOf(s: seq<string>, ks: set<string>)
    requires forall x :: x in s ==> x !in ks
    ensures Only(s, ks) == []
    decreases |s|
  {
    if |s| > 0 {
      OnlyNoneOf(s[..|s| - 1], ks);
    }
  }

  /** `toml.dump(doc, open(path, 'w'))`: the file holds the text `dump` of the library and reads back as `Dumped(doc)`. */
  function Write(fs: Fs, path: string, doc: Doc, dump: Doc -> seq<string>): (r: Fs)
    ensures r.Keys == fs.Keys + {path}
    ensures Load(r, path) == Success(Dumped(doc))
  {
    fs[path := File(Dumped(doc), dump(Dumped(doc)))]
  }
}
