/**
 * locale/lang-tools/merge.py: two regional variants of a language (say
 * es-mx and es-ar) are merged into their parent language's file. Strings the
 * two agree on move into the parent; the rest stay in the variants.
 */
module LocaleMerge {
  import opened Wrappers
  import opened Text
  import opened Toml

  // ---------------------------------------------------------------- merge_internal

  /** Among the pairs `ks`, the keys whose values merge_internal moves into `res`. */
  ghost function Agreed<V>(o1: Dict<V>, o2: Dict<V>, ks: seq<string>, same: (V, V) -> bool, blank: V -> bool): set<string>
  {
    set k | k in ks && k != "ALERTS" && k in o1.vals && k in o2.vals
            && !blank(o1.vals[k]) && !blank(o2.vals[k]) && same(o1.vals[k], o2.vals[k])
  }

  /** Among the pairs `ks`, the keys whose differing values merge_internal removes from `res`. */
  ghost function Disagreed<V>(o1: Dict<V>, o2: Dict<V>, ks: seq<string>, same: (V, V) -> bool, blank: V -> bool): set<string>
  {
    set k | k in ks && k != "ALERTS" && k in o1.vals && k in o2.vals
            && !blank(o1.vals[k]) && !blank(o2.vals[k]) && !same(o1.vals[k], o2.vals[k])
  }

  /**
   * `res` after the pairs `ks` are handled, `a` being the agreed keys and `d`
   * the disagreed ones: disagreed keys are gone, agreed keys hold `src`'s
   * value, and an agreed key `res` did not have goes last, in pair order.
   */
  ghost function Received<V>(res: Dict<V>, src: map<string, V>, ks: seq<string>, a: set<string>, d: set<string>): Dict<V>
  {
    Dict(Without(res.keys, d) + Only(ks, a - res.vals.Keys), (res.vals - d) + Picked(src, a))
  }

  /** The entries of `src` for the keys `a`. */
  ghost function Picked<V>(src: map<string, V>, a: set<string>): map<string, V>
  {
    map k | k in a && k in src :: src[k]
  }

  /**
   * obj1, obj2 and res once the key pairs `ks` are handled: agreed keys are
   * gone from both inputs and set in `res`, disagreed keys are gone from
   * `res`, everything else is as it was.
   */
  ghost function MergedUpTo<V>(o1: Dict<V>, o2: Dict<V>, res: Dict<V>, ks: seq<string>, same: (V, V) -> bool, blank: V -> bool)
    : (Dict<V>, Dict<V>, Dict<V>)
  {
    var a, d := Agreed(o1, o2, ks, same, blank), Disagreed(o1, o2, ks, same, blank);
    (Deleted(o1, a), Deleted(o2, a), Received(res, o1.vals, ks, a, d))
  }

  /** Where the zipped key orders first differ, or the number of pairs when they never do. */
  function FirstMismatch(k1: seq<string>, k2: seq<string>): (m: nat)
    ensures m <= |k1| && m <= |k2|
    ensures forall i :: 0 <= i < m ==> k1[i] == k2[i]
    ensures m < |k1| && m < |k2| ==> k1[m] != k2[m]
  {
    if |k1| == 0 || |k2| == 0 || k1[0] != k2[0] then 0 else 1 + FirstMismatch(k1[1..], k2[1..])
  }

  lemma AgreedStep<V>(o1: Dict<V>, o2: Dict<V>, ks: seq<string>, k: string, same: (V, V) -> bool, blank: V -> bool)
    requires k in o1.vals && k in o2.vals
    ensures var moves := k != "ALERTS" && !blank(o1.vals[k]) && !blank(o2.vals[k]);
      Agreed(o1, o2, ks + [k], same, blank)
        == Agreed(o1, o2, ks, same, blank) + (if moves && same(o1.vals[k], o2.vals[k]) then {k} else {})
      && Disagreed(o1, o2, ks + [k], same, blank)
        == Disagreed(o1, o2, ks, same, blank) + (if moves && !same(o1.vals[k], o2.vals[k]) then {k} else {})
  {
    assert forall x :: x in ks + [k] <==> x in ks || x == k;
  }

  lemma ReceivedNone<V>(res: Dict<V>, src: map<string, V>)
    ensures Received(res, src, [], {}, {}) == res
  {
    DeletedNone(res);
    assert Only([], {}) == [];
    assert res.keys + [] == res.keys;
    assert Picked(src, {}).Keys == {};
  }

  lemma ReceivedSkip<V>(res: Dict<V>, src: map<string, V>, ks: seq<string>, a: set<string>, d: set<string>, k: string)
    requires k !in a
    ensures Received(res, src, ks + [k], a, d) == Received(res, src, ks, a, d)
  {
    OnlyAppend(ks, k, a - res.vals.Keys);
  }

  lemma ReceivedMove<V>(res: Dict<V>, src: map<string, V>, ks: seq<string>, a: set<string>, d: set<string>, k: string)
    requires k !in ks && k !in a && k !in d && k in src
    ensures Received(res, src, ks + [k], a + {k}, d) == Set(Received(res, src, ks, a, d), k, src[k])
  {
    var r := Received(res, src, ks, a, d);
    assert k in r.vals <==> k in res.vals;
    ReceivedMoveKeys(res, ks, a, d, k);
    ReceivedMoveVals(res, src, a, d, k);
  }

  lemma ReceivedMoveKeys<V>(res: Dict<V>, ks: seq<string>, a: set<string>, d: set<string>, k: string)
    requires k !in ks && k !in a
    ensures Only(ks + [k], a + {k} - res.vals.Keys)
            == Only(ks, a - res.vals.Keys) + if k in res.vals then [] else [k]
  {
    OnlyAppend(ks, k, a + {k} - res.vals.Keys);
    OnlyCongruent(ks, a + {k} - res.vals.Keys, a - res.vals.Keys);
  }

  lemma ReceivedMoveVals<V>(res: Dict<V>, src: map<string, V>, a: set<string>, d: set<string>, k: string)
    requires k in src
    ensures (res.vals - d) + Picked(src, a + {k}) == ((res.vals - d) + Picked(src, a))[k := src[k]]
  {
    assert Picked(src, a + {k}) == Picked(src, a)[k := src[k]];
  }

  lemma ReceivedDropKeys<V>(res: Dict<V>, src: map<string, V>, ks: seq<string>, a: set<string>, d: set<string>, k: string)
    requires k !in ks && k !in a && k !in d
    ensures var base := Without(res.keys, d) + Only(ks, a - res.vals.Keys);
      Without(res.keys, d + {k}) + Only(ks + [k], a - res.vals.Keys)
        == if k in res.keys then Without(base, {k}) else base
  {
    var tail := Only(ks, a - res.vals.Keys);
    OnlyAppend(ks, k, a - res.vals.Keys);
    assert Only(ks + [k], a - res.vals.Keys) == tail;
    OnlyMembers(ks, a - res.vals.Keys);
    WithoutUnion(res.keys, d, {k});
    if k in res.keys {
      WithoutAbsent(tail, {k});
      WithoutAppend(Without(res.keys, d), tail, {k});
    } else {
      WithoutMembers(res.keys, d);
      WithoutAbsent(Without(res.keys, d), {k});
    }
  }

  lemma ReceivedDrop<V>(res: Dict<V>, src: map<string, V>, ks: seq<string>, a: set<string>, d: set<string>, k: string)
    requires Wf(res) && k !in ks && k !in a && k !in d
    ensures var r := Received(res, src, ks, a, d);
      (k in r.vals <==> k in res.vals)
      && Received(res, src, ks + [k], a, d + {k}) == if k in r.vals then Del(r, k) else r
  {
    var r := Received(res, src, ks, a, d);
    assert k !in Picked(src, a);
    ReceivedDropKeys(res, src, ks, a, d, k);
    ReceivedDropVals(res, src, a, d, k);
  }

  lemma ReceivedDropVals<V>(res: Dict<V>, src: map<string, V>, a: set<string>, d: set<string>, k: string)
    requires k !in a
    ensures var before := (res.vals - d) + Picked(src, a);
      (res.vals - (d + {k})) + Picked(src, a) == if k in before then before - {k} else before
  {
    assert k !in Picked(src, a);
  }

  lemma {:induction false} WithoutAppend(s: seq<string>, t: seq<string>, ks: set<string>)
    ensures Without(s + t, ks) == Without(s, ks) + Without(t, ks)
    decreases |s|
  {
    if |s| > 0 {
      assert (s + t)[1..] == s[1..] + t;
      WithoutAppend(s[1..], t, ks);
    } else {
      assert s + t == t;
    }
  }

  lemma ReceivedWf<V>(res: Dict<V>, src: map<string, V>, ks: seq<string>, a: set<string>, d: set<string>)
    requires Wf(res) && Distinct(ks) && a !! d && (forall k :: k in a ==> k in ks && k in src)
    ensures Wf(Received(res, src, ks, a, d))
  {
    var s, t := Without(res.keys, d), Only(ks, a - res.vals.Keys);
    WithoutDistinct(res.keys, d);
    WithoutMembers(res.keys, d);
    OnlyDistinct(ks, a - res.vals.Keys);
    OnlyMembers(ks, a - res.vals.Keys);
    DistinctConcat(s, t);
    var r := Received(res, src, ks, a, d);
    forall x
      ensures x in r.vals <==> x in r.keys
    {
      assert x in r.keys <==> x in s || x in t;
    }
  }

  /** Before any pair is handled nothing has changed. */
  lemma MergedNothing<V>(o1: Dict<V>, o2: Dict<V>, res: Dict<V>, same: (V, V) -> bool, blank: V -> bool)
    ensures MergedUpTo(o1, o2, res, [], same, blank) == (o1, o2, res)
  {
    assert Agreed(o1, o2, [], same, blank) == {};
    assert Disagreed(o1, o2, [], same, blank) == {};
    DeletedNone(o1);
    DeletedNone(o2);
    ReceivedNone(res, o1.vals);
  }

  /** One pair that merge_internal skips: ALERTS, or a blank value on either side. */
  lemma MergedSkip<V>(o1: Dict<V>, o2: Dict<V>, res: Dict<V>, ks: seq<string>, k: string, same: (V, V) -> bool, blank: V -> bool)
    requires k in o1.vals && k in o2.vals && k !in ks
    requires k == "ALERTS" || blank(o1.vals[k]) || blank(o2.vals[k])
    ensures MergedUpTo(o1, o2, res, ks + [k], same, blank) == MergedUpTo(o1, o2, res, ks, same, blank)
  {
    AgreedStep(o1, o2, ks, k, same, blank);
    var a, d := Agreed(o1, o2, ks, same, blank), Disagreed(o1, o2, ks, same, blank);
    assert Agreed(o1, o2, ks + [k], same, blank) == a;
    assert Disagreed(o1, o2, ks + [k], same, blank) == d;
    ReceivedSkip(res, o1.vals, ks, a, d, k);
  }

  /** One pair with equal values: set in `res`, deleted from both inputs. */
  lemma MergedMove<V>(o1: Dict<V>, o2: Dict<V>, res: Dict<V>, ks: seq<string>, k: string, same: (V, V) -> bool, blank: V -> bool)
    requires k in o1.vals && k in o2.vals && k !in ks
    requires k != "ALERTS" && !blank(o1.vals[k]) && !blank(o2.vals[k]) && same(o1.vals[k], o2.vals[k])
    ensures var (a1, a2, ar) := MergedUpTo(o1, o2, res, ks, same, blank);
      MergedUpTo(o1, o2, res, ks + [k], same, blank) == (Del(a1, k), Del(a2, k), Set(ar, k, o1.vals[k]))
  {
    AgreedStep(o1, o2, ks, k, same, blank);
    var a, d := Agreed(o1, o2, ks, same, blank), Disagreed(o1, o2, ks, same, blank);
    assert Agreed(o1, o2, ks + [k], same, blank) == a + {k};
    assert Disagreed(o1, o2, ks + [k], same, blank) == d;
    assert k !in a && k !in d;
    DeletedMore(o1, a, k);
    DeletedMore(o2, a, k);
    ReceivedMove(res, o1.vals, ks, a, d, k);
  }

  /** One pair with differing values: removed from `res` when there, inputs untouched. */
  lemma MergedDrop<V>(o1: Dict<V>, o2: Dict<V>, res: Dict<V>, ks: seq<string>, k: string, same: (V, V) -> bool, blank: V -> bool)
    requires Wf(res) && k in o1.vals && k in o2.vals && k !in ks
    requires k != "ALERTS" && !blank(o1.vals[k]) && !blank(o2.vals[k]) && !same(o1.vals[k], o2.vals[k])
    ensures var (a1, a2, ar) := MergedUpTo(o1, o2, res, ks, same, blank);
      (k in ar.vals <==> k in res.vals)
      && MergedUpTo(o1, o2, res, ks + [k], same, blank) == (a1, a2, if k in ar.vals then Del(ar, k) else ar)
  {
    AgreedStep(o1, o2, ks, k, same, blank);
    var a, d := Agreed(o1, o2, ks, same, blank), Disagreed(o1, o2, ks, same, blank);
    assert Agreed(o1, o2, ks + [k], same, blank) == a;
    assert Disagreed(o1, o2, ks + [k], same, blank) == d + {k};
    assert k !in a && k !in d;
    ReceivedDrop(res, o1.vals, ks, a, d, k);
  }

  lemma MergedWf<V>(o1: Dict<V>, o2: Dict<V>, res: Dict<V>, ks: seq<string>, same: (V, V) -> bool, blank: V -> bool)
    requires Wf(o1) && Wf(o2) && Wf(res) && Distinct(ks)
    ensures var (a1, a2, ar) := MergedUpTo(o1, o2, res, ks, same, blank);
      Wf(a1) && Wf(a2) && Wf(ar)
  {
    var a, d := Agreed(o1, o2, ks, same, blank), Disagreed(o1, o2, ks, same, blank);
    DeletedWf(o1, a);
    DeletedWf(o2, a);
    ReceivedWf(res, o1.vals, ks, a, d);
  }

  /** A pair not handled yet still has its original values in both inputs. */
  lemma MergedCurrent<V>(o1: Dict<V>, o2: Dict<V>, res: Dict<V>, ks: seq<string>, k: string, same: (V, V) -> bool, blank: V -> bool)
    requires k in o1.vals && k in o2.vals && k !in ks
    ensures var (a1, a2, _) := MergedUpTo(o1, o2, res, ks, same, blank);
      k in a1.vals && a1.vals[k] == o1.vals[k] && k in a2.vals && a2.vals[k] == o2.vals[k]
  {
    assert k !in Agreed(o1, o2, ks, same, blank);
  }

  /** The body of merge_internal's loop for one pair of equal keys. */
  method HandlePair<V>(ghost obj1: Dict<V>, ghost obj2: Dict<V>, ghost res: Dict<V>, ghost keys: seq<string>, ghost i: nat, k: string,
                       o1: Dict<V>, o2: Dict<V>, rs: Dict<V>, same: (V, V) -> bool, blank: V -> bool)
    returns (o1': Dict<V>, o2': Dict<V>, rs': Dict<V>)
    requires Wf(res) && Distinct(keys) && i < |keys| && keys[i] == k && k in obj1.vals && k in obj2.vals
    requires (o1, o2, rs) == MergedUpTo(obj1, obj2, res, keys[..i], same, blank)
    ensures (o1', o2', rs') == MergedUpTo(obj1, obj2, res, keys[..i + 1], same, blank)
  {
    ghost var ks := keys[..i];
    assert keys[..i + 1] == ks + [k];
    assert k !in ks by {
      forall j | 0 <= j < i
        ensures keys[j] != k
      {
      }
    }
    MergedCurrent(obj1, obj2, res, ks, k, same, blank);
    o1', o2', rs' := o1, o2, rs;
    if k == "ALERTS" {
      MergedSkip(obj1, obj2, res, ks, k, same, blank);
      return;
    }
    if blank(o1.vals[k]) || blank(o2.vals[k]) {
      MergedSkip(obj1, obj2, res, ks, k, same, blank);
      return;
    }
    if same(o1.vals[k], o2.vals[k]) {
      MergedMove(obj1, obj2, res, ks, k, same, blank);
      rs' := Set(rs, k, o1.vals[k]);
      o1' := Del(o1, k);
      o2' := Del(o2, k);
    } else {
      MergedDrop(obj1, obj2, res, ks, k, same, blank);
      if k in rs.vals {
        rs' := Del(rs, k);
      }
    }
  }

  /** `after` has the same entry for `k` as `before`, or lacks it as `before` does. */
  ghost predicate Keeps<V>(before: Dict<V>, after: Dict<V>, k: string)
  {
    (k in after.vals <==> k in before.vals) && (k in before.vals ==> after.vals[k] == before.vals[k])
  }

  /** merge_internal never touches the pair ALERTS, in any of the three dicts. */
  lemma MergedKeepsAlerts<V>(o1: Dict<V>, o2: Dict<V>, res: Dict<V>, ks: seq<string>, same: (V, V) -> bool, blank: V -> bool)
    ensures var (a1, a2, ar) := MergedUpTo(o1, o2, res, ks, same, blank);
      Keeps(o1, a1, "ALERTS") && Keeps(o2, a2, "ALERTS") && Keeps(res, ar, "ALERTS")
  {
    var a, d := Agreed(o1, o2, ks, same, blank), Disagreed(o1, o2, ks, same, blank);
    assert "ALERTS" !in a && "ALERTS" !in d;
    assert "ALERTS" !in Picked(o1.vals, a);
  }

  /** Every value merge_internal leaves in a dict was already in it, or, for `res`, came from obj1. */
  lemma MergedFrom<V>(o1: Dict<V>, o2: Dict<V>, res: Dict<V>, ks: seq<string>, same: (V, V) -> bool, blank: V -> bool)
    ensures var (a1, a2, ar) := MergedUpTo(o1, o2, res, ks, same, blank);
      (forall k :: k in a1.vals ==> k in o1.vals && a1.vals[k] == o1.vals[k])
      && (forall k :: k in a2.vals ==> k in o2.vals && a2.vals[k] == o2.vals[k])
      && (forall k :: k in ar.vals ==> (k in res.vals && ar.vals[k] == res.vals[k]) || (k in o1.vals && ar.vals[k] == o1.vals[k]))
  {
  }

  lemma PrefixDistinct(s: seq<string>, i: nat)
    requires Distinct(s) && i <= |s|
    ensures Distinct(s[..i])
  {
  }

  /**
   * merge_internal(obj1, obj2, res): the key orders are zipped; the first
   * differing pair raises (ValueError) after the pairs before it have been
   * handled, and when none differs every pair is handled.
   */
  method MergeInternal<V>(obj1: Dict<V>, obj2: Dict<V>, res: Dict<V>, same: (V, V) -> bool, blank: V -> bool)
    returns (o1: Dict<V>, o2: Dict<V>, rs: Dict<V>, err: Option<Failure>)
    requires Wf(obj1) && Wf(obj2) && Wf(res)
    ensures var m := FirstMismatch(obj1.keys, obj2.keys);
      (err.Some? <==> m < |obj1.keys| && m < |obj2.keys|)
      && (err.Some? ==> err.value == OutOfOrder(obj1.keys[m], obj2.keys[m]))
      && (o1, o2, rs) == MergedUpTo(obj1, obj2, res, obj1.keys[..m], same, blank)
    ensures Wf(o1) && Wf(o2) && Wf(rs)
  {
    o1, o2, rs := obj1, obj2, res;
    var keys1, keys2 := obj1.keys, obj2.keys;
    err := None;
    var i := 0;
    assert keys1[..0] == [];
    MergedNothing(obj1, obj2, res, same, blank);
    while i < |keys1| && i < |keys2|
      invariant i <= FirstMismatch(keys1, keys2)
      invariant (o1, o2, rs) == MergedUpTo(obj1, obj2, res, keys1[..i], same, blank)
    {
      var k1, k2 := keys1[i], keys2[i];
      if k1 != k2 {
        assert FirstMismatch(keys1, keys2) == i;
        err := Some(OutOfOrder(k1, k2));
        PrefixDistinct(keys1, i);
        MergedWf(obj1, obj2, res, keys1[..i], same, blank);
        return;
      }
      assert k1 in obj1.vals && k1 in obj2.vals;
      o1, o2, rs := HandlePair(obj1, obj2, res, keys1, i, k1, o1, o2, rs, same, blank);
      i := i + 1;
    }
    assert FirstMismatch(keys1, keys2) == i;
    PrefixDistinct(keys1, i);
    MergedWf(obj1, obj2, res, keys1[..i], same, blank);
  }

  // ---------------------------------------------------------------- unmerge

  /** The parent language's file of a regional variant: the language directory cut at its first '-'. */
  function ParentFile(p: seq<string>): string
    requires |p| >= 2
  {
    Join(p[..|p| - 2] + [BeforeFirst(p[|p| - 2], '-')] + [p[|p| - 1]], '/')
  }

  /** A variant's file overlaid on its parent's: the parent's info is dropped and the ALERTS tables are overlaid too. */
  ghost predicate Overlaid(r: Doc, parent: Doc, child: Doc)
    requires "ALERTS" in parent.vals && parent.vals["ALERTS"].Table?
    requires "ALERTS" in child.vals && child.vals["ALERTS"].Table?
  {
    var pa, ca := parent.vals["ALERTS"].t, child.vals["ALERTS"].t;
    r.keys == Without(parent.keys, {"info"}) + Without(child.keys, parent.vals.Keys - {"info"})
    && r.vals == ((parent.vals - {"info"}) + child.vals)["ALERTS" := Table(Dict(pa.keys + Without(ca.keys, pa.vals.Keys), pa.vals + ca.vals))]
  }

  /**
   * unmerge(path): a file in a directory without '-', or whose parent
   * language has no file, is loaded as it is; otherwise the parent is loaded,
   * its info dropped, and the variant's strings and ALERTS strings laid over it.
   */
  function Unmerged(fs: Fs, path: string): Result<Doc, Failure>
    requires FsWf(fs)
  {
    var p := Split(path, '/');
    if |p| < 2 then Failure(NoLanguageDirectory(path))
    else if '-' !in p[|p| - 2] || ParentFile(p) !in fs then Load(fs, path)
    else if path !in fs then Failure(FileNotFound(path))
    else
      var parent, child := fs[ParentFile(p)].doc, fs[path].doc;
      if "info" !in parent.vals then Failure(KeyError("info"))
      else
        var rest := Del(parent, "info");
        if "ALERTS" !in rest.vals then Failure(KeyError("ALERTS"))
        else if !rest.vals["ALERTS"].Table? then Failure(NotATable("ALERTS"))
        else if "ALERTS" !in child.vals then Failure(KeyError("ALERTS"))
        else if !child.vals["ALERTS"].Table? then Failure(NotATable("ALERTS"))
        else Success(Set(Update(rest, child), "ALERTS", Table(Update(rest.vals["ALERTS"].t, child.vals["ALERTS"].t))))
  }

  /**
   * What unmerge reads: a path without a language directory is refused, a
   * file with no parent to overlay is loaded as it is, and an overlay
   * succeeds exactly when both files exist, the parent has an info entry and
   * both have an ALERTS table.
   */
  lemma UnmergedSpec(fs: Fs, path: string)
    requires FsWf(fs)
    ensures var r := Unmerged(fs, path);
      var p := Split(path, '/');
      && (|p| < 2 ==> r == Failure(NoLanguageDirectory(path)))
      && (|p| >= 2 && ('-' !in p[|p| - 2] || ParentFile(p) !in fs) ==> r == Load(fs, path))
      && (|p| >= 2 && '-' in p[|p| - 2] && ParentFile(p) in fs ==>
            var parent := fs[ParentFile(p)].doc;
            (r.Success? <==> path in fs && "info" in parent.vals
                             && "ALERTS" in parent.vals && parent.vals["ALERTS"].Table?
                             && "ALERTS" in fs[path].doc.vals && fs[path].doc.vals["ALERTS"].Table?)
            && (r.Success? ==> Overlaid(r.value, parent, fs[path].doc)))
      && (r.Success? ==> path in fs && DocWf(r.value))
  {
    var p := Split(path, '/');
    if |p| >= 2 && '-' in p[|p| - 2] && ParentFile(p) in fs && path in fs {
      var parent, child := fs[ParentFile(p)].doc, fs[path].doc;
      if "info" in parent.vals {
        var rest := Del(parent, "info");
        DelWf(parent, "info");
        if "ALERTS" in rest.vals && rest.vals["ALERTS"].Table? && "ALERTS" in child.vals && child.vals["ALERTS"].Table? {
          var alerts := rest.vals["ALERTS"].t;
          UpdateSpec(alerts, child.vals["ALERTS"].t);
          UpdateSpec(rest, child);
          assert parent.vals.Keys - {"info"} == rest.vals.Keys;
          SetWf(Update(rest, child), "ALERTS", Table(Update(alerts, child.vals["ALERTS"].t)));
        }
      }
    }
  }

  /** unmerge, step by step as the script runs it. */
  method Unmerge(fs: Fs, path: string) returns (r: Result<Doc, Failure>)
    requires FsWf(fs)
    ensures r == Unmerged(fs, path)
    ensures r.Success? ==> path in fs && DocWf(r.value)
  {
    UnmergedSpec(fs, path);
    var p := Split(path, '/');
    if |p| < 2 {
      return Failure(NoLanguageDirectory(path));
    }
    if '-' !in p[|p| - 2] {
      return Load(fs, path);
    }
    var parentPath := ParentFile(p);
    if parentPath !in fs {
      return Load(fs, path);
    }
    var parent := fs[parentPath].doc;
    if path !in fs {
      return Failure(FileNotFound(path));
    }
    var child := fs[path].doc;
    if "info" !in parent.vals {
      return Failure(KeyError("info"));
    }
    parent := Del(parent, "info");
    if "ALERTS" !in parent.vals {
      return Failure(KeyError("ALERTS"));
    }
    if !parent.vals["ALERTS"].Table? {
      return Failure(NotATable("ALERTS"));
    }
    var alerts := parent.vals["ALERTS"].t;
    if "ALERTS" !in child.vals {
      return Failure(KeyError("ALERTS"));
    }
    if !child.vals["ALERTS"].Table? {
      return Failure(NotATable("ALERTS"));
    }
    alerts := Update(alerts, child.vals["ALERTS"].t);
    parent := Update(parent, child);
    parent := Set(parent, "ALERTS", Table(alerts));
    return Success(parent);
  }

  // ---------------------------------------------------------------- merge

  /** The bookkeeping merge leaves in its output: an ALERTS table and `info.merged = true`. */
  predicate MarkedMerged(d: Doc)
  {
    "ALERTS" in d.vals && d.vals["ALERTS"].Table?
    && "info" in d.vals && d.vals["info"].Table?
    && "merged" in d.vals["info"].t.vals && d.vals["info"].t.vals["merged"] == Flag(true)
  }

  /** merge's first merge_internal call, over the top-level strings of the two unmerged variants and the output. */
  ghost function TopLevelMerged(f1: Doc, f2: Doc, merged: Doc): Result<(Doc, Doc, Doc), Failure>
  {
    var m := FirstMismatch(f1.keys, f2.keys);
    if m < |f1.keys| && m < |f2.keys| then Failure(OutOfOrder(f1.keys[m], f2.keys[m]))
    else Success(MergedUpTo(f1, f2, merged, f1.keys[..m], ValueEq, IsBlank))
  }

  /** merge's second merge_internal call, over the three ALERTS tables, whose results replace the tables. */
  ghost function AlertsMerged(f1: Doc, f2: Doc, merged: Doc): Result<(Doc, Doc, Doc), Failure>
  {
    if "ALERTS" !in f1.vals || "ALERTS" !in f2.vals || "ALERTS" !in merged.vals then Failure(KeyError("ALERTS"))
    else if !f1.vals["ALERTS"].Table? || !f2.vals["ALERTS"].Table? || !merged.vals["ALERTS"].Table? then Failure(NotATable("ALERTS"))
    else
      var t1, t2, tr := f1.vals["ALERTS"].t, f2.vals["ALERTS"].t, merged.vals["ALERTS"].t;
      var m := FirstMismatch(t1.keys, t2.keys);
      if m < |t1.keys| && m < |t2.keys| then Failure(OutOfOrder(t1.keys[m], t2.keys[m]))
      else
        var (a1, a2, ar) := MergedUpTo(t1, t2, tr, t1.keys[..m], ScalarEq, ScalarBlank);
        Success((Set(f1, "ALERTS", Table(a1)), Set(f2, "ALERTS", Table(a2)), Set(merged, "ALERTS", Table(ar))))
  }

  /** The output with `info.merged = true` set (an `info` table added when missing); refused when info is not a table. */
  function MarkedOutput(out: Doc): (r: Result<Doc, Failure>)
    ensures r.Failure? <==> "info" in out.vals && !out.vals["info"].Table?
    ensures r.Success? ==> r.value.vals.Keys == out.vals.Keys + {"info"}
    ensures r.Success? && "ALERTS" in out.vals && out.vals["ALERTS"].Table? ==> MarkedMerged(r.value)
    ensures r.Success? ==> forall k :: k in out.vals && k != "info" ==> r.value.vals[k] == out.vals[k]
  {
    var marked := if "info" !in out.vals then Set(out, "info", Table(EmptyDict())) else out;
    if !marked.vals["info"].Table? then Failure(NotATable("info"))
    else Success(Set(marked, "info", Table(Set(marked.vals["info"].t, "merged", Flag(true)))))
  }

  /** The output merge starts from: the output file as it is (empty when unreadable), with an ALERTS table. */
  function MergeStart(fs: Fs, outputPath: string): Doc
  {
    var start := if outputPath in fs then fs[outputPath].doc else EmptyDict();
    if "ALERTS" !in start.vals then Set(start, "ALERTS", Table(EmptyDict())) else start
  }

  /**
   * The three documents merge writes: both variants are unmerged, the strings
   * they agree on move into the output and the ones they disagree on leave it
   * (top level, then ALERTS), and the output is marked merged.
   */
  ghost function MergedDocs(fs: Fs, filename1: string, filename2: string, outputPath: string): Result<(Doc, Doc, Doc), Failure>
    requires FsWf(fs)
  {
    var u1 := Unmerged(fs, filename1);
    var u2 := Unmerged(fs, filename2);
    if u1.Failure? then Failure(u1.error)
    else if u2.Failure? then Failure(u2.error)
    else
      var top := TopLevelMerged(u1.value, u2.value, MergeStart(fs, outputPath));
      if top.Failure? then Failure(top.error)
      else
        var alerts := AlertsMerged(top.value.0, top.value.1, top.value.2);
        if alerts.Failure? then Failure(alerts.error)
        else
          var marked := MarkedOutput(alerts.value.2);
          if marked.Failure? then Failure(marked.error)
          else Success((alerts.value.0, alerts.value.1, marked.value))
  }

  /** merge(filename1, filename2, output_path): the merged documents, written to the two variants and the output, in that order. */
  ghost function Merged(fs: Fs, filename1: string, filename2: string, outputPath: string, dump: Doc -> seq<string>)
    : Result<Fs, Failure>
    requires FsWf(fs)
  {
    var docs := MergedDocs(fs, filename1, filename2, outputPath);
    if docs.Failure? then Failure(docs.error)
    else
      var (d1, d2, d3) := docs.value;
      Success(Write(Write(Write(fs, filename1, d1, dump), filename2, d2, dump), outputPath, d3, dump))
  }

  /** The merged documents are well formed, and the output is marked merged. */
  lemma MergedDocsWf(fs: Fs, filename1: string, filename2: string, outputPath: string)
    requires FsWf(fs)
    ensures var r := MergedDocs(fs, filename1, filename2, outputPath);
      r.Success? ==> filename1 in fs && filename2 in fs && DocWf(r.value.0) && DocWf(r.value.1) && DocWf(r.value.2)
                     && MarkedMerged(r.value.2)
  {
    if MergedDocs(fs, filename1, filename2, outputPath).Success? {
      UnmergedSpec(fs, filename1);
      UnmergedSpec(fs, filename2);
      var u1, u2 := Unmerged(fs, filename1).value, Unmerged(fs, filename2).value;
      var start := MergeStart(fs, outputPath);
      MergeStartWf(fs, outputPath);
      TopLevelMergedSpec(u1, u2, start);
      var top := TopLevelMerged(u1, u2, start).value;
      AlertsMergedSpec(top.0, top.1, top.2);
      MarkedOutputWf(AlertsMerged(top.0, top.1, top.2).value.2);
    }
  }

  /**
   * A successful merge reads both variants, writes exactly the two variants
   * and the output (creating at most the output), leaves every other file as
   * it was, and leaves the output marked merged, in the text `dump` gives.
   */
  lemma MergedWrites(fs: Fs, filename1: string, filename2: string, outputPath: string, dump: Doc -> seq<string>)
    requires FsWf(fs)
    ensures var r := Merged(fs, filename1, filename2, outputPath, dump);
      r.Success? ==>
        && filename1 in fs && filename2 in fs
        && r.value.Keys == fs.Keys + {outputPath} && FsWf(r.value)
        && MarkedMerged(r.value[outputPath].doc) && r.value[outputPath].lines == dump(r.value[outputPath].doc)
        && forall q :: q in fs && q != filename1 && q != filename2 && q != outputPath ==> r.value[q] == fs[q]
  {
    var docs := MergedDocs(fs, filename1, filename2, outputPath);
    if docs.Success? {
      MergedDocsWf(fs, filename1, filename2, outputPath);
      var (d1, d2, d3) := docs.value;
      WrittenThree(fs, filename1, filename2, outputPath, d1, d2, d3, dump);
      WrittenThreeFrame(fs, filename1, filename2, outputPath, d1, d2, d3, dump);
    }
  }

  /** Writing three well-formed documents in turn keeps the files well formed, and the last one is read back marked. */
  lemma WrittenThree(fs: Fs, p1: string, p2: string, p3: string, d1: Doc, d2: Doc, d3: Doc, dump: Doc -> seq<string>)
    requires FsWf(fs) && DocWf(d1) && DocWf(d2) && DocWf(d3) && MarkedMerged(d3)
    ensures var r := Write(Write(Write(fs, p1, d1, dump), p2, d2, dump), p3, d3, dump);
      FsWf(r) && MarkedMerged(r[p3].doc) && r[p3].lines == dump(r[p3].doc)
  {
    var w1 := Write(fs, p1, d1, dump);
    WriteWf(fs, p1, d1, dump);
    var w2 := Write(w1, p2, d2, dump);
    WriteWf(w1, p2, d2, dump);
    WriteWf(w2, p3, d3, dump);
  }

  /** Writing three files creates at most those three and leaves every other file as it was. */
  lemma WrittenThreeFrame(fs: Fs, p1: string, p2: string, p3: string, d1: Doc, d2: Doc, d3: Doc, dump: Doc -> seq<string>)
    ensures var r := Write(Write(Write(fs, p1, d1, dump), p2, d2, dump), p3, d3, dump);
      r.Keys == fs.Keys + {p1, p2, p3} && forall q :: q in fs && q != p1 && q != p2 && q != p3 ==> r[q] == fs[q]
  {
  }

  /** The output merge starts from is well formed and has an ALERTS entry. */
  lemma MergeStartWf(fs: Fs, outputPath: string)
    requires FsWf(fs)
    ensures DocWf(MergeStart(fs, outputPath)) && "ALERTS" in MergeStart(fs, outputPath).vals
  {
    var first := if outputPath in fs then fs[outputPath].doc else EmptyDict();
    if "ALERTS" !in first.vals {
      SetTableWf(first, "ALERTS", EmptyDict());
    }
  }

  /**
   * The top-level merge fails exactly at the first pair of differing keys;
   * otherwise it keeps the three documents well formed and their ALERTS
   * entries as they were.
   */
  lemma TopLevelMergedSpec(f1: Doc, f2: Doc, merged: Doc)
    requires DocWf(f1) && DocWf(f2) && DocWf(merged)
    ensures var r := TopLevelMerged(f1, f2, merged);
      var m := FirstMismatch(f1.keys, f2.keys);
      && (r.Failure? <==> m < |f1.keys| && m < |f2.keys|)
      && (r.Failure? ==> r.error == OutOfOrder(f1.keys[m], f2.keys[m]))
      && (r.Success? ==>
            var (t1, t2, tr) := r.value;
            DocWf(t1) && DocWf(t2) && DocWf(tr) && Keeps(f1, t1, "ALERTS") && Keeps(f2, t2, "ALERTS") && Keeps(merged, tr, "ALERTS"))
  {
    var m := FirstMismatch(f1.keys, f2.keys);
    if !(m < |f1.keys| && m < |f2.keys|) {
      PrefixDistinct(f1.keys, m);
      MergedWf(f1, f2, merged, f1.keys[..m], ValueEq, IsBlank);
      MergedKeepsAlerts(f1, f2, merged, f1.keys[..m], ValueEq, IsBlank);
      MergedFrom(f1, f2, merged, f1.keys[..m], ValueEq, IsBlank);
    }
  }

  /**
   * The ALERTS merge succeeds exactly when all three documents hold an ALERTS
   * table and the two variants' ALERTS keys agree pairwise; it keeps the
   * documents well formed, and the output's ALERTS is a table.
   */
  lemma AlertsMergedSpec(f1: Doc, f2: Doc, merged: Doc)
    requires DocWf(f1) && DocWf(f2) && DocWf(merged)
    ensures var r := AlertsMerged(f1, f2, merged);
      && (r.Success? <==> "ALERTS" in f1.vals && "ALERTS" in f2.vals && "ALERTS" in merged.vals
                          && f1.vals["ALERTS"].Table? && f2.vals["ALERTS"].Table? && merged.vals["ALERTS"].Table?
                          && var a1, a2 := f1.vals["ALERTS"].t.keys, f2.vals["ALERTS"].t.keys;
                             var m := FirstMismatch(a1, a2);
                             !(m < |a1| && m < |a2|))
      && (r.Success? ==> DocWf(r.value.0) && DocWf(r.value.1) && DocWf(r.value.2)
                         && "ALERTS" in r.value.2.vals && r.value.2.vals["ALERTS"].Table?)
  {
    if AlertsMerged(f1, f2, merged).Success? {
      var t1, t2, tr := f1.vals["ALERTS"].t, f2.vals["ALERTS"].t, merged.vals["ALERTS"].t;
      var m := FirstMismatch(t1.keys, t2.keys);
      PrefixDistinct(t1.keys, m);
      MergedWf(t1, t2, tr, t1.keys[..m], ScalarEq, ScalarBlank);
      var (a1, a2, ar) := MergedUpTo(t1, t2, tr, t1.keys[..m], ScalarEq, ScalarBlank);
      SetTableWf(f1, "ALERTS", a1);
      SetTableWf(f2, "ALERTS", a2);
      SetTableWf(merged, "ALERTS", ar);
    }
  }

  lemma MarkedOutputWf(out: Doc)
    requires DocWf(out)
    ensures MarkedOutput(out).Success? ==> DocWf(MarkedOutput(out).value)
  {
    var marked := if "info" !in out.vals then Set(out, "info", Table(EmptyDict())) else out;
    if "info" !in out.vals {
      SetTableWf(out, "info", EmptyDict());
    }
    if marked.vals["info"].Table? {
      SetWf(marked.vals["info"].t, "merged", Flag(true));
      SetTableWf(marked, "info", Set(marked.vals["info"].t, "merged", Flag(true)));
    }
  }

  /**
   * Which strings move: for each top-level key pair the two variants zip
   * over, a string both hold with the same non-blank value leaves both
   * variants and is set in the output; one they hold with different
   * non-blank values leaves the output, and both variants keep it.
   */
  lemma MergedMovesAgreed<V>(o1: Dict<V>, o2: Dict<V>, res: Dict<V>, ks: seq<string>, same: (V, V) -> bool, blank: V -> bool)
    ensures var (a1, a2, ar) := MergedUpTo(o1, o2, res, ks, same, blank);
      forall k :: k in ks && k != "ALERTS" && k in o1.vals && k in o2.vals && !blank(o1.vals[k]) && !blank(o2.vals[k]) ==>
        if same(o1.vals[k], o2.vals[k]) then k !in a1.vals && k !in a2.vals && k in ar.vals && ar.vals[k] == o1.vals[k]
        else k !in ar.vals && Keeps(o1, a1, k) && Keeps(o2, a2, k)
  {
    var a, d := Agreed(o1, o2, ks, same, blank), Disagreed(o1, o2, ks, same, blank);
    assert forall k :: k in a ==> k in Picked(o1.vals, a);
    assert forall k :: k in d ==> k !in a && k !in Picked(o1.vals, a);
  }

  /** merge, step by step as the script runs it. */
  method Merge(fs: Fs, filename1: string, filename2: string, outputPath: string, dump: Doc -> seq<string>)
    returns (r: Result<Fs, Failure>)
    requires FsWf(fs)
    ensures r == Merged(fs, filename1, filename2, outputPath, dump)
    ensures r.Success? ==> filename1 in fs && filename2 in fs
    ensures r.Success? ==> r.value.Keys == fs.Keys + {outputPath} && FsWf(r.value)
    ensures r.Success? ==> MarkedMerged(r.value[outputPath].doc) && r.value[outputPath].lines == dump(r.value[outputPath].doc)
  {
    MergedWrites(fs, filename1, filename2, outputPath, dump);
    var u1 := Unmerge(fs, filename1);
    if u1.Failure? {
      return Failure(u1.error);
    }
    var u2 := Unmerge(fs, filename2);
    if u2.Failure? {
      return Failure(u2.error);
    }
    var merged: Doc := if outputPath in fs then fs[outputPath].doc else EmptyDict();
    if "ALERTS" !in merged.vals {
      merged := Set(merged, "ALERTS", Table(EmptyDict()));
    }
    MergeStartWf(fs, outputPath);
    var top := MergeTopLevel(u1.value, u2.value, merged);
    if top.Failure? {
      return Failure(top.error);
    }
    var alerts := MergeAlerts(top.value.0, top.value.1, top.value.2);
    if alerts.Failure? {
      return Failure(alerts.error);
    }
    var (f1, f2, out) := alerts.value;
    r := MarkAndWrite(fs, filename1, filename2, outputPath, f1, f2, out, dump);
  }

  /** The end of merge: `info.merged = true` is set in the output and the three documents are written. */
  method MarkAndWrite(fs: Fs, filename1: string, filename2: string, outputPath: string, f1: Doc, f2: Doc, out: Doc,
                      dump: Doc -> seq<string>)
    returns (r: Result<Fs, Failure>)
    ensures var m := MarkedOutput(out);
      r == if m.Failure? then Failure(m.error)
           else Success(Write(Write(Write(fs, filename1, f1, dump), filename2, f2, dump), outputPath, m.value, dump))
  {
    var marked := out;
    if "info" !in marked.vals {
      marked := Set(marked, "info", Table(EmptyDict()));
    }
    if !marked.vals["info"].Table? {
      return Failure(NotATable("info"));
    }
    marked := Set(marked, "info", Table(Set(marked.vals["info"].t, "merged", Flag(true))));
    var written := Write(fs, filename1, f1, dump);
    written := Write(written, filename2, f2, dump);
    written := Write(written, outputPath, marked, dump);
    return Success(written);
  }

  /** merge's first merge_internal call, over the top-level strings. */
  method MergeTopLevel(f1: Doc, f2: Doc, merged: Doc) returns (r: Result<(Doc, Doc, Doc), Failure>)
    requires DocWf(f1) && DocWf(f2) && DocWf(merged)
    ensures r == TopLevelMerged(f1, f2, merged)
    ensures var m := FirstMismatch(f1.keys, f2.keys);
      (r.Failure? <==> m < |f1.keys| && m < |f2.keys|)
      && (r.Failure? ==> r.error == OutOfOrder(f1.keys[m], f2.keys[m]))
    ensures r.Success? ==> DocWf(r.value.0) && DocWf(r.value.1) && DocWf(r.value.2)
    ensures r.Success? ==> Keeps(f1, r.value.0, "ALERTS") && Keeps(f2, r.value.1, "ALERTS") && Keeps(merged, r.value.2, "ALERTS")
  {
    TopLevelMergedSpec(f1, f2, merged);
    var o1, o2, rs, err := MergeInternal(f1, f2, merged, ValueEq, IsBlank);
    if err.Some? {
      return Failure(err.value);
    }
    return Success((o1, o2, rs));
  }

  /** merge's second merge_internal call, over the three ALERTS tables, whose results replace the tables. */
  method MergeAlerts(f1: Doc, f2: Doc, merged: Doc) returns (r: Result<(Doc, Doc, Doc), Failure>)
    requires DocWf(f1) && DocWf(f2) && DocWf(merged)
    ensures r == AlertsMerged(f1, f2, merged)
    ensures r.Success? <==> "ALERTS" in f1.vals && "ALERTS" in f2.vals && "ALERTS" in merged.vals
                            && f1.vals["ALERTS"].Table? && f2.vals["ALERTS"].Table? && merged.vals["ALERTS"].Table?
                            && var a1, a2 := f1.vals["ALERTS"].t.keys, f2.vals["ALERTS"].t.keys;
                               var m := FirstMismatch(a1, a2);
                               !(m < |a1| && m < |a2|)
    ensures r.Success? ==> "ALERTS" in r.value.2.vals && r.value.2.vals["ALERTS"].Table?
    ensures r.Success? ==> DocWf(r.value.0) && DocWf(r.value.1) && DocWf(r.value.2)
  {
    AlertsMergedSpec(f1, f2, merged);
    if "ALERTS" !in f1.vals || "ALERTS" !in f2.vals || "ALERTS" !in merged.vals {
      return Failure(KeyError("ALERTS"));
    }
    if !f1.vals["ALERTS"].Table? || !f2.vals["ALERTS"].Table? || !merged.vals["ALERTS"].Table? {
      return Failure(NotATable("ALERTS"));
    }
    var a1, a2, ar, err := MergeInternal(f1.vals["ALERTS"].t, f2.vals["ALERTS"].t, merged.vals["ALERTS"].t, ScalarEq, ScalarBlank);
    if err.Some? {
      return Failure(err.value);
    }
    return Success((Set(f1, "ALERTS", Table(a1)), Set(f2, "ALERTS", Table(a2)), Set(merged, "ALERTS", Table(ar))));
  }
}
