/**
 * The aggregation step of `write_to_modfile`: per-module results, in the
 * order the analysis dictionary was filled, are grouped by top-level package
 * into one `"new"` list per package, and one JSON file is to be written per
 * package.  Class and function descriptors are opaque values of type `D`.
 */
module Aggregator {
  import opened Search

  /** One entry `module_name -> {"classes": ..., "functions": ...}` of the analysis result. */
  datatype ModuleInfo<D> = ModuleInfo(name: string, classes: seq<D>, functions: seq<D>)

  /** The per-package record `{"new": [...]}`. */
  datatype PackageRecord<D> = PackageRecord(newEntries: seq<D>)

  /** A module reduced to what the grouping uses: its package and what it contributes. */
  datatype Tagged<D> = Tagged(pkg: string, entries: seq<D>)

  /**
   * The top-level package of a dotted module name: the name cut at the
   * index `str.find` reports for `.`, or the whole name when that index is
   * -1.  The result is the dot-free prefix in front of the first `.`.
   */
  function PackageName(moduleName: string): (p: string)
    ensures '.' !in p
    ensures p <= moduleName
    ensures '.' !in moduleName ==> p == moduleName
    ensures '.' in moduleName ==> |p| < |moduleName| && moduleName[|p|] == '.'
  {
    var index := Find(moduleName, '.');
    if index != -1 then moduleName[..index] else moduleName
  }

  /** A dotted name's package is the dot-free segment in front of its first dot. */
  lemma PackageNameOfDotted(head: string, rest: string)
    requires '.' !in head
    ensures PackageName(head + "." + rest) == head
  {
    var name := head + "." + rest;
    assert name[..|head|] == head;
    FirstIndexUnique(name, '.', |head|);
  }

  /** A module's package and its classes followed by its functions. */
  function Tag<D>(m: ModuleInfo<D>): Tagged<D>
  {
    Tagged(PackageName(m.name), m.classes + m.functions)
  }

  /** `Tag` applied to every module, in order. */
  function TagAll<D>(info: seq<ModuleInfo<D>>): seq<Tagged<D>>
  {
    seq(|info|, i requires 0 <= i < |info| => Tag(info[i]))
  }

  /** Tagging a concatenation of module sequences tags each part. */
  lemma TagAllAppend<D>(a: seq<ModuleInfo<D>>, b: seq<ModuleInfo<D>>)
    ensures TagAll(a + b) == TagAll(a) + TagAll(b)
  {
  }

  // Reference definitions of the grouping, over tagged modules.  Each is
  // given by recursion on the last module processed, in the order in which
  // the loop of `write_to_modfile` visits them.

  /** The set of packages of the modules in `ts`. */
  function PackageSet<D>(ts: seq<Tagged<D>>): set<string>
  {
    if ts == [] then {}
    else PackageSet(ts[..|ts| - 1]) + {ts[|ts| - 1].pkg}
  }

  /** Packages in the order each is first met: the key order of `data`. */
  function FirstSeen<D>(ts: seq<Tagged<D>>): seq<string>
  {
    if ts == [] then []
    else
      var earlier := FirstSeen(ts[..|ts| - 1]);
      var p := ts[|ts| - 1].pkg;
      if p in earlier then earlier else earlier + [p]
  }

  /** The `"new"` list of package `pkg`: the entries of its modules, in order. */
  function EntriesFor<D>(ts: seq<Tagged<D>>, pkg: string): seq<D>
  {
    if ts == [] then []
    else
      var t := ts[|ts| - 1];
      EntriesFor(ts[..|ts| - 1], pkg) + (if t.pkg == pkg then t.entries else [])
  }

  /** The number of descriptors over all modules. */
  function TotalSize<D>(ts: seq<Tagged<D>>): nat
  {
    if ts == [] then 0
    else TotalSize(ts[..|ts| - 1]) + |ts[|ts| - 1].entries|
  }

  /** Sum of the lengths of the `"new"` lists of the packages `pkgs`. */
  function SumLengths<D>(ts: seq<Tagged<D>>, pkgs: seq<string>): nat
  {
    if pkgs == [] then 0
    else SumLengths(ts, pkgs[..|pkgs| - 1]) + |EntriesFor(ts, pkgs[|pkgs| - 1])|
  }

  /** No element occurs twice. */
  predicate Distinct<T(==)>(s: seq<T>)
  {
    forall i, j :: 0 <= i < j < |s| ==> s[i] != s[j]
  }

  /** A package is present exactly when some module belongs to it. */
  lemma {:induction false} PackageSetMembers<D>(ts: seq<Tagged<D>>, p: string)
    ensures p in PackageSet(ts) <==> exists i :: 0 <= i < |ts| && ts[i].pkg == p
  {
    if ts != [] {
      var front := ts[..|ts| - 1];
      PackageSetMembers(front, p);
      if p in PackageSet(front) {
        var i :| 0 <= i < |front| && front[i].pkg == p;
        assert ts[i] == front[i];
      }
      if exists i :: 0 <= i < |ts| && ts[i].pkg == p {
        var i :| 0 <= i < |ts| && ts[i].pkg == p;
        if i < |front| {
          assert front[i] == ts[i];
        }
      }
    }
  }

  /** The packages of the analysis result are the package names of its module names. */
  lemma PackagesOfModules<D>(info: seq<ModuleInfo<D>>, p: string)
    ensures p in PackageSet(TagAll(info)) <==> exists i :: 0 <= i < |info| && PackageName(info[i].name) == p
  {
    var ts := TagAll(info);
    PackageSetMembers(ts, p);
    if exists i :: 0 <= i < |info| && PackageName(info[i].name) == p {
      var i :| 0 <= i < |info| && PackageName(info[i].name) == p;
      assert ts[i].pkg == p;
    }
  }

  /** A package is listed in the key order exactly when some module belongs to it. */
  lemma {:induction false} FirstSeenMembers<D>(ts: seq<Tagged<D>>, p: string)
    ensures p in FirstSeen(ts) <==> p in PackageSet(ts)
  {
    if ts != [] {
      FirstSeenMembers(ts[..|ts| - 1], p);
    }
  }

  /** The key order only grows: the order after a prefix of the modules is a prefix of the final one. */
  lemma {:induction false} FirstSeenPrefix<D>(ts: seq<Tagged<D>>, n: nat)
    requires n <= |ts|
    ensures FirstSeen(ts[..n]) <= FirstSeen(ts)
  {
    if n < |ts| {
      var front := ts[..|ts| - 1];
      assert front[..n] == ts[..n];
      FirstSeenPrefix(front, n);
    } else {
      assert ts[..n] == ts;
    }
  }

  /**
   * The key order is the order of first encounter: a package met at some
   * module before the module where another package is first met comes
   * earlier in the key order.
   */
  lemma FirstSeenOrder<D>(ts: seq<Tagged<D>>, i: nat, j: nat)
    requires i < j < |ts|
    requires ts[j].pkg !in PackageSet(ts[..j])
    ensures exists k, l :: 0 <= k < l < |FirstSeen(ts)| && FirstSeen(ts)[k] == ts[i].pkg && FirstSeen(ts)[l] == ts[j].pkg
  {
    var before := FirstSeen(ts[..j]);
    var upTo := ts[..j + 1];
    assert upTo[..j] == ts[..j] && upTo[j] == ts[j];
    FirstSeenMembers(ts[..j], ts[j].pkg);
    assert FirstSeen(upTo) == before + [ts[j].pkg];
    FirstSeenPrefix(ts, j + 1);
    PackageSetMembers(ts[..j], ts[i].pkg);
    assert ts[..j][i] == ts[i];
    FirstSeenMembers(ts[..j], ts[i].pkg);
    var k :| 0 <= k < |before| && before[k] == ts[i].pkg;
    var all := FirstSeen(ts);
    assert all[k] == ts[i].pkg && all[|before|] == ts[j].pkg;
  }

  /**
   * Each package's record is created once: the key order lists every
   * package of `ts` exactly once and nothing else.
   */
  lemma {:induction false} FirstSeenIsKeyOrder<D>(ts: seq<Tagged<D>>)
    ensures forall p :: p in FirstSeen(ts) <==> p in PackageSet(ts)
    ensures Distinct(FirstSeen(ts))
    ensures |FirstSeen(ts)| == |PackageSet(ts)|
  {
    if ts != [] {
      var front := ts[..|ts| - 1];
      FirstSeenIsKeyOrder(front);
      var earlier := FirstSeen(front);
      var q := ts[|ts| - 1].pkg;
      if q !in earlier {
        assert PackageSet(ts) == PackageSet(front) + {q};
        assert q !in PackageSet(front);
      } else {
        assert PackageSet(ts) == PackageSet(front);
      }
    }
  }

  /** A package no module belongs to has an empty list. */
  lemma {:induction false} EntriesForAbsent<D>(ts: seq<Tagged<D>>, p: string)
    requires p !in PackageSet(ts)
    ensures EntriesFor(ts, p) == []
  {
    if ts != [] {
      EntriesForAbsent(ts[..|ts| - 1], p);
    }
  }

  /** Grouping distributes over concatenation of the module sequence. */
  lemma {:induction false} EntriesForAppend<D>(a: seq<Tagged<D>>, b: seq<Tagged<D>>, p: string)
    ensures EntriesFor(a + b, p) == EntriesFor(a, p) + EntriesFor(b, p)
  {
    if b != [] {
      var ab := a + b;
      assert ab[..|ab| - 1] == a + b[..|b| - 1];
      assert ab[|ab| - 1] == b[|b| - 1];
      EntriesForAppend(a, b[..|b| - 1], p);
    } else {
      assert a + b == a;
    }
  }

  /** Append-only: processing more modules only extends a package's list. */
  lemma AppendOnly<D>(ts: seq<Tagged<D>>, i: nat, p: string)
    requires i <= |ts|
    ensures EntriesFor(ts[..i], p) <= EntriesFor(ts, p)
  {
    assert ts == ts[..i] + ts[i..];
    EntriesForAppend(ts[..i], ts[i..], p);
  }

  /** A single module contributes only to its own package. */
  lemma EntriesForSingle<D>(t: Tagged<D>, p: string)
    ensures EntriesFor([t], p) == if t.pkg == p then t.entries else []
  {
  }

  /**
   * No leak: a module changes the list of its own package, by its entries
   * in place, and the list of no other package.
   */
  lemma NoLeak<D>(a: seq<Tagged<D>>, t: Tagged<D>, b: seq<Tagged<D>>, p: string)
    ensures t.pkg != p ==> EntriesFor(a + [t] + b, p) == EntriesFor(a + b, p)
    ensures t.pkg == p ==> EntriesFor(a + [t] + b, p) == EntriesFor(a, p) + t.entries + EntriesFor(b, p)
  {
    EntriesForAppend(a + [t], b, p);
    EntriesForAppend(a, [t], p);
    EntriesForAppend(a, b, p);
    EntriesForSingle(t, p);
  }

  /** `NoLeak` for the analysis result itself: a module only touches its own package's list. */
  lemma NoLeakModules<D>(a: seq<ModuleInfo<D>>, m: ModuleInfo<D>, b: seq<ModuleInfo<D>>, p: string)
    ensures PackageName(m.name) != p ==> EntriesFor(TagAll(a + [m] + b), p) == EntriesFor(TagAll(a + b), p)
    ensures PackageName(m.name) == p ==>
      EntriesFor(TagAll(a + [m] + b), p) == EntriesFor(TagAll(a), p) + m.classes + m.functions + EntriesFor(TagAll(b), p)
  {
    TagAllAppend(a + [m], b);
    TagAllAppend(a, [m]);
    TagAllAppend(a, b);
    assert TagAll([m]) == [Tag(m)];
    NoLeak(TagAll(a), Tag(m), TagAll(b), p);
  }

  /** Every entry in a package's list comes from a module of that package. */
  lemma {:induction false} EntriesComeFromPackage<D>(ts: seq<Tagged<D>>, p: string, x: D)
    requires x in EntriesFor(ts, p)
    ensures exists i :: 0 <= i < |ts| && ts[i].pkg == p && x in ts[i].entries
  {
    var front := ts[..|ts| - 1];
    var t := ts[|ts| - 1];
    if x in EntriesFor(front, p) {
      EntriesComeFromPackage(front, p, x);
      var i :| 0 <= i < |front| && front[i].pkg == p && x in front[i].entries;
      assert ts[i] == front[i];
    } else {
      assert t.pkg == p && x in t.entries;
    }
  }

  /** Adding module `t` grows the summed length over distinct `pkgs` by `t`'s share. */
  lemma {:induction false} SumLengthsStep<D>(ts: seq<Tagged<D>>, t: Tagged<D>, pkgs: seq<string>)
    requires Distinct(pkgs)
    ensures SumLengths(ts + [t], pkgs) == SumLengths(ts, pkgs) + (if t.pkg in pkgs then |t.entries| else 0)
  {
    if pkgs != [] {
      var front := pkgs[..|pkgs| - 1];
      var last := pkgs[|pkgs| - 1];
      assert Distinct(front);
      SumLengthsStep(ts, t, front);
      EntriesForAppend(ts, [t], last);
      EntriesForSingle(t, last);
      assert pkgs == front + [last];
      if t.pkg == last {
        assert last !in front;
      }
    }
  }

  /** No deduplication: the lists together hold every descriptor of every module. */
  lemma {:induction false} NoDeduplication<D>(ts: seq<Tagged<D>>)
    ensures SumLengths(ts, FirstSeen(ts)) == TotalSize(ts)
  {
    if ts != [] {
      var front := ts[..|ts| - 1];
      var t := ts[|ts| - 1];
      var earlier := FirstSeen(front);
      assert ts == front + [t];
      NoDeduplication(front);
      FirstSeenIsKeyOrder(front);
      SumLengthsStep(front, t, earlier);
      // SumLengths(ts, earlier) == TotalSize(front) + (if t.pkg in earlier then |t.entries| else 0)
      if t.pkg !in earlier {
        var seen := earlier + [t.pkg];
        assert FirstSeen(ts) == seen;
        assert seen[..|seen| - 1] == earlier;
        EntriesForAbsent(front, t.pkg);
        assert EntriesFor(ts, t.pkg) == t.entries;
        assert SumLengths(ts, seen) == SumLengths(ts, earlier) + |t.entries|;
      } else {
        assert FirstSeen(ts) == earlier;
      }
    }
  }

  /** How each reference definition extends when one more module is processed. */
  lemma SnocModule<D>(ts: seq<Tagged<D>>, t: Tagged<D>)
    ensures PackageSet(ts + [t]) == PackageSet(ts) + {t.pkg}
    ensures FirstSeen(ts + [t]) == if t.pkg in FirstSeen(ts) then FirstSeen(ts) else FirstSeen(ts) + [t.pkg]
    ensures forall p :: EntriesFor(ts + [t], p) == EntriesFor(ts, p) + if t.pkg == p then t.entries else []
  {
  }

  /**
   * One inner loop of `write_to_modfile`: the descriptors `xs` are appended
   * one by one, in order, to the `"new"` list of `pkg`; no other package's
   * record changes.
   */
  method AppendAll<D>(data: map<string, PackageRecord<D>>, pkg: string, xs: seq<D>)
    returns (data': map<string, PackageRecord<D>>)
    requires pkg in data
    ensures data'.Keys == data.Keys
    ensures data'[pkg].newEntries == data[pkg].newEntries + xs
    ensures forall p :: p in data && p != pkg ==> data'[p] == data[p]
  {
    data' := data;
    var j := 0;
    while j < |xs|
      invariant 0 <= j <= |xs|
      invariant data'.Keys == data.Keys
      invariant data'[pkg].newEntries == data[pkg].newEntries + xs[..j]
      invariant forall p :: p in data && p != pkg ==> data'[p] == data[p]
    {
      assert xs[..j + 1] == xs[..j] + [xs[j]];
      data' := data'[pkg := PackageRecord(data'[pkg].newEntries + [xs[j]])];
      j := j + 1;
    }
    assert xs[..j] == xs;
  }

  /**
   * `data` and its key order `order` are the grouping of the tagged modules
   * `ts`: one record per package, listed once in the order first met, each
   * holding that package's entries.
   */
  ghost predicate Grouped<D>(data: map<string, PackageRecord<D>>, order: seq<string>, ts: seq<Tagged<D>>)
  {
    && data.Keys == PackageSet(ts)
    && order == FirstSeen(ts)
    && forall p :: p in data ==> data[p].newEntries == EntriesFor(ts, p)
  }

  /**
   * Processing one more tagged module `t` keeps `data` and `order` the
   * grouping, provided the record of `t.pkg` is created empty (and its key
   * appended to the order) when missing, `t`'s entries are appended to it,
   * and no other record changes.
   */
  lemma GroupedStep<D>(data: map<string, PackageRecord<D>>, order: seq<string>, done: seq<Tagged<D>>,
                       t: Tagged<D>, data': map<string, PackageRecord<D>>, order': seq<string>)
    requires Grouped(data, order, done)
    requires data'.Keys == data.Keys + {t.pkg}
    requires order' == if t.pkg in data then order else order + [t.pkg]
    requires data'[t.pkg].newEntries == (if t.pkg in data then data[t.pkg].newEntries else []) + t.entries
    requires forall p :: p in data && p != t.pkg ==> data'[p] == data[p]
    ensures Grouped(data', order', done + [t])
  {
    SnocModule(done, t);
    FirstSeenMembers(done, t.pkg);
    if t.pkg !in data {
      EntriesForAbsent(done, t.pkg);
    }
    forall p | p in data' ensures data'[p].newEntries == EntriesFor(done + [t], p) {
      if p != t.pkg {
        assert data'[p] == data[p];
      }
    }
  }

  /**
   * One iteration of the grouping loop of `write_to_modfile`: the module's
   * package name is cut at the first `.`; its record is created empty if the
   * package is new; then its classes and its functions are appended.
   */
  method AddModule<D>(data: map<string, PackageRecord<D>>, order: seq<string>, m: ModuleInfo<D>, ghost done: seq<Tagged<D>>)
    returns (data': map<string, PackageRecord<D>>, order': seq<string>)
    requires Grouped(data, order, done)
    ensures Grouped(data', order', done + [Tag(m)])
  {
    var packageName := PackageName(m.name);
    data', order' := data, order;
    if packageName !in data' {
      data' := data'[packageName := PackageRecord([])];
      order' := order' + [packageName];
    }
    data' := AppendAll(data', packageName, m.classes);
    data' := AppendAll(data', packageName, m.functions);
    GroupedStep(data, order, done, Tag(m), data', order');
  }

  /**
   * The grouping loop of `write_to_modfile`: `data` starts empty and every
   * module, in order, is added to it.  `order` is the insertion order of
   * `data`, the order in which its records are later written.
   */
  method GroupByPackage<D>(info: seq<ModuleInfo<D>>) returns (data: map<string, PackageRecord<D>>, order: seq<string>)
    ensures data.Keys == PackageSet(TagAll(info))
    ensures order == FirstSeen(TagAll(info))
    ensures forall p :: p in data ==> data[p].newEntries == EntriesFor(TagAll(info), p)
  {
    ghost var ts := TagAll(info);
    data := map[];
    order := [];
    var i := 0;
    assert ts[..0] == [];
    while i < |info|
      invariant 0 <= i <= |info|
      invariant Grouped(data, order, ts[..i])
    {
      assert ts[..i + 1] == ts[..i] + [Tag(info[i])];
      data, order := AddModule(data, order, info[i], ts[..i]);
      i := i + 1;
    }
    assert ts[..i] == ts;
  }

  /** The file a package's record is written to: `<output_dir>/<package>.json`. */
  function OutputPath(outputDir: string, pkg: string): string
  {
    outputDir + "/" + pkg + ".json"
  }

  /** Distinct packages give distinct path strings. */
  lemma OutputPathInjective(outputDir: string, p: string, q: string)
    requires OutputPath(outputDir, p) == OutputPath(outputDir, q)
    ensures p == q
  {
    var path := OutputPath(outputDir, p);
    assert |p| == |q|;
    assert p == path[|outputDir| + 1..|outputDir| + 1 + |p|];
    assert q == path[|outputDir| + 1..|outputDir| + 1 + |q|];
  }

  /**
   * The writing loop of `write_to_modfile` without the file system: for each
   * key of `data`, in insertion order, the write of its record to
   * `<output_dir>/<package>.json`.  Distinct keys give distinct path strings.
   */
  method WriteRecords<D>(data: map<string, PackageRecord<D>>, order: seq<string>, outputDir: string)
    returns (writes: seq<(string, PackageRecord<D>)>)
    requires forall k :: 0 <= k < |order| ==> order[k] in data
    ensures |writes| == |order|
    ensures forall k :: 0 <= k < |order| ==> writes[k] == (OutputPath(outputDir, order[k]), data[order[k]])
    ensures Distinct(order) ==> forall k, l :: 0 <= k < l < |writes| ==> writes[k].0 != writes[l].0
  {
    writes := [];
    var k := 0;
    while k < |order|
      invariant 0 <= k <= |order|
      invariant |writes| == k
      invariant forall l :: 0 <= l < k ==> writes[l] == (OutputPath(outputDir, order[l]), data[order[l]])
    {
      var pkg := order[k];
      writes := writes + [(OutputPath(outputDir, pkg), data[pkg])];
      k := k + 1;
    }
    if Distinct(order) {
      forall k, l | 0 <= k < l < |writes| ensures writes[k].0 != writes[l].0 {
        if writes[k].0 == writes[l].0 {
          OutputPathInjective(outputDir, order[k], order[l]);
        }
      }
    }
  }

  /**
   * `write_to_modfile` without the file system: the grouping, followed by the
   * `(path, record)` writes it performs, one per package, in the order the
   * packages were first met, each to a path string of its own.
   */
  method WriteToModfile<D>(info: seq<ModuleInfo<D>>, outputDir: string) returns (writes: seq<(string, PackageRecord<D>)>)
    ensures |writes| == |FirstSeen(TagAll(info))| == |PackageSet(TagAll(info))|
    ensures forall k :: 0 <= k < |writes| ==>
      var pkg := FirstSeen(TagAll(info))[k];
      writes[k] == (OutputPath(outputDir, pkg), PackageRecord(EntriesFor(TagAll(info), pkg)))
    ensures forall k, l :: 0 <= k < l < |writes| ==> writes[k].0 != writes[l].0
  {
    ghost var ts := TagAll(info);
    var data, order := GroupByPackage(info);
    FirstSeenIsKeyOrder(ts);
    writes := WriteRecords(data, order, outputDir);
    forall k | 0 <= k < |writes|
      ensures writes[k] == (OutputPath(outputDir, order[k]), PackageRecord(EntriesFor(ts, order[k])))
    {
      assert data[order[k]].newEntries == EntriesFor(ts, order[k]);
    }
  }
}
