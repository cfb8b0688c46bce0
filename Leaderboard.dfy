/** The leaderboard's in-memory table: for each model, in the order the models were
    first added, the runs it has recorded under each benchmark. */
module Leaderboards {
  import opened MazeCommon

  /** The `details` dictionary of a run; only its numeric entries are modelled. */
  type Details = map<string, real>

  /** One stored run. */
  datatype Record = Record(score: real, timestamp: string, details: Details)

  /** What a model holds under one benchmark: the list of its runs, or a single run in
      the older one-dictionary format. */
  datatype Stored = Runs(runs: seq<Record>) | Legacy(run: Record)

  /** One key of the `models` dictionary with its benchmark table. Python dictionaries
      keep insertion order, which decides how ties are ranked, so the table of models is
      a sequence with distinct names. */
  datatype ModelEntry = ModelEntry(name: string, benchmarks: map<string, Stored>)

  function Names(models: seq<ModelEntry>): (ns: seq<string>)
    ensures |ns| == |models| && forall i :: 0 <= i < |models| ==> ns[i] == models[i].name
  {
    if models == [] then [] else Names(models[..|models| - 1]) + [models[|models| - 1].name]
  }

  predicate DistinctNames(models: seq<ModelEntry>)
  {
    forall i, j :: 0 <= i < j < |models| ==> models[i].name != models[j].name
  }

  /** The position of `name` in the table, if it is there. */
  function Find(models: seq<ModelEntry>, name: string): (r: Option<nat>)
    ensures r.None? <==> forall i :: 0 <= i < |models| ==> models[i].name != name
    ensures r.Some? ==> r.value < |models| && models[r.value].name == name
  {
    if models == [] then None
    else if models[|models| - 1].name == name then Some(|models| - 1)
    else Find(models[..|models| - 1], name)
  }

  /** What `name` stores under `bench`, if anything. */
  function Lookup(models: seq<ModelEntry>, name: string, bench: string): Option<Stored>
  {
    match Find(models, name)
    case None => None
    case Some(i) => if bench in models[i].benchmarks then Some(models[i].benchmarks[bench]) else None
  }

  /** The runs a stored value stands for; a legacy single run counts as a list of one. */
  function RunsOf(s: Option<Stored>): seq<Record>
  {
    match s
    case None => []
    case Some(Runs(rs)) => rs
    case Some(Legacy(r)) => [r]
  }

  /** `details or {}`. */
  function DetailsOr(details: Option<Details>): Details
  {
    match details
    case None => map[]
    case Some(d) => d
  }

  /** The benchmark slot after `add_result` stores `rec`: created when missing,
      migrated from the legacy format, then appended to. */
  function Appended(s: Option<Stored>, rec: Record): (r: Stored)
    ensures r.Runs? && RunsOf(Some(r)) == RunsOf(s) + [rec]
  {
    match s
    case None => Runs([rec])
    case Some(Runs(rs)) => Runs(rs + [rec])
    case Some(Legacy(r)) => Runs([r, rec])
  }

  /** The table after `add_result(name, bench, ...)` stored `rec`. */
  function AddTo(models: seq<ModelEntry>, name: string, bench: string, rec: Record): (r: seq<ModelEntry>)
    ensures Names(r) == if Find(models, name).Some? then Names(models) else Names(models) + [name]
    ensures DistinctNames(models) ==> DistinctNames(r)
  {
    match Find(models, name)
    case None => models + [ModelEntry(name, map[bench := Runs([rec])])]
    case Some(i) =>
      models[i := ModelEntry(name, models[i].benchmarks[bench := Appended(Lookup(models, name, bench), rec)])]
  }

  /** The table after `remove_model(name)`. */
  function Removed(models: seq<ModelEntry>, name: string): seq<ModelEntry>
  {
    match Find(models, name)
    case None => models
    case Some(i) => models[..i] + models[i + 1..]
  }

  /** Every benchmark some model has a slot for. */
  function BenchmarkKeys(models: seq<ModelEntry>): set<string>
  {
    if models == [] then {} else BenchmarkKeys(models[..|models| - 1]) + models[|models| - 1].benchmarks.Keys
  }

  // ---------------------------------------------------------------------
  // Python's string order and `sorted` on a set of strings.

  /** Python's `<` on strings: code point by code point, a proper prefix first. */
  predicate LexLess(a: string, b: string)
  {
    if a == [] then b != []
    else if b == [] then false
    else a[0] < b[0] || (a[0] == b[0] && LexLess(a[1..], b[1..]))
  }

  lemma {:induction false} LexIrreflexive(a: string)
    ensures !LexLess(a, a)
  {
    if a != [] {
      LexIrreflexive(a[1..]);
    }
  }

  lemma {:induction false} LexTransitive(a: string, b: string, c: string)
    requires LexLess(a, b) && LexLess(b, c)
    ensures LexLess(a, c)
  {
    if a != [] && b != [] && c != [] && a[0] == b[0] && b[0] == c[0] {
      LexTransitive(a[1..], b[1..], c[1..]);
    }
  }

  lemma {:induction false} LexTotal(a: string, b: string)
    requires a != b
    ensures LexLess(a, b) || LexLess(b, a)
  {
    if a != [] && b != [] && a[0] == b[0] {
      assert a == [a[0]] + a[1..] && b == [b[0]] + b[1..];
      LexTotal(a[1..], b[1..]);
    }
  }

  lemma {:induction false} LexAsymmetric(a: string, b: string)
    requires LexLess(a, b)
    ensures !LexLess(b, a)
  {
    if a != [] && b != [] && a[0] == b[0] {
      LexAsymmetric(a[1..], b[1..]);
    }
  }

  predicate StrictlySorted(r: seq<string>)
  {
    forall i, j :: 0 <= i < j < |r| ==> LexLess(r[i], r[j])
  }

  /** `r` is `sorted(s)`: the members of `s`, each once, in increasing order. */
  predicate IsSortedListOf(r: seq<string>, s: set<string>)
  {
    StrictlySorted(r) && Elems(r) == s
  }

  /** `x` placed into a sorted list that lacks it. */
  function InsertSorted(r: seq<string>, x: string): (res: seq<string>)
    requires StrictlySorted(r) && x !in r
    ensures StrictlySorted(res) && Elems(res) == Elems(r) + {x} && |res| == |r| + 1
  {
    if r == [] then [x]
    else if LexLess(x, r[0]) then
      forall j | 0 <= j < |r| ensures LexLess(x, r[j]) {
        if j > 0 { LexTransitive(x, r[0], r[j]); }
      }
      [x] + r
    else
      LexTotal(x, r[0]);
      var rest := InsertSorted(r[1..], x);
      assert forall j :: 0 <= j < |rest| ==> rest[j] in Elems(r[1..]) + {x};
      [r[0]] + rest
  }

  /** `sorted(s)` as a value. */
  ghost function SortedOf(s: set<string>): (r: seq<string>)
    ensures IsSortedListOf(r, s)
    decreases |s|
  {
    if s == {} then []
    else
      var x :| x in s;
      InsertSorted(SortedOf(s - {x}), x)
  }

  /** Python's `sorted` on a set of strings. */
  method SortedList(s: set<string>) returns (r: seq<string>)
    ensures IsSortedListOf(r, s)
  {
    r := [];
    var remaining := s;
    while remaining != {}
      invariant StrictlySorted(r) && Elems(r) + remaining == s && Elems(r) !! remaining
      decreases |remaining|
    {
      var x :| x in remaining;
      r := InsertSorted(r, x);
      remaining := remaining - {x};
    }
  }

  /** Two sorted lists of the same strings are the same list: `sorted` has one answer. */
  lemma {:induction false} SortedCard(r: seq<string>)
    requires StrictlySorted(r)
    ensures |Elems(r)| == |r|
  {
    if r != [] {
      SortedCard(r[1..]);
      SortedHead(r);
    }
  }

  /** The head of a strictly sorted list is new to its tail. */
  lemma SortedHead(r: seq<string>)
    requires StrictlySorted(r) && r != []
    ensures Elems(r) == {r[0]} + Elems(r[1..]) && r[0] !in Elems(r[1..])
  {
    assert Elems(r) == {r[0]} + Elems(r[1..]) by {
      assert forall x :: x in r <==> x == r[0] || x in r[1..] by {
        assert r == [r[0]] + r[1..];
      }
    }
    forall k | 1 <= k < |r| ensures r[k] != r[0] {
      LexAsymmetric(r[0], r[k]);
    }
  }

  lemma {:induction false} SortedUnique(r: seq<string>, t: seq<string>)
    requires StrictlySorted(r) && StrictlySorted(t) && Elems(r) == Elems(t)
    ensures r == t
  {
    SortedCard(r);
    SortedCard(t);
    if r != [] && t != [] {
      assert r[0] in Elems(t) && t[0] in Elems(r);
      if r[0] != t[0] {
        var i :| 0 <= i < |t| && t[i] == r[0];
        var j :| 0 <= j < |r| && r[j] == t[0];
        assert i > 0 && j > 0;
        LexAsymmetric(t[0], r[0]);
      }
      assert Elems(r[1..]) == Elems(r) - {r[0]} by {
        forall x | x in Elems(r) && x != r[0] ensures x in Elems(r[1..]) {
          var k :| 0 <= k < |r| && r[k] == x;
        }
        forall k | 1 <= k < |r| ensures r[k] != r[0] {
          LexAsymmetric(r[0], r[k]);
        }
      }
      assert Elems(t[1..]) == Elems(t) - {t[0]} by {
        forall x | x in Elems(t) && x != t[0] ensures x in Elems(t[1..]) {
          var k :| 0 <= k < |t| && t[k] == x;
        }
        forall k | 1 <= k < |t| ensures t[k] != t[0] {
          LexAsymmetric(t[0], t[k]);
        }
      }
      SortedUnique(r[1..], t[1..]);
      assert r == [r[0]] + r[1..] && t == [t[0]] + t[1..];
    }
  }

  /** The benchmark-collecting loop of `get_all_benchmarks` (and of both exports). */
  method CollectBenchmarks(models: seq<ModelEntry>) returns (keys: set<string>)
    ensures keys == BenchmarkKeys(models)
  {
    keys := {};
    for i := 0 to |models|
      invariant keys == BenchmarkKeys(models[..i])
    {
      assert models[..i + 1][..i] == models[..i];
      keys := keys + models[i].benchmarks.Keys;
    }
    assert models[..|models|] == models;
  }

  // ---------------------------------------------------------------------
  // The leaderboard object.

  class Leaderboard {
    var models: seq<ModelEntry>

    ghost predicate Valid()
      reads this
    {
      DistinctNames(models)
    }

    /** A leaderboard whose data file is missing or unreadable starts empty. */
    constructor ()
      ensures Valid() && models == []
    {
      models := [];
    }

    /** `add_result`; `now` stands for the timestamp the clock supplies. */
    method AddResult(modelName: string, benchmark: string, score: real, now: string, details: Option<Details>)
      requires Valid()
      modifies this
      ensures Valid()
      ensures models == AddTo(old(models), modelName, benchmark, Record(score, now, DetailsOr(details)))
      ensures GetResult(modelName, benchmark) == Some(Record(score, now, DetailsOr(details)))
    {
      var rec := Record(score, now, DetailsOr(details));
      ghost var before := models;
      var found := Find(models, modelName);
      var i: nat;
      if found.None? {
        models := models + [ModelEntry(modelName, map[])];
        i := |models| - 1;
      } else {
        i := found.value;
      }
      var table := AppendRun(models[i].benchmarks, benchmark, rec);
      assert Lookup(before, modelName, benchmark)
        == if benchmark in models[i].benchmarks then Some(models[i].benchmarks[benchmark]) else None;
      models := models[i := ModelEntry(modelName, table)];
      if found.None? {
        assert models == before + [ModelEntry(modelName, map[benchmark := Runs([rec])])];
      }
      assert models == AddTo(before, modelName, benchmark, rec);
      AddedIsLatest(before, modelName, benchmark, rec);
    }

    /** The slot update of `add_result`: a missing slot starts empty, a legacy single
        run becomes a list of one, and the run goes at the end. */
    static method AppendRun(table: map<string, Stored>, benchmark: string, rec: Record) returns (table': map<string, Stored>)
      ensures table' == table[benchmark := Appended(if benchmark in table then Some(table[benchmark]) else None, rec)]
    {
      table' := table;
      if benchmark !in table' {
        table' := table'[benchmark := Runs([])];
      }
      var current := table'[benchmark];
      if current.Legacy? {
        table' := table'[benchmark := Runs([current.run])];
      }
      table' := table'[benchmark := Runs(table'[benchmark].runs + [rec])];
      assert table'[benchmark] == Appended(if benchmark in table then Some(table[benchmark]) else None, rec) by {
        if current.Legacy? {
          assert [current.run] + [rec] == [current.run, rec];
        } else if benchmark !in table {
          assert [] + [rec] == [rec];
        }
      }
    }

    /** `get_result`: the latest of the runs stored for the pair, if any. */
    function GetResult(modelName: string, benchmark: string): (r: Option<Record>)
      reads this
      ensures r.None? <==> RunsOf(Lookup(models, modelName, benchmark)) == []
      ensures r.Some? ==> var rs := RunsOf(Lookup(models, modelName, benchmark)); r.value == rs[|rs| - 1]
    {
      match Lookup(models, modelName, benchmark)
      case None => None
      case Some(Runs(rs)) => if rs == [] then None else Some(rs[|rs| - 1])
      case Some(Legacy(r)) => Some(r)
    }

    /** `get_all_benchmarks`. */
    method GetAllBenchmarks() returns (bs: seq<string>)
      ensures IsSortedListOf(bs, BenchmarkKeys(models))
      ensures bs == SortedOf(BenchmarkKeys(models))
    {
      var keys := CollectBenchmarks(models);
      bs := SortedList(keys);
      SortedUnique(bs, SortedOf(keys));
    }

    /** `remove_model`. */
    method RemoveModel(modelName: string) returns (removed: bool)
      requires Valid()
      modifies this
      ensures Valid()
      ensures removed <==> Find(old(models), modelName).Some?
      ensures models == Removed(old(models), modelName)
    {
      var found := Find(models, modelName);
      if found.Some? {
        models := models[..found.value] + models[found.value + 1..];
        return true;
      }
      return false;
    }
  }

  // ---------------------------------------------------------------------
  // What adding and removing do to the table.

  lemma {:induction false} FindUpdate(models: seq<ModelEntry>, i: nat, e: ModelEntry, name: string)
    requires i < |models| && e.name == models[i].name
    ensures Find(models[i := e], name) == Find(models, name)
  {
    if models != [] && i < |models| - 1 {
      var init := models[..|models| - 1];
      assert models[i := e][..|models| - 1] == init[i := e];
      FindUpdate(init, i, e, name);
    }
  }

  lemma FindAppend(models: seq<ModelEntry>, e: ModelEntry, name: string)
    ensures Find(models + [e], name) == if e.name == name then Some(|models|) else Find(models, name)
  {
    assert (models + [e])[..|models|] == models;
  }

  /** After adding a run, it is the latest stored for its pair. */
  lemma AddedIsLatest(models: seq<ModelEntry>, name: string, bench: string, rec: Record)
    ensures var rs := RunsOf(Lookup(AddTo(models, name, bench, rec), name, bench));
      rs != [] && rs[|rs| - 1] == rec
  {
    AddToLookup(models, name, bench, rec, name, bench);
  }

  /** `add_result` changes exactly one slot, the one it was given, and there it appends
      the new run after the existing ones, whatever their format. */
  lemma AddToLookup(models: seq<ModelEntry>, name: string, bench: string, rec: Record, name': string, bench': string)
    ensures Lookup(AddTo(models, name, bench, rec), name', bench') ==
      if name' == name && bench' == bench then Some(Appended(Lookup(models, name, bench), rec))
      else Lookup(models, name', bench')
  {
    match Find(models, name)
    case None =>
      FindAppend(models, ModelEntry(name, map[bench := Runs([rec])]), name');
    case Some(i) =>
      FindUpdate(models, i, ModelEntry(name, models[i].benchmarks[bench := Appended(Lookup(models, name, bench), rec)]), name');
  }

  /** Removing a model that was just added for the first time restores the table. */
  lemma RemoveUndoesFirstAdd(models: seq<ModelEntry>, name: string, bench: string, rec: Record)
    requires Find(models, name).None?
    ensures Removed(AddTo(models, name, bench, rec), name) == models
  {
    var e := ModelEntry(name, map[bench := Runs([rec])]);
    FindAppend(models, e, name);
    assert (models + [e])[..|models|] == models;
  }

  /** The entries left after removing position `i`. */
  lemma RemovedAt(models: seq<ModelEntry>, i: nat)
    requires i < |models|
    ensures forall k :: 0 <= k < |models| - 1 ==>
      (models[..i] + models[i + 1..])[k] == if k < i then models[k] else models[k + 1]
  {
  }

  /** Removal drops the model and keeps the other names distinct. */
  lemma RemovedDistinct(models: seq<ModelEntry>, name: string)
    requires DistinctNames(models)
    ensures DistinctNames(Removed(models, name))
    ensures Find(Removed(models, name), name).None?
  {
    if Find(models, name).Some? {
      var i := Find(models, name).value;
      RemovedAtDistinct(models, i);
      RemovedAtAbsent(models, i);
    }
  }

  lemma RemovedAtDistinct(models: seq<ModelEntry>, i: nat)
    requires DistinctNames(models) && i < |models|
    ensures DistinctNames(models[..i] + models[i + 1..])
  {
    var rest := models[..i] + models[i + 1..];
    RemovedAt(models, i);
    forall a, b | 0 <= a < b < |rest| ensures rest[a].name != rest[b].name {
      var a', b' := if a < i then a else a + 1, if b < i then b else b + 1;
      assert rest[a] == models[a'] && rest[b] == models[b'];
    }
  }

  lemma RemovedAtAbsent(models: seq<ModelEntry>, i: nat)
    requires DistinctNames(models) && i < |models|
    ensures forall m :: m in models[..i] + models[i + 1..] ==> m.name != models[i].name
  {
    var rest := models[..i] + models[i + 1..];
    RemovedAt(models, i);
    forall k | 0 <= k < |rest| ensures rest[k].name != models[i].name {
      var k' := if k < i then k else k + 1;
      assert rest[k] == models[k'];
    }
  }

  /** With distinct names, the model carrying a name is the one found. */
  lemma FindUnique(models: seq<ModelEntry>, name: string, k: nat)
    requires DistinctNames(models) && k < |models| && models[k].name == name
    ensures Find(models, name) == Some(k)
  {
  }

  /** Removal keeps the other models in their order. */
  lemma RemovedNames(models: seq<ModelEntry>, name: string)
    ensures Names(Removed(models, name)) ==
      if Find(models, name).Some? then Names(models)[..Find(models, name).value] + Names(models)[Find(models, name).value + 1..]
      else Names(models)
  {
    if Find(models, name).Some? {
      NamesRemoveAt(models, Find(models, name).value);
    }
  }

  lemma NamesRemoveAt(models: seq<ModelEntry>, i: nat)
    requires i < |models|
    ensures Names(models[..i] + models[i + 1..]) == Names(models)[..i] + Names(models)[i + 1..]
  {
    NamesConcat(models[..i], models[i + 1..]);
    NamesTake(models, i);
    NamesDrop(models, i + 1);
  }

  lemma NamesConcat(x: seq<ModelEntry>, y: seq<ModelEntry>)
    ensures Names(x + y) == Names(x) + Names(y)
  {
    var a, b := Names(x + y), Names(x) + Names(y);
    forall k | 0 <= k < |a| ensures a[k] == b[k] {
      if k < |x| {
        assert (x + y)[k] == x[k];
      } else {
        assert (x + y)[k] == y[k - |x|];
      }
    }
  }

  lemma NamesTake(models: seq<ModelEntry>, n: nat)
    requires n <= |models|
    ensures Names(models[..n]) == Names(models)[..n]
  {
    var a, b := Names(models[..n]), Names(models)[..n];
    forall k | 0 <= k < |a| ensures a[k] == b[k] {
      assert models[..n][k] == models[k];
    }
  }

  lemma NamesDrop(models: seq<ModelEntry>, n: nat)
    requires n <= |models|
    ensures Names(models[n..]) == Names(models)[n..]
  {
    var a, b := Names(models[n..]), Names(models)[n..];
    forall k | 0 <= k < |a| ensures a[k] == b[k] {
      assert models[n..][k] == models[n + k];
    }
  }

  /** Removal leaves every other model's slots alone. */
  lemma RemovedLookup(models: seq<ModelEntry>, name: string, name': string, bench: string)
    requires DistinctNames(models) && name' != name
    ensures Lookup(Removed(models, name), name', bench) == Lookup(models, name', bench)
  {
    match Find(models, name)
    case None =>
    case Some(i) =>
      assert Removed(models, name) == models[..i] + models[i + 1..];
      RemovedAtDistinct(models, i);
      match Find(models, name')
      case None =>
        RemovedStillAbsent(models, i, name');
      case Some(k) =>
        RemovedStillAt(models, i, name', bench, k);
  }

  lemma RemovedStillAbsent(models: seq<ModelEntry>, i: nat, name': string)
    requires i < |models| && Find(models, name').None?
    ensures Find(models[..i] + models[i + 1..], name').None?
  {
    var rest := models[..i] + models[i + 1..];
    RemovedAt(models, i);
    forall k | 0 <= k < |rest| ensures rest[k].name != name' {
      assert rest[k] == models[if k < i then k else k + 1];
    }
  }

  lemma RemovedStillAt(models: seq<ModelEntry>, i: nat, name': string, bench: string, k: nat)
    requires i < |models| && Find(models, name') == Some(k) && k != i
    requires DistinctNames(models[..i] + models[i + 1..])
    ensures Lookup(models[..i] + models[i + 1..], name', bench) == Lookup(models, name', bench)
  {
    var rest := models[..i] + models[i + 1..];
    RemovedAt(models, i);
    var k' := if k < i then k else k - 1;
    assert rest[k'] == models[k];
    FindUnique(rest, name', k');
    LookupAt(rest, name', bench, k');
    LookupAt(models, name', bench, k);
  }

  lemma LookupAt(models: seq<ModelEntry>, name: string, bench: string, k: nat)
    requires Find(models, name) == Some(k)
    ensures Lookup(models, name, bench) == if bench in models[k].benchmarks then Some(models[k].benchmarks[bench]) else None
  {
  }

  /** Adding a run makes its benchmark known and forgets none. */
  lemma AddToBenchmarks(models: seq<ModelEntry>, name: string, bench: string, rec: Record)
    ensures BenchmarkKeys(AddTo(models, name, bench, rec)) == BenchmarkKeys(models) + {bench}
  {
    match Find(models, name)
    case None =>
      var e := ModelEntry(name, map[bench := Runs([rec])]);
      assert AddTo(models, name, bench, rec) == models + [e];
      AppendBenchmarks(models, e);
    case Some(i) =>
      var e := ModelEntry(name, models[i].benchmarks[bench := Appended(Lookup(models, name, bench), rec)]);
      assert AddTo(models, name, bench, rec) == models[i := e];
      ReplaceBenchmarks(models, i, e, bench);
  }

  lemma AppendBenchmarks(models: seq<ModelEntry>, e: ModelEntry)
    ensures BenchmarkKeys(models + [e]) == BenchmarkKeys(models) + e.benchmarks.Keys
  {
    assert (models + [e])[..|models|] == models;
  }

  /** Replacing one entry by one that knows `bench` as well adds exactly `bench`. */
  lemma ReplaceBenchmarks(models: seq<ModelEntry>, i: nat, e: ModelEntry, bench: string)
    requires i < |models| && e.benchmarks.Keys == models[i].benchmarks.Keys + {bench}
    ensures BenchmarkKeys(models[i := e]) == BenchmarkKeys(models) + {bench}
  {
    BenchmarkKeysReplace(models, i, e);
    BenchmarkKeysSplit(models, i);
  }

  lemma BenchmarkKeysReplace(models: seq<ModelEntry>, i: nat, e: ModelEntry)
    requires i < |models|
    ensures BenchmarkKeys(models[i := e]) ==
      BenchmarkKeys(models[..i]) + e.benchmarks.Keys + BenchmarkKeys(models[i + 1..])
  {
    BenchmarkKeysSplit(models[i := e], i);
    assert models[i := e][..i] == models[..i];
    assert models[i := e][i + 1..] == models[i + 1..];
  }

  lemma {:induction false} BenchmarkKeysConcat(a: seq<ModelEntry>, b: seq<ModelEntry>)
    ensures BenchmarkKeys(a + b) == BenchmarkKeys(a) + BenchmarkKeys(b)
  {
    if b != [] {
      BenchmarkKeysConcat(a, b[..|b| - 1]);
      assert (a + b)[..|a + b| - 1] == a + b[..|b| - 1];
    } else {
      assert a + b == a;
    }
  }

  lemma BenchmarkKeysSplit(models: seq<ModelEntry>, i: nat)
    requires i < |models|
    ensures BenchmarkKeys(models) == BenchmarkKeys(models[..i]) + models[i].benchmarks.Keys + BenchmarkKeys(models[i + 1..])
  {
    var pre, mid, post := models[..i], [models[i]], models[i + 1..];
    assert models == pre + models[i..];
    assert models[i..] == mid + post by {
      assert models[i..][1..] == post;
    }
    assert models == pre + mid + post;
    assert BenchmarkKeys(mid) == models[i].benchmarks.Keys by {
      assert mid[..0] == [];
    }
    assert BenchmarkKeys(pre + mid) == BenchmarkKeys(pre) + BenchmarkKeys(mid) by {
      BenchmarkKeysConcat(pre, mid);
    }
    assert BenchmarkKeys(pre + mid + post) == BenchmarkKeys(pre + mid) + BenchmarkKeys(post) by {
      BenchmarkKeysConcat(pre + mid, post);
    }
  }
}
