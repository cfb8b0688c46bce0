/** Rankings over the leaderboard table and the two renderings of them: the markdown
    export and the terminal table. */
module LeaderboardExports {
  import opened MazeCommon
  import opened Leaderboards

  /** One ranking entry before ranks are assigned. */
  datatype Run = Run(model: string, score: real, timestamp: string, details: Details)

  /** A ranking entry with its 1-based rank. */
  datatype Ranked = Ranked(run: Run, rank: nat)

  function ToRun(name: string, r: Record): Run
  {
    Run(name, r.score, r.timestamp, r.details)
  }

  /** One entry per run `e` stores under `bench`, in stored order. */
  function ModelRuns(e: ModelEntry, bench: string): (r: seq<Run>)
    ensures forall k :: 0 <= k < |r| ==> r[k].model == e.name
  {
    var stored := if bench in e.benchmarks then RunsOf(Some(e.benchmarks[bench])) else [];
    seq(|stored|, k requires 0 <= k < |stored| => ToRun(e.name, stored[k]))
  }

  /** The entries collected for `bench` before sorting, models in table order. */
  function Collected(models: seq<ModelEntry>, bench: string): seq<Run>
  {
    if models == [] then []
    else Collected(models[..|models| - 1], bench) + ModelRuns(models[|models| - 1], bench)
  }

  // ---------------------------------------------------------------------
  // `list.sort(key=score, reverse=True)`: a stable sort, highest score first.

  predicate NonIncreasing(s: seq<Run>)
  {
    forall i, j :: 0 <= i < j < |s| ==> s[i].score >= s[j].score
  }

  /** `x` placed after every entry of `s` that scores at least as much. */
  function InsertDesc(s: seq<Run>, x: Run): (r: seq<Run>)
    ensures multiset(r) == multiset(s) + multiset{x} && |r| == |s| + 1
  {
    if s == [] || s[|s| - 1].score >= x.score then s + [x]
    else
      assert s == s[..|s| - 1] + [s[|s| - 1]];
      InsertDesc(s[..|s| - 1], x) + [s[|s| - 1]]
  }

  /** The sorted order: insertion from the front keeps equal scores in collection order. */
  function SortDesc(s: seq<Run>): (r: seq<Run>)
    ensures multiset(r) == multiset(s) && |r| == |s|
  {
    if s == [] then []
    else
      assert s == s[..|s| - 1] + [s[|s| - 1]];
      InsertDesc(SortDesc(s[..|s| - 1]), s[|s| - 1])
  }

  /** The entries scoring exactly `v`, in order. */
  function WithScore(s: seq<Run>, v: real): seq<Run>
  {
    if s == [] then []
    else WithScore(s[..|s| - 1], v) + (if s[|s| - 1].score == v then [s[|s| - 1]] else [])
  }

  lemma {:induction false} InsertDescSorted(s: seq<Run>, x: Run)
    requires NonIncreasing(s)
    ensures NonIncreasing(InsertDesc(s, x))
  {
    if s != [] && s[|s| - 1].score < x.score {
      InsertDescSorted(s[..|s| - 1], x);
      InsertDescSortedStep(s, x);
    }
  }

  /** Moving `x` in front of a lower last entry keeps the order, given it is kept before it. */
  lemma InsertDescSortedStep(s: seq<Run>, x: Run)
    requires NonIncreasing(s) && s != [] && s[|s| - 1].score < x.score
    requires NonIncreasing(InsertDesc(s[..|s| - 1], x))
    ensures NonIncreasing(InsertDesc(s, x))
  {
    var init, last := s[..|s| - 1], s[|s| - 1];
    var r := InsertDesc(init, x);
    assert InsertDesc(s, x) == r + [last];
    forall i | 0 <= i < |r| ensures r[i].score >= last.score {
      assert r[i] in multiset(r);
      if r[i] != x {
        assert r[i] in multiset(init);
      }
    }
  }

  /** The sorted entries never go up in score. */
  lemma {:induction false} SortDescSorted(s: seq<Run>)
    ensures NonIncreasing(SortDesc(s))
  {
    if s != [] {
      SortDescSorted(s[..|s| - 1]);
      InsertDescSorted(SortDesc(s[..|s| - 1]), s[|s| - 1]);
    }
  }

  lemma {:induction false} WithScoreConcat(a: seq<Run>, b: seq<Run>, v: real)
    ensures WithScore(a + b, v) == WithScore(a, v) + WithScore(b, v)
  {
    if b == [] {
      assert a + b == a;
    } else {
      WithScoreConcat(a, b[..|b| - 1], v);
      assert b == b[..|b| - 1] + [b[|b| - 1]];
      WithScoreConcatStep(a, b[..|b| - 1], b[|b| - 1], v);
    }
  }

  lemma WithScoreConcatStep(a: seq<Run>, init: seq<Run>, last: Run, v: real)
    requires WithScore(a + init, v) == WithScore(a, v) + WithScore(init, v)
    ensures WithScore(a + (init + [last]), v) == WithScore(a, v) + WithScore(init + [last], v)
  {
    var tail := if last.score == v then [last] else [];
    ConcatAssoc(a, init, [last]);
    WithScoreSnoc(a + init, last, v);
    WithScoreSnoc(init, last, v);
    ConcatAssoc(WithScore(a, v), WithScore(init, v), tail);
  }

  lemma {:induction false} InsertDescStable(s: seq<Run>, x: Run, v: real)
    requires NonIncreasing(s)
    ensures WithScore(InsertDesc(s, x), v) == WithScore(s, v) + (if x.score == v then [x] else [])
  {
    if s == [] || s[|s| - 1].score >= x.score {
      WithScoreConcat(s, [x], v);
      assert [x][..0] == [];
    } else {
      InsertDescStable(s[..|s| - 1], x, v);
      InsertDescStableStep(s, x, v);
    }
  }

  /** The case where `x` moves in front of the last entry, given the claim for the rest. */
  lemma InsertDescStableStep(s: seq<Run>, x: Run, v: real)
    requires s != [] && s[|s| - 1].score < x.score
    requires WithScore(InsertDesc(s[..|s| - 1], x), v) == WithScore(s[..|s| - 1], v) + (if x.score == v then [x] else [])
    ensures WithScore(InsertDesc(s, x), v) == WithScore(s, v) + (if x.score == v then [x] else [])
  {
    var init, last := s[..|s| - 1], s[|s| - 1];
    assert InsertDesc(s, x) == InsertDesc(init, x) + [last];
    SwapLast(InsertDesc(init, x), init, last, if x.score == v then [x] else [], v);
  }

  /** Appending `last` behind `xs` or in front of it makes no difference to the entries
      scoring `v` when at most one of the two scores `v`. */
  lemma SwapLast(r: seq<Run>, init: seq<Run>, last: Run, xs: seq<Run>, v: real)
    requires WithScore(r, v) == WithScore(init, v) + xs
    requires xs == [] || last.score != v
    ensures WithScore(r + [last], v) == WithScore(init, v) + (if last.score == v then [last] else []) + xs
  {
    WithScoreSnoc(r, last, v);
  }

  lemma WithScoreSnoc(a: seq<Run>, last: Run, v: real)
    ensures WithScore(a + [last], v) == WithScore(a, v) + (if last.score == v then [last] else [])
  {
    assert (a + [last])[..|a|] == a;
  }

  /** Stability: for every score, the entries with that score keep their collection order. */
  lemma {:induction false} SortDescStable(s: seq<Run>, v: real)
    ensures WithScore(SortDesc(s), v) == WithScore(s, v)
  {
    if s != [] {
      var init := s[..|s| - 1];
      SortDescStable(init, v);
      SortDescSorted(init);
      InsertDescStable(SortDesc(init), s[|s| - 1], v);
    }
  }

  // ---------------------------------------------------------------------
  // `get_rankings`.

  /** Ranks 1, 2, ... in list order. */
  function Ranks(runs: seq<Run>): seq<Ranked>
  {
    seq(|runs|, i requires 0 <= i < |runs| => Ranked(runs[i], i + 1))
  }

  /** The result `get_rankings` is specified to return. */
  function RankingsOf(models: seq<ModelEntry>, bench: string): seq<Ranked>
  {
    Ranks(SortDesc(Collected(models, bench)))
  }

  predicate ScoresDescending(rs: seq<Ranked>)
  {
    forall i, j :: 0 <= i < j < |rs| ==> rs[i].run.score >= rs[j].run.score
  }

  predicate RankedInOrder(rs: seq<Ranked>)
  {
    ScoresDescending(rs) && forall i :: 0 <= i < |rs| ==> rs[i].rank == i + 1
  }

  method GetRankings(models: seq<ModelEntry>, bench: string) returns (rankings: seq<Ranked>)
    ensures rankings == RankingsOf(models, bench)
    ensures RankedInOrder(rankings)
    ensures |rankings| == |Collected(models, bench)|
  {
    var entries: seq<Run> := [];
    for i := 0 to |models|
      invariant entries == Collected(models[..i], bench)
    {
      assert models[..i + 1][..i] == models[..i];
      entries := AppendRuns(entries, models[i], bench);
    }
    assert models[..|models|] == models;
    var sorted := SortDesc(entries);
    rankings := RankAll(sorted);
    RanksOfSorted(entries, 0.0);
  }

  /** The inner loop of `get_rankings`: one entry per run the model stores under `bench`. */
  method AppendRuns(entries: seq<Run>, e: ModelEntry, bench: string) returns (entries': seq<Run>)
    ensures entries' == entries + ModelRuns(e, bench)
  {
    entries' := entries;
    if bench in e.benchmarks {
      var results := RunsOf(Some(e.benchmarks[bench]));
      for j := 0 to |results|
        invariant entries' == entries + ModelRuns(e, bench)[..j]
      {
        assert ModelRuns(e, bench)[..j + 1] == ModelRuns(e, bench)[..j] + [ToRun(e.name, results[j])];
        entries' := entries' + [ToRun(e.name, results[j])];
      }
      assert ModelRuns(e, bench)[..|results|] == ModelRuns(e, bench);
    }
  }

  /** Ranks 1, 2, ... handed out in list order. */
  method RankAll(sorted: seq<Run>) returns (rankings: seq<Ranked>)
    ensures rankings == Ranks(sorted)
  {
    rankings := [];
    for i := 0 to |sorted|
      invariant rankings == Ranks(sorted[..i])
    {
      rankings := rankings + [Ranked(sorted[i], i + 1)];
    }
    assert sorted[..|sorted|] == sorted;
  }

  /** The entries of a ranking, without their ranks. */
  function RunsIn(rs: seq<Ranked>): seq<Run>
  {
    seq(|rs|, i requires 0 <= i < |rs| => rs[i].run)
  }

  /** `get_rankings` ranks every collected entry exactly once, best first, ranks counting
      from 1, and entries with equal scores stay in the order the models were added. */
  lemma RankingsStablePermutation(models: seq<ModelEntry>, bench: string, v: real)
    ensures RankedInOrder(RankingsOf(models, bench))
    ensures multiset(RunsIn(RankingsOf(models, bench))) == multiset(Collected(models, bench))
    ensures WithScore(RunsIn(RankingsOf(models, bench)), v) == WithScore(Collected(models, bench), v)
  {
    RanksOfSorted(Collected(models, bench), v);
  }

  lemma RanksOfSorted(s: seq<Run>, v: real)
    ensures RankedInOrder(Ranks(SortDesc(s)))
    ensures multiset(RunsIn(Ranks(SortDesc(s)))) == multiset(s)
    ensures WithScore(RunsIn(Ranks(SortDesc(s))), v) == WithScore(s, v)
  {
    SortDescSorted(s);
    SortDescStable(s, v);
    RanksOf(SortDesc(s));
  }

  lemma RanksOf(t: seq<Run>)
    requires NonIncreasing(t)
    ensures RunsIn(Ranks(t)) == t
    ensures RankedInOrder(Ranks(t))
  {
    assert RunsIn(Ranks(t)) == t;
  }

  // ---------------------------------------------------------------------
  // How adding and removing results change what is ranked.

  lemma {:induction false} CollectedConcat(a: seq<ModelEntry>, b: seq<ModelEntry>, bench: string)
    ensures Collected(a + b, bench) == Collected(a, bench) + Collected(b, bench)
  {
    if b == [] {
      assert a + b == a;
    } else {
      var init, last := b[..|b| - 1], b[|b| - 1];
      CollectedConcat(a, init, bench);
      assert (a + b)[..|a + b| - 1] == a + init;
      calc {
        Collected(a + b, bench);
        Collected(a + init, bench) + ModelRuns(last, bench);
        (Collected(a, bench) + Collected(init, bench)) + ModelRuns(last, bench);
        { ConcatAssoc(Collected(a, bench), Collected(init, bench), ModelRuns(last, bench)); }
        Collected(a, bench) + (Collected(init, bench) + ModelRuns(last, bench));
      }
    }
  }

  lemma CollectedSplit(models: seq<ModelEntry>, i: nat, bench: string)
    requires i < |models|
    ensures Collected(models, bench) ==
      Collected(models[..i], bench) + ModelRuns(models[i], bench) + Collected(models[i + 1..], bench)
  {
    assert models == models[..i] + [models[i]] + models[i + 1..];
    CollectedConcat(models[..i] + [models[i]], models[i + 1..], bench);
    CollectedConcat(models[..i], [models[i]], bench);
    assert [models[i]][..0] == [];
  }

  lemma ModelRunsAppended(e: ModelEntry, bench: string, slot: Option<Stored>, rec: Record)
    requires slot == if bench in e.benchmarks then Some(e.benchmarks[bench]) else None
    ensures ModelRuns(ModelEntry(e.name, e.benchmarks[bench := Appended(slot, rec)]), bench) ==
      ModelRuns(e, bench) + [ToRun(e.name, rec)]
  {
  }

  lemma CollectedReplace(models: seq<ModelEntry>, i: nat, e: ModelEntry, bench: string)
    requires i < |models|
    ensures Collected(models[i := e], bench) ==
      Collected(models[..i], bench) + ModelRuns(e, bench) + Collected(models[i + 1..], bench)
  {
    CollectedSplit(models[i := e], i, bench);
    assert models[i := e][..i] == models[..i] && models[i := e][i + 1..] == models[i + 1..];
  }

  /** `add_result` adds exactly one entry to its benchmark's ranking. */
  lemma CollectedAfterAdd(models: seq<ModelEntry>, name: string, bench: string, rec: Record)
    ensures multiset(Collected(AddTo(models, name, bench, rec), bench)) ==
      multiset(Collected(models, bench)) + multiset{ToRun(name, rec)}
  {
    match Find(models, name)
    case None =>
      var e := ModelEntry(name, map[bench := Runs([rec])]);
      assert (models + [e])[..|models|] == models;
      assert ModelRuns(e, bench) == [ToRun(name, rec)];
    case Some(i) =>
      AddToExisting(models, name, bench, rec, i);
  }

  lemma AddToExisting(models: seq<ModelEntry>, name: string, bench: string, rec: Record, i: nat)
    requires Find(models, name) == Some(i)
    ensures multiset(Collected(AddTo(models, name, bench, rec), bench)) ==
      multiset(Collected(models, bench)) + multiset{ToRun(name, rec)}
  {
    var slot := Lookup(models, name, bench);
    var e := ModelEntry(name, models[i].benchmarks[bench := Appended(slot, rec)]);
    assert AddTo(models, name, bench, rec) == models[i := e];
    ModelRunsAppended(models[i], bench, slot, rec);
    CollectedSplit(models, i, bench);
    CollectedReplace(models, i, e, bench);
    MultisetMiddle(Collected(models[..i], bench), ModelRuns(models[i], bench), Collected(models[i + 1..], bench), ToRun(name, rec));
  }

  lemma MultisetMiddle<T>(a: seq<T>, m: seq<T>, b: seq<T>, x: T)
    ensures multiset(a + (m + [x]) + b) == multiset(a + m + b) + multiset{x}
  {
  }

  /** ... and leaves every other benchmark's ranking as it was. */
  lemma CollectedAfterAddOther(models: seq<ModelEntry>, name: string, bench: string, rec: Record, bench': string)
    requires bench' != bench
    ensures Collected(AddTo(models, name, bench, rec), bench') == Collected(models, bench')
  {
    match Find(models, name)
    case None =>
      var e := ModelEntry(name, map[bench := Runs([rec])]);
      assert (models + [e])[..|models|] == models;
      assert ModelRuns(e, bench') == [];
    case Some(i) =>
      var e := ModelEntry(name, models[i].benchmarks[bench := Appended(Lookup(models, name, bench), rec)]);
      assert ModelRuns(e, bench') == ModelRuns(models[i], bench');
      CollectedSplit(models, i, bench');
      CollectedReplace(models, i, e, bench');
  }

  /** The entries of `s` from models other than `name`, in order. */
  function WithoutModel(s: seq<Run>, name: string): seq<Run>
  {
    if s == [] then []
    else WithoutModel(s[..|s| - 1], name) + (if s[|s| - 1].model != name then [s[|s| - 1]] else [])
  }

  lemma {:induction false} WithoutModelConcat(a: seq<Run>, b: seq<Run>, name: string)
    ensures WithoutModel(a + b, name) == WithoutModel(a, name) + WithoutModel(b, name)
  {
    if b == [] {
      assert a + b == a;
    } else {
      WithoutModelConcat(a, b[..|b| - 1], name);
      assert b == b[..|b| - 1] + [b[|b| - 1]];
      WithoutModelConcatStep(a, b[..|b| - 1], b[|b| - 1], name);
    }
  }

  lemma WithoutModelConcatStep(a: seq<Run>, init: seq<Run>, last: Run, name: string)
    requires WithoutModel(a + init, name) == WithoutModel(a, name) + WithoutModel(init, name)
    ensures WithoutModel(a + (init + [last]), name) == WithoutModel(a, name) + WithoutModel(init + [last], name)
  {
    ConcatAssoc(a, init, [last]);
    WithoutModelSnoc(a + init, last, name);
    WithoutModelSnoc(init, last, name);
    ConcatAssoc(WithoutModel(a, name), WithoutModel(init, name), if last.model != name then [last] else []);
  }

  lemma WithoutModelSnoc(a: seq<Run>, last: Run, name: string)
    ensures WithoutModel(a + [last], name) == WithoutModel(a, name) + (if last.model != name then [last] else [])
  {
    assert (a + [last])[..|a|] == a;
  }

  predicate NoEntryOf(s: seq<Run>, name: string)
  {
    forall k :: 0 <= k < |s| ==> s[k].model != name
  }

  lemma {:induction false} WithoutModelNone(s: seq<Run>, name: string)
    requires NoEntryOf(s, name)
    ensures WithoutModel(s, name) == s
  {
    if s != [] {
      var init, last := s[..|s| - 1], s[|s| - 1];
      forall k | 0 <= k < |init| ensures init[k].model != name {
        assert init[k] == s[k];
      }
      WithoutModelNone(init, name);
      assert s == init + [last];
    }
  }

  lemma {:induction false} WithoutModelAll(s: seq<Run>, name: string)
    requires forall k :: 0 <= k < |s| ==> s[k].model == name
    ensures WithoutModel(s, name) == []
  {
    if s != [] {
      WithoutModelAll(s[..|s| - 1], name);
    }
  }

  lemma {:induction false} CollectedModels(models: seq<ModelEntry>, bench: string, name: string)
    requires forall k :: 0 <= k < |models| ==> models[k].name != name
    ensures NoEntryOf(Collected(models, bench), name)
  {
    if models != [] {
      var init := models[..|models| - 1];
      CollectedModels(init, bench, name);
    }
  }

  /** `remove_model` takes exactly that model's entries out of every ranking. */
  lemma CollectedAfterRemove(models: seq<ModelEntry>, name: string, bench: string)
    requires DistinctNames(models)
    ensures Collected(Removed(models, name), bench) == WithoutModel(Collected(models, bench), name)
  {
    match Find(models, name)
    case None =>
      CollectedModels(models, bench, name);
      WithoutModelNone(Collected(models, bench), name);
    case Some(i) =>
      CollectedWithoutAt(models, i, bench);
  }

  lemma CollectedWithoutAt(models: seq<ModelEntry>, i: nat, bench: string)
    requires DistinctNames(models) && i < |models|
    ensures Collected(models[..i] + models[i + 1..], bench) == WithoutModel(Collected(models, bench), models[i].name)
  {
    var pre, post := models[..i], models[i + 1..];
    CollectedSplit(models, i, bench);
    CollectedConcat(pre, post, bench);
    OthersCollected(models, i, bench);
    WithoutMiddle(Collected(pre, bench), ModelRuns(models[i], bench), Collected(post, bench), models[i].name);
  }

  lemma OthersCollected(models: seq<ModelEntry>, i: nat, bench: string)
    requires DistinctNames(models) && i < |models|
    ensures NoEntryOf(Collected(models[..i], bench), models[i].name)
    ensures NoEntryOf(Collected(models[i + 1..], bench), models[i].name)
  {
    var pre, post := models[..i], models[i + 1..];
    assert forall k :: 0 <= k < |pre| ==> pre[k] == models[k];
    assert forall k :: 0 <= k < |post| ==> post[k] == models[i + 1 + k];
    CollectedModels(pre, bench, models[i].name);
    CollectedModels(post, bench, models[i].name);
  }

  lemma WithoutMiddle(a: seq<Run>, m: seq<Run>, b: seq<Run>, name: string)
    requires NoEntryOf(a, name) && NoEntryOf(b, name)
    requires forall k :: 0 <= k < |m| ==> m[k].model == name
    ensures WithoutModel(a + m + b, name) == a + b
  {
    WithoutModelConcat(a + m, b, name);
    WithoutModelConcat(a, m, name);
    WithoutModelNone(a, name);
    WithoutModelNone(b, name);
    WithoutModelAll(m, name);
    assert a + [] == a;
  }

  // ---------------------------------------------------------------------
  // The markdown export's split into successful and failed runs.

  /** The score every failed run is given. */
  const FailScore: real := -100.0

  predicate IsSuccess(score: real) { score > FailScore }

  predicate IsFailure(score: real) { score == FailScore }

  /** The entries whose score satisfies `p`, in order. */
  function Keep(rs: seq<Ranked>, p: real -> bool): seq<Ranked>
  {
    if rs == [] then []
    else Keep(rs[..|rs| - 1], p) + (if p(rs[|rs| - 1].run.score) then [rs[|rs| - 1]] else [])
  }

  function Successful(rs: seq<Ranked>): seq<Ranked> { Keep(rs, IsSuccess) }

  function Failed(rs: seq<Ranked>): seq<Ranked> { Keep(rs, IsFailure) }

  lemma {:induction false} KeepMembers(rs: seq<Ranked>, p: real -> bool, e: Ranked)
    ensures e in Keep(rs, p) <==> e in rs && p(e.run.score)
  {
    if rs != [] {
      KeepMembers(rs[..|rs| - 1], p, e);
      assert rs == rs[..|rs| - 1] + [rs[|rs| - 1]];
    }
  }

  lemma {:induction false} KeepConcat(a: seq<Ranked>, b: seq<Ranked>, p: real -> bool)
    ensures Keep(a + b, p) == Keep(a, p) + Keep(b, p)
  {
    if b == [] {
      assert a + b == a;
    } else {
      KeepConcat(a, b[..|b| - 1], p);
      assert (a + b)[..|a + b| - 1] == a + b[..|b| - 1];
    }
  }

  lemma {:induction false} KeepAll(rs: seq<Ranked>, p: real -> bool)
    requires forall k :: 0 <= k < |rs| ==> p(rs[k].run.score)
    ensures Keep(rs, p) == rs
  {
    if rs != [] {
      KeepAll(rs[..|rs| - 1], p);
    }
  }

  lemma {:induction false} KeepNone(rs: seq<Ranked>, p: real -> bool)
    requires forall k :: 0 <= k < |rs| ==> !p(rs[k].run.score)
    ensures Keep(rs, p) == []
  {
    if rs != [] {
      KeepNone(rs[..|rs| - 1], p);
    }
  }

  /** An entry is in the successful table iff it scores above -100 and in the failed
      table iff it scores exactly -100; an entry scoring below -100 is in neither. */
  lemma Partition(rs: seq<Ranked>, e: Ranked)
    ensures e in Successful(rs) <==> e in rs && e.run.score > -100.0
    ensures e in Failed(rs) <==> e in rs && e.run.score == -100.0
    ensures e.run.score < -100.0 ==> e !in Successful(rs) && e !in Failed(rs)
  {
    KeepMembers(rs, IsSuccess, e);
    KeepMembers(rs, IsFailure, e);
  }

  /** The number of leading entries of a descending ranking that score above `t`
      (at least `t` when `strict` is false); no later entry does. */
  lemma CutPoint(rs: seq<Ranked>, t: real, strict: bool) returns (m: nat)
    requires ScoresDescending(rs)
    ensures m <= |rs|
    ensures forall i :: 0 <= i < |rs| ==> (i < m <==> (if strict then rs[i].run.score > t else rs[i].run.score >= t))
  {
    m := 0;
    while m < |rs| && (if strict then rs[m].run.score > t else rs[m].run.score >= t)
      invariant m <= |rs|
      invariant forall i :: 0 <= i < m ==> (if strict then rs[i].run.score > t else rs[i].run.score >= t)
    {
      m := m + 1;
    }
  }

  lemma SplitThree<T>(s: seq<T>, lo: nat, hi: nat)
    requires lo <= hi <= |s|
    ensures s == s[0..lo] + s[lo..hi] + s[hi..|s|]
  {
  }

  /** A slice whose entries all fail `p` keeps nothing. */
  lemma KeepSliceNone(rs: seq<Ranked>, p: real -> bool, lo: nat, hi: nat)
    requires lo <= hi <= |rs|
    requires forall i :: lo <= i < hi ==> !p(rs[i].run.score)
    ensures Keep(rs[lo..hi], p) == []
  {
    var b := rs[lo..hi];
    forall k | 0 <= k < |b| ensures !p(b[k].run.score) {
      assert b[k] == rs[lo + k];
    }
    KeepNone(b, p);
  }

  /** A slice whose entries all pass `p` is kept whole. */
  lemma KeepSliceAll(rs: seq<Ranked>, p: real -> bool, lo: nat, hi: nat)
    requires lo <= hi <= |rs|
    requires forall i :: lo <= i < hi ==> p(rs[i].run.score)
    ensures Keep(rs[lo..hi], p) == rs[lo..hi]
  {
    var b := rs[lo..hi];
    forall k | 0 <= k < |b| ensures p(b[k].run.score) {
      assert b[k] == rs[lo + k];
    }
    KeepAll(b, p);
  }

  /** Keeping across three parts of which only the middle one survives. */
  lemma KeepThree(a: seq<Ranked>, b: seq<Ranked>, c: seq<Ranked>, p: real -> bool)
    requires Keep(a, p) == [] && Keep(b, p) == b && Keep(c, p) == []
    ensures Keep(a + b + c, p) == b
  {
    KeepConcat(a + b, c, p);
    KeepConcat(a, b, p);
    assert [] + b + [] == b;
  }

  /** Keeping the entries of one contiguous block. */
  lemma KeepBlock(rs: seq<Ranked>, p: real -> bool, lo: nat, hi: nat)
    requires lo <= hi <= |rs|
    requires forall i :: 0 <= i < |rs| ==> (p(rs[i].run.score) <==> lo <= i < hi)
    ensures Keep(rs, p) == rs[lo..hi]
  {
    var a, b, c := rs[0..lo], rs[lo..hi], rs[hi..|rs|];
    KeepSliceNone(rs, p, 0, lo);
    KeepSliceAll(rs, p, lo, hi);
    KeepSliceNone(rs, p, hi, |rs|);
    KeepThree(a, b, c, p);
    SplitThree(rs, lo, hi);
  }

  /** In a ranking, the successful runs come first, then the failed runs, then the runs
      scoring below -100, each block in ranking order. */
  lemma PartitionLayout(rs: seq<Ranked>) returns (k: nat, f: nat)
    requires ScoresDescending(rs)
    ensures k == |Successful(rs)| && f == |Failed(rs)| && k + f <= |rs|
    ensures Successful(rs) == rs[..k]
    ensures Failed(rs) == rs[k..k + f]
    ensures forall i :: k + f <= i < |rs| ==> rs[i].run.score < -100.0
  {
    k := CutPoint(rs, FailScore, true);
    var m := CutPoint(rs, FailScore, false);
    assert k <= m by {
      if k > 0 {
        assert rs[k - 1].run.score > FailScore;
      }
    }
    KeepBlock(rs, IsSuccess, 0, k);
    KeepBlock(rs, IsFailure, k, m);
    f := m - k;
  }

  /** Read against the ranks: the successful table holds ranks 1, 2, ... without gaps,
      and the failed table's row numbers (counting from 1) are the ranks minus the number
      of successful runs. */
  lemma TableRanks(rs: seq<Ranked>)
    requires RankedInOrder(rs)
    ensures forall i :: 0 <= i < |Successful(rs)| ==> Successful(rs)[i].rank == i + 1
    ensures forall i :: 0 <= i < |Failed(rs)| ==> Failed(rs)[i].rank == |Successful(rs)| + i + 1
  {
    var k, f := PartitionLayout(rs);
  }

  // ---------------------------------------------------------------------
  // Rank labels.

  function DigitChar(d: nat): char
    requires d < 10
  {
    (48 + d) as char
  }

  predicate IsDigit(c: char) { '0' <= c <= '9' }

  predicate AllDigits(s: string) { forall k :: 0 <= k < |s| ==> IsDigit(s[k]) }

  /** `str(n)` for a non-negative integer. */
  function NatToString(n: nat): string
  {
    if n < 10 then [DigitChar(n)] else NatToString(n / 10) + [DigitChar(n % 10)]
  }

  /** The value of a decimal digit string. */
  function ParseNat(s: string): nat
    requires AllDigits(s)
  {
    if s == [] then 0 else ParseNat(s[..|s| - 1]) * 10 + (s[|s| - 1] as int - 48)
  }

  /** `str(n)` is a non-empty digit string that reads back as `n`. */
  lemma {:induction false} NatToStringRoundTrip(n: nat)
    ensures |NatToString(n)| >= 1 && AllDigits(NatToString(n))
    ensures ParseNat(NatToString(n)) == n
  {
    if n >= 10 {
      NatToStringRoundTrip(n / 10);
      var init := NatToString(n / 10);
      assert (init + [DigitChar(n % 10)])[..|init|] == init;
    } else {
      assert [DigitChar(n)][..0] == [];
    }
  }

  function Pow10(k: nat): nat { if k == 0 then 1 else 10 * Pow10(k - 1) }

  /** A number below 10^k takes at most k digits. */
  lemma {:induction false} NatToStringLength(n: nat, k: nat)
    requires 1 <= k && n < Pow10(k)
    ensures |NatToString(n)| <= k
  {
    if n >= 10 {
      NatToStringLength(n / 10, k - 1);
    }
  }

  const Gold: string := "\U{1F947}"
  const Silver: string := "\U{1F948}"
  const Bronze: string := "\U{1F949}"

  predicate IsMedal(s: string) { s == Gold || s == Silver || s == Bronze }

  /** The rank column of the markdown export's successful table. */
  function RankDisplay(rank: nat): string
  {
    if rank == 1 then Gold
    else if rank == 2 then Silver
    else if rank == 3 then Bronze
    else NatToString(rank)
  }

  /** Medals go to exactly the ranks 1 to 3, and different ranks are shown differently. */
  lemma RankDisplayMedals(rank: nat, other: nat)
    ensures IsMedal(RankDisplay(rank)) <==> 1 <= rank <= 3
    ensures RankDisplay(rank) == RankDisplay(other) ==> rank == other
  {
    NatToStringRoundTrip(rank);
    NatToStringRoundTrip(other);
  }

  /** The rank column of the terminal table. */
  function CliPrefix(rank: nat): string
  {
    if rank == 1 then "[1st]"
    else if rank == 2 then "[2nd]"
    else if rank == 3 then "[3rd]"
    else "#" + NatToString(rank)
  }

  /** Below rank 100000 a label fits the six-character rank column. */
  lemma CliPrefixWidth(rank: nat)
    requires rank < 100000
    ensures |CliPrefix(rank)| <= 6
  {
    assert Pow10(5) == 100000;
    NatToStringLength(rank, 5);
  }

  /** Different ranks get different labels. */
  lemma CliPrefixDistinct(rank: nat, other: nat)
    ensures CliPrefix(rank) == CliPrefix(other) ==> rank == other
  {
    NatToStringRoundTrip(rank);
    NatToStringRoundTrip(other);
    assert CliPrefix(rank)[0] == '#' <==> !(1 <= rank <= 3);
    assert CliPrefix(other)[0] == '#' <==> !(1 <= other <= 3);
    if CliPrefix(rank) == CliPrefix(other) {
      if 1 <= rank <= 3 {
        assert CliPrefix(rank)[1] == CliPrefix(other)[1];
      } else {
        assert CliPrefix(rank)[1..] == NatToString(rank);
        assert CliPrefix(other)[1..] == NatToString(other);
      }
    }
  }

  /** The model column of the terminal table: names longer than 28 characters are cut
      to their first 25 followed by "...". */
  function CliModelName(model: string): (r: string)
    ensures |r| <= 28
    ensures r == model <==> |model| <= 28
    ensures |model| > 28 ==> |r| == 28 && r[..25] == model[..25] && r[25..] == "..."
  {
    if |model| > 28 then model[..25] + "..." else model
  }

  /** Shortening a shortened name changes nothing. */
  lemma CliModelNameIdempotent(model: string)
    ensures CliModelName(CliModelName(model)) == CliModelName(model)
  {
  }

  function Spaces(n: nat): string { seq(n, _ => ' ') }

  /** Python's `{s:<w}`. */
  function PadRight(s: string, w: nat): (r: string)
    ensures |r| == Max(|s|, w) && r[..|s|] == s
    ensures forall k :: |s| <= k < |r| ==> r[k] == ' '
  {
    if |s| >= w then s else s + Spaces(w - |s|)
  }

  /** Python's `{s:>w}`. */
  function PadLeft(s: string, w: nat): (r: string)
    ensures |r| == Max(|s|, w) && r[|r| - |s|..] == s
    ensures forall k :: 0 <= k < |r| - |s| ==> r[k] == ' '
  {
    if |s| >= w then s else Spaces(w - |s|) + s
  }

  /** One row of the terminal table; `fmtScore` renders `{score:>10.2f}`. */
  function CliRow(e: Ranked, fmtScore: real -> string): string
  {
    PadRight(CliPrefix(e.rank), 6) + " " + PadRight(CliModelName(e.run.model), 30) + " " + fmtScore(e.run.score)
  }

  /** Below rank 100000 every row lays out the same: the label at column 0, the model
      from column 7, the score from column 38. */
  lemma CliRowColumns(e: Ranked, fmtScore: real -> string)
    requires e.rank < 100000
    ensures var row := CliRow(e, fmtScore);
      |row| == 38 + |fmtScore(e.run.score)|
      && row[..|CliPrefix(e.rank)|] == CliPrefix(e.rank)
      && row[7..7 + |CliModelName(e.run.model)|] == CliModelName(e.run.model)
      && row[38..] == fmtScore(e.run.score)
  {
    CliPrefixWidth(e.rank);
    var a := PadRight(CliPrefix(e.rank), 6);
    var b := PadRight(CliModelName(e.run.model), 30);
    var row := CliRow(e, fmtScore);
    assert |a| == 6 && |b| == 30;
    assert row == a + " " + b + " " + fmtScore(e.run.score);
    assert row[..6] == a;
    assert row[7..37] == b;
    assert row[..|CliPrefix(e.rank)|] == a[..|CliPrefix(e.rank)|];
    assert row[7..7 + |CliModelName(e.run.model)|] == b[..|CliModelName(e.run.model)|];
  }

  // ---------------------------------------------------------------------
  // `export_markdown`. Number formatting (`:.2f`, `:.1f`) and `str.title` are
  // parameters.

  const MdHeader: string := "# \U{1F3C6} Benchmark Leaderboard\n"
  const MdNoResults: string := "*No benchmark results yet.*\n"
  const MdSuccessHead: seq<string> :=
    ["### \U{1F3C6} Successful Runs", "| Rank | Model | Score | Time (s) |", "|------|-------|-------|----------|"]
  const MdFailedHead: seq<string> :=
    ["### \U{274C} Failed Runs (Score: -100)", "| Rank | Model | Time (s) |", "|------|-------|----------|"]

  /** `details.get("elapsed_seconds", 0)`. */
  function Elapsed(d: Details): real
  {
    if "elapsed_seconds" in d then d["elapsed_seconds"] else 0.0
  }

  function SuccessLine(e: Ranked, fmt2: real -> string, fmt1: real -> string): string
  {
    "| " + RankDisplay(e.rank) + " | " + e.run.model + " | " + fmt2(e.run.score) + " | " + fmt1(Elapsed(e.run.details)) + " |"
  }

  function FailedLine(number: nat, e: Ranked, fmt1: real -> string): string
  {
    "| " + NatToString(number) + " | " + e.run.model + " | " + fmt1(Elapsed(e.run.details)) + " |"
  }

  /** The successful table's rows, in ranking order. */
  function SuccessRows(s: seq<Ranked>, fmt2: real -> string, fmt1: real -> string): seq<string>
  {
    seq(|s|, k requires 0 <= k < |s| => SuccessLine(s[k], fmt2, fmt1))
  }

  /** The failed table's rows, numbered from 1. */
  function FailedRows(s: seq<Ranked>, fmt1: real -> string): seq<string>
  {
    seq(|s|, k requires 0 <= k < |s| => FailedLine(k + 1, s[k], fmt1))
  }

  /** The lines one benchmark contributes: nothing when it has no entries. */
  function SectionLines(bench: string, rs: seq<Ranked>, title: string -> string,
                        fmt2: real -> string, fmt1: real -> string): seq<string>
  {
    if rs == [] then []
    else
      ["## " + title(bench) + " Benchmark\n"]
      + (if Successful(rs) == [] then [] else MdSuccessHead + SuccessRows(Successful(rs), fmt2, fmt1) + [""])
      + (if Failed(rs) == [] then [] else MdFailedHead + FailedRows(Failed(rs), fmt1) + [""])
  }

  /** The benchmarks an export covers: the one asked for, else every benchmark sorted. */
  ghost function Shown(models: seq<ModelEntry>, benchmark: string): seq<string>
  {
    if benchmark != "" then [benchmark] else SortedOf(BenchmarkKeys(models))
  }

  function MarkdownSections(models: seq<ModelEntry>, bs: seq<string>, title: string -> string,
                            fmt2: real -> string, fmt1: real -> string): seq<string>
  {
    if bs == [] then []
    else MarkdownSections(models, bs[..|bs| - 1], title, fmt2, fmt1)
         + SectionLines(bs[|bs| - 1], RankingsOf(models, bs[|bs| - 1]), title, fmt2, fmt1)
  }

  /** The section loop body of `export_markdown`. */
  method MarkdownSection(bench: string, rankings: seq<Ranked>, title: string -> string,
                         fmt2: real -> string, fmt1: real -> string) returns (lines: seq<string>)
    ensures lines == SectionLines(bench, rankings, title, fmt2, fmt1)
  {
    lines := [];
    if rankings == [] {
      return;
    }
    var successful := Successful(rankings);
    var failed := Failed(rankings);
    lines := lines + ["## " + title(bench) + " Benchmark\n"];
    assert lines == ["## " + title(bench) + " Benchmark\n"];
    var table: seq<string> := [];
    if successful != [] {
      table := SuccessTable(successful, fmt2, fmt1);
    }
    lines := lines + table;
    ghost var mid := lines;
    table := [];
    if failed != [] {
      table := FailedTable(failed, fmt1);
    }
    lines := lines + table;
    assert lines == mid + table;
  }

  lemma SuccessRowsSnoc(head: seq<string>, s: seq<Ranked>, k: nat, fmt2: real -> string, fmt1: real -> string)
    requires k < |s|
    ensures head + SuccessRows(s[..k + 1], fmt2, fmt1) == head + SuccessRows(s[..k], fmt2, fmt1) + [SuccessLine(s[k], fmt2, fmt1)]
  {
    var a, b := head + SuccessRows(s[..k + 1], fmt2, fmt1), head + SuccessRows(s[..k], fmt2, fmt1) + [SuccessLine(s[k], fmt2, fmt1)];
    assert |a| == |b|;
    forall j | 0 <= j < |a| ensures a[j] == b[j] {
      if j >= |head| {
        assert a[j] == SuccessLine(s[j - |head|], fmt2, fmt1);
      }
    }
  }

  lemma FailedRowsSnoc(head: seq<string>, s: seq<Ranked>, k: nat, fmt1: real -> string)
    requires k < |s|
    ensures head + FailedRows(s[..k + 1], fmt1) == head + FailedRows(s[..k], fmt1) + [FailedLine(k + 1, s[k], fmt1)]
  {
    var a, b := head + FailedRows(s[..k + 1], fmt1), head + FailedRows(s[..k], fmt1) + [FailedLine(k + 1, s[k], fmt1)];
    assert |a| == |b|;
    forall j | 0 <= j < |a| ensures a[j] == b[j] {
      if j >= |head| {
        assert a[j] == FailedLine(j - |head| + 1, s[j - |head|], fmt1);
      }
    }
  }

  method SuccessTable(successful: seq<Ranked>, fmt2: real -> string, fmt1: real -> string) returns (lines: seq<string>)
    ensures lines == MdSuccessHead + SuccessRows(successful, fmt2, fmt1) + [""]
  {
    lines := MdSuccessHead;
    for k := 0 to |successful|
      invariant lines == MdSuccessHead + SuccessRows(successful[..k], fmt2, fmt1)
    {
      SuccessRowsSnoc(MdSuccessHead, successful, k, fmt2, fmt1);
      lines := lines + [SuccessLine(successful[k], fmt2, fmt1)];
    }
    assert successful[..|successful|] == successful;
    lines := lines + [""];
  }

  method FailedTable(failed: seq<Ranked>, fmt1: real -> string) returns (lines: seq<string>)
    ensures lines == MdFailedHead + FailedRows(failed, fmt1) + [""]
  {
    lines := MdFailedHead;
    for i := 1 to |failed| + 1
      invariant lines == MdFailedHead + FailedRows(failed[..i - 1], fmt1)
    {
      FailedRowsSnoc(MdFailedHead, failed, i - 1, fmt1);
      lines := lines + [FailedLine(i, failed[i - 1], fmt1)];
    }
    assert failed[..|failed|] == failed;
    lines := lines + [""];
  }

  /** The benchmark selection both exports begin with. */
  method ShownBenchmarks(models: seq<ModelEntry>, benchmark: string) returns (benchmarks: seq<string>)
    ensures benchmarks == Shown(models, benchmark)
  {
    var all := CollectBenchmarks(models);
    if benchmark != "" {
      benchmarks := [benchmark];
    } else {
      benchmarks := SortedList(all);
      SortedUnique(benchmarks, SortedOf(all));
    }
  }

  /** The loop over the shown benchmarks. */
  method MarkdownBody(models: seq<ModelEntry>, benchmarks: seq<string>, title: string -> string,
                      fmt2: real -> string, fmt1: real -> string) returns (lines: seq<string>)
    ensures lines == MarkdownSections(models, benchmarks, title, fmt2, fmt1)
  {
    lines := [];
    for k := 0 to |benchmarks|
      invariant lines == MarkdownSections(models, benchmarks[..k], title, fmt2, fmt1)
    {
      assert benchmarks[..k + 1][..k] == benchmarks[..k];
      var rankings := GetRankings(models, benchmarks[k]);
      var section := MarkdownSection(benchmarks[k], rankings, title, fmt2, fmt1);
      lines := lines + section;
    }
    assert benchmarks[..|benchmarks|] == benchmarks;
  }

  /** `export_markdown`. */
  method ExportMarkdown(models: seq<ModelEntry>, benchmark: string, title: string -> string,
                        fmt2: real -> string, fmt1: real -> string) returns (text: string)
    ensures Shown(models, benchmark) == [] ==> text == MdHeader + "\n" + MdNoResults
    ensures Shown(models, benchmark) != [] ==>
      text == JoinLines([MdHeader] + MarkdownSections(models, Shown(models, benchmark), title, fmt2, fmt1))
  {
    var lines := [MdHeader];
    var benchmarks := ShownBenchmarks(models, benchmark);
    if benchmarks == [] {
      lines := lines + [MdNoResults];
      text := JoinLines(lines);
      assert text == MdHeader + "\n" + JoinLines([MdNoResults]);
      return;
    }
    var body := MarkdownBody(models, benchmarks, title, fmt2, fmt1);
    lines := lines + body;
    text := JoinLines(lines);
  }

  /** Medals go to exactly the first three rows of the successful table. */
  lemma MedalsOnFirstThreeRows(rs: seq<Ranked>)
    requires RankedInOrder(rs)
    ensures forall k :: 0 <= k < |Successful(rs)| ==> (IsMedal(RankDisplay(Successful(rs)[k].rank)) <==> k < 3)
  {
    TableRanks(rs);
    forall k | 0 <= k < |Successful(rs)|
      ensures IsMedal(RankDisplay(Successful(rs)[k].rank)) <==> k < 3
    {
      RankDisplayMedals(Successful(rs)[k].rank, 0);
    }
  }

  /** Asking for a benchmark nobody has results for exports only the title line, without
      the "no results" note an empty leaderboard gets. */
  lemma MarkdownUnknownBenchmark(models: seq<ModelEntry>, bench: string, title: string -> string,
                                 fmt2: real -> string, fmt1: real -> string)
    requires bench != "" && Collected(models, bench) == []
    ensures JoinLines([MdHeader] + MarkdownSections(models, Shown(models, bench), title, fmt2, fmt1)) == MdHeader
  {
    assert RankingsOf(models, bench) == [];
    assert MarkdownSections(models, [bench], title, fmt2, fmt1) == [];
  }

  // ---------------------------------------------------------------------
  // `format_cli_table`. `{score:>10.2f}` and `str.upper` are parameters.

  const CliNoResults: string := "[LEADERBOARD] No benchmark results yet.\n"

  function Repeat(c: char, n: nat): string { seq(n, _ => c) }

  const CliBanner: seq<string> := [Repeat('=', 60), "                    LEADERBOARD", Repeat('=', 60)]

  const CliColumns: string := PadRight("Rank", 6) + " " + PadRight("Model", 30) + " " + PadLeft("Score", 10)

  /** The column header puts "Rank", "Model" and "Score" where the rows put the label,
      the model and a ten-character score. */
  lemma CliColumnsLayout()
    ensures |CliColumns| == 48
    ensures CliColumns[..4] == "Rank" && CliColumns[7..12] == "Model" && CliColumns[43..] == "Score"
  {
    var a, b, c := PadRight("Rank", 6), PadRight("Model", 30), PadLeft("Score", 10);
    assert |a| == 6 && |b| == 30 && |c| == 10;
    assert CliColumns == a + " " + b + " " + c;
    assert CliColumns[..4] == a[..4];
    assert CliColumns[7..12] == b[..5];
    assert CliColumns[43..] == c[5..];
  }

  function CliRows(rs: seq<Ranked>, fmtScore: real -> string): seq<string>
  {
    seq(|rs|, k requires 0 <= k < |rs| => CliRow(rs[k], fmtScore))
  }

  /** The lines one benchmark contributes: every ranked entry, whatever its score. */
  function CliSection(bench: string, rs: seq<Ranked>, upper: string -> string, fmtScore: real -> string): seq<string>
  {
    if rs == [] then []
    else ["\n[" + upper(bench) + "]", Repeat('-', 50), CliColumns, Repeat('-', 50)] + CliRows(rs, fmtScore)
  }

  function CliSections(models: seq<ModelEntry>, bs: seq<string>, upper: string -> string,
                       fmtScore: real -> string): seq<string>
  {
    if bs == [] then []
    else CliSections(models, bs[..|bs| - 1], upper, fmtScore)
         + CliSection(bs[|bs| - 1], RankingsOf(models, bs[|bs| - 1]), upper, fmtScore)
  }

  /** The section loop body of `format_cli_table`. */
  method CliTableSection(bench: string, rankings: seq<Ranked>, upper: string -> string,
                         fmtScore: real -> string) returns (lines: seq<string>)
    ensures lines == CliSection(bench, rankings, upper, fmtScore)
  {
    lines := [];
    if rankings == [] {
      return;
    }
    lines := ["\n[" + upper(bench) + "]", Repeat('-', 50), CliColumns, Repeat('-', 50)];
    var rows := CliTableRows(rankings, fmtScore);
    lines := lines + rows;
  }

  lemma CliRowsSnoc(rs: seq<Ranked>, k: nat, fmtScore: real -> string)
    requires k < |rs|
    ensures CliRows(rs[..k + 1], fmtScore) == CliRows(rs[..k], fmtScore) + [CliRow(rs[k], fmtScore)]
  {
    assert rs[..k + 1] == rs[..k] + [rs[k]];
  }

  method CliTableRows(rankings: seq<Ranked>, fmtScore: real -> string) returns (rows: seq<string>)
    ensures rows == CliRows(rankings, fmtScore)
  {
    rows := [];
    for k := 0 to |rankings|
      invariant rows == CliRows(rankings[..k], fmtScore)
    {
      CliRowsSnoc(rankings, k, fmtScore);
      rows := rows + [CliRow(rankings[k], fmtScore)];
    }
    assert rankings[..|rankings|] == rankings;
  }

  method CliBody(models: seq<ModelEntry>, benchmarks: seq<string>, upper: string -> string,
                 fmtScore: real -> string) returns (lines: seq<string>)
    ensures lines == CliSections(models, benchmarks, upper, fmtScore)
  {
    lines := [];
    for k := 0 to |benchmarks|
      invariant lines == CliSections(models, benchmarks[..k], upper, fmtScore)
    {
      assert benchmarks[..k + 1][..k] == benchmarks[..k];
      var rankings := GetRankings(models, benchmarks[k]);
      var section := CliTableSection(benchmarks[k], rankings, upper, fmtScore);
      lines := lines + section;
    }
    assert benchmarks[..|benchmarks|] == benchmarks;
  }

  /** `format_cli_table`. */
  method FormatCliTable(models: seq<ModelEntry>, benchmark: string, upper: string -> string,
                        fmtScore: real -> string) returns (text: string)
    ensures Shown(models, benchmark) == [] ==> text == CliNoResults
    ensures Shown(models, benchmark) != [] ==>
      text == JoinLines(CliBanner + CliSections(models, Shown(models, benchmark), upper, fmtScore) + ["\n" + Repeat('=', 60)])
  {
    var benchmarks := ShownBenchmarks(models, benchmark);
    if benchmarks == [] {
      return CliNoResults;
    }
    var lines := CliBanner;
    var body := CliBody(models, benchmarks, upper, fmtScore);
    lines := lines + body;
    lines := lines + ["\n" + Repeat('=', 60)];
    text := JoinLines(lines);
  }
}
