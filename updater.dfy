/**
 * The dictionary updater: gather the crawlers' records, sum the
 * frequencies per surface, and add the surfaces that reach the threshold
 * and are not in the dictionary yet; or add a single source's records as
 * they come. The crawlers' output is a parameter of each update.
 */
module Updater {
  import opened Wrappers
  import opened Word
  import opened Storage
  import opened Dictionary
  import opened Crawler

  const DefaultMinFrequency: int := 2
  const DefaultSources: seq<string> := ["wikipedia", "news"]
  /** The source name an aggregated record without a `source` key is added under. */
  const FallbackSourceName: string := "other"

  /** The counts an update reports (its duration and timestamp are not modelled). */
  datatype UpdateStats = UpdateStats(collectedWords: nat, uniqueWords: nat, added: nat, updated: nat)

  // ----- Aggregation -----

  /** What one record adds to its surface's frequency: its `frequency`, or 1 without one. */
  function Contribution(em: Emission): int {
    em.frequency.GetOr(1)
  }

  /** The summed frequency of surface `s` over all records. */
  function TotalFrequency(ems: seq<Emission>, s: string): int
    decreases |ems|
  {
    if ems == [] then 0
    else
      TotalFrequency(ems[..|ems| - 1], s) + (if ems[|ems| - 1].surface == s then Contribution(ems[|ems| - 1]) else 0)
  }

  /** Summing over two crawlers' records together is summing over each. */
  lemma {:induction false} TotalFrequencyAppend(a: seq<Emission>, b: seq<Emission>, s: string)
    ensures TotalFrequency(a + b, s) == TotalFrequency(a, s) + TotalFrequency(b, s)
    decreases |b|
  {
    if b == [] {
      assert a + b == a;
    } else {
      var b', last := b[..|b| - 1], b[|b| - 1];
      var ab := a + b;
      assert ab[..|ab| - 1] == a + b';
      assert ab[|ab| - 1] == last;
      TotalFrequencyAppend(a, b', s);
    }
  }

  /** A surface no record carries has frequency 0. */
  lemma {:induction false} TotalFrequencyAbsent(ems: seq<Emission>, s: string)
    requires s !in EmittedSurfaces(ems)
    ensures TotalFrequency(ems, s) == 0
    decreases |ems|
  {
    if ems != [] {
      var init := ems[..|ems| - 1];
      assert ems[|ems| - 1].surface in EmittedSurfaces(ems);
      forall x | x in EmittedSurfaces(init) ensures x in EmittedSurfaces(ems) {
        var i :| 0 <= i < |init| && init[i].surface == x;
        assert ems[i] == init[i];
      }
      TotalFrequencyAbsent(init, s);
    }
  }

  /** The distinct surfaces in order of their first record: the order of the frequency dict. */
  function FirstSeenOrder(ems: seq<Emission>): (order: seq<string>)
    ensures |order| <= |ems|
    ensures AllIn(order, EmittedSurfaces(ems))
    decreases |ems|
  {
    if ems == [] then []
    else
      var init, last := ems[..|ems| - 1], ems[|ems| - 1];
      assert ems == init + [last];
      AppendSurface(init, last);
      var o := FirstSeenOrder(init);
      if last.surface in Elements(o) then o else o + [last.surface]
  }

  /** The order lists every emitted surface once. */
  lemma {:induction false} FirstSeenOrderFacts(ems: seq<Emission>)
    ensures Distinct(FirstSeenOrder(ems))
    ensures Elements(FirstSeenOrder(ems)) == EmittedSurfaces(ems)
    decreases |ems|
  {
    if ems != [] {
      var init, last := ems[..|ems| - 1], ems[|ems| - 1];
      assert ems == init + [last];
      AppendSurface(init, last);
      FirstSeenOrderFacts(init);
      var o := FirstSeenOrder(init);
      if last.surface !in Elements(o) {
        forall i | 0 <= i < |o| ensures o[i] != last.surface {
          assert o[i] in Elements(o);
        }
        DistinctAppend(o, last.surface);
        ElementsAppend(o, last.surface);
      }
    }
  }

  lemma ElementsAppend(ss: seq<string>, x: string)
    ensures Elements(ss + [x]) == Elements(ss) + {x}
  {
    var all := ss + [x];
    assert all[|ss|] == x;
    forall y | y in Elements(ss) ensures y in Elements(all) {
      var i :| 0 <= i < |ss| && ss[i] == y;
      assert all[i] == ss[i];
    }
  }

  /** The position of the first record of `s`. */
  function FirstIndex(ems: seq<Emission>, s: string): (i: nat)
    requires s in EmittedSurfaces(ems)
    ensures i < |ems| && ems[i].surface == s
    ensures forall j :: 0 <= j < i ==> ems[j].surface != s
    decreases |ems|
  {
    var init := ems[..|ems| - 1];
    if s in EmittedSurfaces(init) then
      var i := FirstIndex(init, s);
      assert forall j :: 0 <= j <= i ==> ems[j] == init[j];
      i
    else
      assert forall j :: 0 <= j < |init| ==> init[j].surface in EmittedSurfaces(init);
      |ems| - 1
  }

  /** The frequency dict: every surface with its summed frequency. */
  function AggregatedFrequency(ems: seq<Emission>): (m: map<string, int>)
    ensures m.Keys == EmittedSurfaces(ems)
  {
    map s | s in EmittedSurfaces(ems) :: TotalFrequency(ems, s)
  }

  /**
   * The data dict: every surface with one record, stored only when the
   * surface is not in the dict yet.
   */
  function FirstEmissions(ems: seq<Emission>): (m: map<string, Emission>)
    ensures m.Keys == EmittedSurfaces(ems)
    decreases |ems|
  {
    if ems == [] then map[]
    else
      var init, last := ems[..|ems| - 1], ems[|ems| - 1];
      assert ems == init + [last];
      AppendSurface(init, last);
      var d := FirstEmissions(init);
      if last.surface in d then d else d[last.surface := last]
  }

  /** The record the data dict keeps for a surface is that surface's first record. */
  lemma {:induction false} FirstEmissionsAreFirst(ems: seq<Emission>, s: string)
    requires s in EmittedSurfaces(ems)
    ensures FirstEmissions(ems)[s] == ems[FirstIndex(ems, s)]
    ensures FirstEmissions(ems)[s].surface == s
    decreases |ems|
  {
    var init := ems[..|ems| - 1];
    if s in EmittedSurfaces(init) {
      FirstEmissionsAreFirst(init, s);
      assert ems[FirstIndex(init, s)] == init[FirstIndex(init, s)];
    }
  }

  /** One more record adds its contribution to its own surface only. */
  lemma TotalFrequencyStep(ems: seq<Emission>, i: nat, s: string)
    requires i < |ems|
    ensures TotalFrequency(ems[..i + 1], s) ==
      TotalFrequency(ems[..i], s) + (if ems[i].surface == s then Contribution(ems[i]) else 0)
  {
    assert ems[..i + 1][..i] == ems[..i];
  }

  /** One more record appends its surface to the order if it is new. */
  lemma FirstSeenOrderStep(ems: seq<Emission>, i: nat)
    requires i < |ems|
    ensures FirstSeenOrder(ems[..i + 1]) ==
      if ems[i].surface in EmittedSurfaces(ems[..i]) then FirstSeenOrder(ems[..i])
      else FirstSeenOrder(ems[..i]) + [ems[i].surface]
  {
    assert ems[..i + 1][..i] == ems[..i];
    assert ems[..i + 1][i] == ems[i];
    FirstSeenOrderFacts(ems[..i]);
  }

  /** One more record adds its surface to the surfaces seen. */
  lemma SurfacesStep(ems: seq<Emission>, i: nat)
    requires i < |ems|
    ensures EmittedSurfaces(ems[..i + 1]) == EmittedSurfaces(ems[..i]) + {ems[i].surface}
  {
    AppendSurface(ems[..i], ems[i]);
    assert ems[..i] + [ems[i]] == ems[..i + 1];
  }

  /** One more record adds its contribution to its surface's sum, or starts it. */
  lemma FrequencyStep(ems: seq<Emission>, i: nat)
    requires i < |ems|
    ensures var f, s := AggregatedFrequency(ems[..i]), ems[i].surface;
      AggregatedFrequency(ems[..i + 1]) ==
        if s in f then f[s := f[s] + Contribution(ems[i])] else f[s := Contribution(ems[i])]
  {
    var f, s := AggregatedFrequency(ems[..i]), ems[i].surface;
    var f' := if s in f then f[s := f[s] + Contribution(ems[i])] else f[s := Contribution(ems[i])];
    var g := AggregatedFrequency(ems[..i + 1]);
    SurfacesStep(ems, i);
    assert f'.Keys == g.Keys;
    if s !in f {
      TotalFrequencyAbsent(ems[..i], s);
    }
    forall x | x in g ensures g[x] == f'[x] {
      TotalFrequencyStep(ems, i, x);
    }
  }

  /** One more record becomes its surface's first record only if the surface is new. */
  lemma EmissionsStep(ems: seq<Emission>, i: nat)
    requires i < |ems|
    ensures var d, s := FirstEmissions(ems[..i]), ems[i].surface;
      FirstEmissions(ems[..i + 1]) == if s in d then d else d[s := ems[i]]
  {
    assert ems[..i + 1][..i] == ems[..i];
  }

  /** The three results of aggregating the records `done`. */
  datatype Aggregation = Aggregation(order: seq<string>, freq: map<string, int>, data: map<string, Emission>)

  /** What one more record does to an aggregation. */
  function AddRecord(st: Aggregation, em: Emission): Aggregation {
    if em.surface in st.freq then st.(freq := st.freq[em.surface := st.freq[em.surface] + Contribution(em)])
    else Aggregation(st.order + [em.surface], st.freq[em.surface := Contribution(em)], st.data[em.surface := em])
  }

  /** The records folded one by one with `AddRecord`, as the loop of `update` does. */
  function Folded(ems: seq<Emission>): Aggregation
    decreases |ems|
  {
    if ems == [] then Aggregation([], map[], map[])
    else AddRecord(Folded(ems[..|ems| - 1]), ems[|ems| - 1])
  }

  /** Folding the records sums their frequencies per surface. */
  lemma {:induction false} FoldedFrequency(ems: seq<Emission>)
    ensures Folded(ems).freq == AggregatedFrequency(ems)
    decreases |ems|
  {
    if ems == [] {
      assert EmittedSurfaces(ems) == {};
    } else {
      var n := |ems| - 1;
      FoldedFrequency(ems[..n]);
      FrequencyStep(ems, n);
      assert ems[..n + 1] == ems;
    }
  }

  /** Folding the records keeps each surface's first record. */
  lemma {:induction false} FoldedEmissions(ems: seq<Emission>)
    ensures Folded(ems).data == FirstEmissions(ems)
    decreases |ems|
  {
    if ems == [] {
      assert EmittedSurfaces(ems) == {};
    } else {
      var n := |ems| - 1;
      FoldedFrequency(ems[..n]);
      FoldedEmissions(ems[..n]);
      EmissionsStep(ems, n);
      assert ems[..n + 1] == ems;
      assert ems[n].surface in Folded(ems[..n]).freq <==> ems[n].surface in Folded(ems[..n]).data;
    }
  }

  /** Folding the records lists the surfaces in first-seen order. */
  lemma {:induction false} FoldedOrder(ems: seq<Emission>)
    ensures Folded(ems).order == FirstSeenOrder(ems)
    decreases |ems|
  {
    if ems != [] {
      var n := |ems| - 1;
      FoldedFrequency(ems[..n]);
      FoldedOrder(ems[..n]);
      FirstSeenOrderStep(ems, n);
      assert ems[..n + 1] == ems;
      assert ems[n].surface in Folded(ems[..n]).freq <==> ems[n].surface in EmittedSurfaces(ems[..n]);
    }
  }

  /**
   * The aggregation loop of `update`: sum each surface's frequency and keep
   * its first record, remembering the order surfaces first appear in.
   */
  method Aggregate(ems: seq<Emission>) returns (order: seq<string>, freq: map<string, int>, data: map<string, Emission>)
    ensures order == FirstSeenOrder(ems)
    ensures freq == AggregatedFrequency(ems)
    ensures data == FirstEmissions(ems)
  {
    order, freq, data := [], map[], map[];
    assert ems[..0] == [];
    for i := 0 to |ems|
      invariant Aggregation(order, freq, data) == Folded(ems[..i])
    {
      var em := ems[i];
      assert ems[..i + 1][..i] == ems[..i];
      if em.surface in freq {
        freq := freq[em.surface := freq[em.surface] + Contribution(em)];
      } else {
        freq := freq[em.surface := Contribution(em)];
        data := data[em.surface := em];
        order := order + [em.surface];
      }
    }
    assert ems[..|ems|] == ems;
    FoldedOrder(ems);
    FoldedFrequency(ems);
    FoldedEmissions(ems);
  }


  // ----- The plan of an update -----

  /** Every string of `ss` is in `keys`. */
  predicate AllIn(ss: seq<string>, keys: set<string>) {
    forall i :: 0 <= i < |ss| ==> ss[i] in keys
  }

  /**
   * The surfaces `update` adds, in order: those whose summed frequency
   * reaches `min` and that the dictionary does not hold yet.
   */
  function Planned(order: seq<string>, freq: map<string, int>, rows: map<string, Row>, min: int): (plan: seq<string>)
    requires AllIn(order, freq.Keys)
    ensures |plan| <= |order|
    ensures forall i :: 0 <= i < |plan| ==> plan[i] in freq && freq[plan[i]] >= min && plan[i] !in rows
    decreases |order|
  {
    if order == [] then []
    else
      var init, last := order[..|order| - 1], order[|order| - 1];
      var p := Planned(init, freq, rows, min);
      if freq[last] >= min && last !in rows then p + [last] else p
  }

  /** The plan holds exactly the surfaces of the order that reach `min` and are not in the dictionary. */
  lemma {:induction false} PlannedMembers(order: seq<string>, freq: map<string, int>, rows: map<string, Row>, min: int)
    requires AllIn(order, freq.Keys)
    ensures forall s :: s in Elements(Planned(order, freq, rows, min)) <==>
      s in Elements(order) && s in freq && freq[s] >= min && s !in rows
    decreases |order|
  {
    if order != [] {
      var init, last := order[..|order| - 1], order[|order| - 1];
      assert order == init + [last];
      ElementsAppend(init, last);
      PlannedMembers(init, freq, rows, min);
      var p := Planned(init, freq, rows, min);
      if freq[last] >= min && last !in rows {
        ElementsAppend(p, last);
      }
    }
  }

  /** A string the order does not hold is not planned. */
  lemma {:induction false} PlannedAvoids(order: seq<string>, freq: map<string, int>, rows: map<string, Row>, min: int, x: string)
    requires AllIn(order, freq.Keys)
    requires forall j :: 0 <= j < |order| ==> order[j] != x
    ensures forall i :: 0 <= i < |Planned(order, freq, rows, min)| ==> Planned(order, freq, rows, min)[i] != x
    decreases |order|
  {
    if order != [] {
      PlannedAvoids(order[..|order| - 1], freq, rows, min, x);
    }
  }

  /** The plan of a distinct order is distinct. */
  lemma {:induction false} PlannedDistinct(order: seq<string>, freq: map<string, int>, rows: map<string, Row>, min: int)
    requires Distinct(order) && AllIn(order, freq.Keys)
    ensures Distinct(Planned(order, freq, rows, min))
    decreases |order|
  {
    if order != [] {
      var init, last := order[..|order| - 1], order[|order| - 1];
      PlannedDistinct(init, freq, rows, min);
      PlannedAvoids(init, freq, rows, min, last);
      if freq[last] >= min && last !in rows {
        DistinctAppend(Planned(init, freq, rows, min), last);
      }
    }
  }

  /** The number of surfaces reaching `min` that the dictionary already holds: `update`'s "updated". */
  function ExistingCount(order: seq<string>, freq: map<string, int>, rows: map<string, Row>, min: int): (n: nat)
    requires AllIn(order, freq.Keys)
    ensures n <= |order|
    decreases |order|
  {
    if order == [] then 0
    else
      var init, last := order[..|order| - 1], order[|order| - 1];
      ExistingCount(init, freq, rows, min) + (if freq[last] >= min && last in rows then 1 else 0)
  }

  /** Added and updated surfaces together are at most the distinct surfaces. */
  lemma {:induction false} CountsBounded(order: seq<string>, freq: map<string, int>, rows: map<string, Row>, min: int)
    requires AllIn(order, freq.Keys)
    ensures |Planned(order, freq, rows, min)| + ExistingCount(order, freq, rows, min) <= |order|
    decreases |order|
  {
    if order != [] {
      CountsBounded(order[..|order| - 1], freq, rows, min);
    }
  }

  /** The `add_word` call `update` makes for a planned surface. */
  function AddAttempt(s: string, freq: map<string, int>, data: map<string, Emission>, now: Timestamp): Result<Entry, Error>
    requires s in freq && s in data
  {
    NewEntry(s, now, DefaultPosName, None, data[s].source.GetOr(FallbackSourceName), data[s].category, freq[s])
  }

  /** The `add_word` calls for a plan, in order. */
  function Attempts(plan: seq<string>, freq: map<string, int>, data: map<string, Emission>, now: Timestamp): (r: seq<Result<Entry, Error>>)
    requires AllIn(plan, freq.Keys) && freq.Keys <= data.Keys
    ensures |r| == |plan|
    ensures forall i :: 0 <= i < |plan| ==> r[i] == AddAttempt(plan[i], freq, data, now)
  {
    seq(|plan|, i requires 0 <= i < |plan| => AddAttempt(plan[i], freq, data, now))
  }

  /** All attempts of `plan` succeeded. */
  ghost predicate AllAdded(plan: seq<string>, freq: map<string, int>, data: map<string, Emission>, now: Timestamp)
    requires AllIn(plan, freq.Keys) && freq.Keys <= data.Keys
  {
    |OkPrefix(Attempts(plan, freq, data, now))| == |plan|
  }

  /** The entries of the first `n` attempts carry the plan's first `n` surfaces. */
  lemma AddedSurfaces(plan: seq<string>, freq: map<string, int>, data: map<string, Emission>, now: Timestamp, n: nat)
    requires AllIn(plan, freq.Keys) && freq.Keys <= data.Keys && n <= |plan|
    ensures var es := OkPrefix(Attempts(plan, freq, data, now)[..n]);
      forall i :: 0 <= i < |es| ==> es[i].word.surface == plan[i]
  {
    var attempts := Attempts(plan, freq, data, now);
    var es := OkPrefix(attempts[..n]);
    forall i | 0 <= i < |es| ensures es[i].word.surface == plan[i] {
      assert attempts[..n][i] == attempts[i];
    }
  }

  /** The entries of all attempts carry planned surfaces, all of them when every attempt succeeds. */
  lemma AddedSurfacesAll(plan: seq<string>, freq: map<string, int>, data: map<string, Emission>, now: Timestamp)
    requires AllIn(plan, freq.Keys) && freq.Keys <= data.Keys
    ensures Surfaces(OkPrefix(Attempts(plan, freq, data, now))) <= Elements(plan)
    ensures AllAdded(plan, freq, data, now) ==> Surfaces(OkPrefix(Attempts(plan, freq, data, now))) == Elements(plan)
  {
    var attempts := Attempts(plan, freq, data, now);
    AddedSurfaces(plan, freq, data, now, |plan|);
    assert attempts[..|plan|] == attempts;
    var es := OkPrefix(attempts);
    forall i | 0 <= i < |es| ensures es[i].word.surface in Elements(plan) {
      assert plan[i] in Elements(plan);
    }
    if AllAdded(plan, freq, data, now) {
      forall x | x in Elements(plan) ensures x in Surfaces(es) {
        var i :| 0 <= i < |plan| && plan[i] == x;
        assert es[i].word.surface == x;
      }
    }
  }

  /** The plan of a prefix of the order is a prefix of the plan. */
  lemma {:induction false} PlannedPrefix(order: seq<string>, freq: map<string, int>, rows: map<string, Row>, min: int, k: nat)
    requires AllIn(order, freq.Keys) && k <= |order|
    ensures var p := Planned(order[..k], freq, rows, min);
      var full := Planned(order, freq, rows, min);
      |p| <= |full| && full[..|p|] == p
    decreases |order|
  {
    if k < |order| {
      var init := order[..|order| - 1];
      assert init[..k] == order[..k];
      PlannedPrefix(init, freq, rows, min, k);
    } else {
      assert order[..k] == order;
    }
  }

  /**
   * The counting half of `update`'s loop after the first `k` surfaces: the
   * surfaces added so far are the plan's first `added`, and `updated`
   * counts the qualifying surfaces already present.
   */
  ghost predicate PlanState(order: seq<string>, freq: map<string, int>, rows: map<string, Row>, min: int,
                            k: nat, added: nat, updated: nat)
  {
    && k <= |order| && AllIn(order, freq.Keys)
    && var p, full := Planned(order[..k], freq, rows, min), Planned(order, freq, rows, min);
      && |p| == added && added <= |full| && full[..added] == p
      && updated == ExistingCount(order[..k], freq, rows, min)
  }

  lemma PlanStart(order: seq<string>, freq: map<string, int>, rows: map<string, Row>, min: int)
    requires AllIn(order, freq.Keys)
    ensures PlanState(order, freq, rows, min, 0, 0, 0)
  {
    assert order[..0] == [];
  }

  /** Going one surface further extends the prefix's plan and count by that surface alone. */
  lemma PlannedStep(order: seq<string>, freq: map<string, int>, rows: map<string, Row>, min: int, k: nat)
    requires AllIn(order, freq.Keys) && k < |order|
    ensures order[k] in freq
    ensures Planned(order[..k + 1], freq, rows, min) ==
      Planned(order[..k], freq, rows, min) + (if freq[order[k]] >= min && order[k] !in rows then [order[k]] else [])
    ensures ExistingCount(order[..k + 1], freq, rows, min) ==
      ExistingCount(order[..k], freq, rows, min) + (if freq[order[k]] >= min && order[k] in rows then 1 else 0)
  {
    var o := order[..k + 1];
    assert o[..k] == order[..k] && o[k] == order[k];
  }

  /** A surface below the threshold is skipped. */
  lemma PlanSkip(order: seq<string>, freq: map<string, int>, rows: map<string, Row>, min: int,
                 k: nat, added: nat, updated: nat)
    requires PlanState(order, freq, rows, min, k, added, updated) && k < |order|
    requires order[k] in freq && freq[order[k]] < min
    ensures PlanState(order, freq, rows, min, k + 1, added, updated)
  {
    PlannedStep(order, freq, rows, min, k);
  }

  /** A qualifying surface already present is counted as updated. */
  lemma PlanExisting(order: seq<string>, freq: map<string, int>, rows: map<string, Row>, min: int,
                     k: nat, added: nat, updated: nat)
    requires PlanState(order, freq, rows, min, k, added, updated) && k < |order|
    requires order[k] in freq && freq[order[k]] >= min && order[k] in rows
    ensures PlanState(order, freq, rows, min, k + 1, added, updated + 1)
  {
    PlannedStep(order, freq, rows, min, k);
  }

  /** A qualifying surface not present is the plan's next one. */
  lemma PlanAdd(order: seq<string>, freq: map<string, int>, rows: map<string, Row>, min: int,
                k: nat, added: nat, updated: nat)
    requires PlanState(order, freq, rows, min, k, added, updated) && k < |order|
    requires order[k] in freq && freq[order[k]] >= min && order[k] !in rows
    ensures added < |Planned(order, freq, rows, min)| && Planned(order, freq, rows, min)[added] == order[k]
    ensures PlanState(order, freq, rows, min, k + 1, added + 1, updated)
  {
    PlannedStep(order, freq, rows, min, k);
    PlannedPrefix(order, freq, rows, min, k + 1);
    var full := Planned(order, freq, rows, min);
    var p := Planned(order[..k], freq, rows, min);
    assert full[..added + 1] == p + [order[k]];
    assert full[..added] == full[..added + 1][..added];
    assert full[added] == full[..added + 1][added];
  }

  /**
   * The store half of a run of `add_word` calls: the first `n` attempts
   * succeeded and the table is the one their entries leave.
   */
  ghost predicate Applied(t0: Table, attempts: seq<Result<Entry, Error>>, n: nat, now: Timestamp, t: Table) {
    && n <= |attempts|
    && |OkPrefix(attempts[..n])| == n
    && t == UpsertAll(t0, OkPrefix(attempts[..n]), now)
  }

  /** A successful next attempt adds its entry. */
  lemma AppliedOk(t0: Table, attempts: seq<Result<Entry, Error>>, n: nat, now: Timestamp, t: Table)
    requires Applied(t0, attempts, n, now, t) && n < |attempts| && attempts[n].Ok?
    ensures Applied(t0, attempts, n + 1, now, Upsert(t, attempts[n].value, now).0)
  {
    var head := attempts[..n];
    OkPrefixAppend(head, attempts[n]);
    assert attempts[..n + 1] == head + [attempts[n]];
    var es := OkPrefix(head) + [attempts[n].value];
    UpsertAllStep(t0, es, now);
    assert es[..|es| - 1] == OkPrefix(head);
  }

  /** A failed next attempt ends the run: the entries added so far are all there are. */
  lemma AppliedErr(t0: Table, attempts: seq<Result<Entry, Error>>, n: nat, now: Timestamp, t: Table)
    requires Applied(t0, attempts, n, now, t) && n < |attempts| && attempts[n].Err?
    ensures OkPrefix(attempts) == OkPrefix(attempts[..n])
    ensures |OkPrefix(attempts)| == n
    ensures t == UpsertAll(t0, OkPrefix(attempts), now)
  {
    var head := attempts[..n];
    OkPrefixAppend(head, attempts[n]);
    assert attempts[..n + 1] == head + [attempts[n]];
    OkPrefixAfterFailure(attempts[..n + 1], attempts[n + 1..]);
    assert attempts == attempts[..n + 1] + attempts[n + 1..];
  }

  /** Applying every attempt. */
  lemma AppliedAll(t0: Table, attempts: seq<Result<Entry, Error>>, now: Timestamp, t: Table)
    requires Applied(t0, attempts, |attempts|, now, t)
    ensures |OkPrefix(attempts)| == |attempts| && t == UpsertAll(t0, OkPrefix(attempts), now)
  {
    assert attempts[..|attempts|] == attempts;
  }

  /**
   * While `update` runs, a surface it reaches is in the store exactly when
   * it was before the update: earlier surfaces of the order are distinct.
   */
  lemma PresentBefore(t0: Table, order: seq<string>, freq: map<string, int>, data: map<string, Emission>,
                      min: int, now: Timestamp, k: nat, added: nat, updated: nat, t: Table)
    requires PlanState(order, freq, t0.rows, min, k, added, updated) && freq.Keys <= data.Keys
    requires Applied(t0, Attempts(Planned(order, freq, t0.rows, min), freq, data, now), added, now, t)
    requires Distinct(order) && k < |order|
    ensures order[k] in t.rows <==> order[k] in t0.rows
  {
    var full := Planned(order, freq, t0.rows, min);
    var es := OkPrefix(Attempts(full, freq, data, now)[..added]);
    UpsertAllSurfaces(t0, es, now);
    AddedSurfaces(full, freq, data, now, added);
    NotYetAdded(order, freq, t0.rows, min, k, added, updated);
    forall i | 0 <= i < |es| ensures es[i].word.surface != order[k] {
      assert es[i].word.surface == full[i];
    }
  }

  /** The surface the loop reaches is none of the plan's first `added`. */
  lemma NotYetAdded(order: seq<string>, freq: map<string, int>, rows: map<string, Row>, min: int,
                    k: nat, added: nat, updated: nat)
    requires PlanState(order, freq, rows, min, k, added, updated) && Distinct(order) && k < |order|
    ensures forall i :: 0 <= i < added ==> Planned(order, freq, rows, min)[i] != order[k]
  {
    var full := Planned(order, freq, rows, min);
    forall j | 0 <= j < k ensures order[..k][j] != order[k] {
      assert order[..k][j] == order[j];
    }
    PlannedAvoids(order[..k], freq, rows, min, order[k]);
    forall i | 0 <= i < added ensures full[i] != order[k] {
      assert full[i] == full[..added][i];
    }
  }


  /**
   * The state of `update`'s adding loop after the first `k` surfaces of the
   * order: the counting half and the store half together.
   */
  ghost predicate Progress(t0: Table, order: seq<string>, freq: map<string, int>, data: map<string, Emission>,
                           min: int, now: Timestamp, k: nat, added: nat, updated: nat, t: Table)
  {
    && freq.Keys <= data.Keys
    && PlanState(order, freq, t0.rows, min, k, added, updated)
    && Applied(t0, Attempts(Planned(order, freq, t0.rows, min), freq, data, now), added, now, t)
  }

  lemma ProgressStart(t0: Table, order: seq<string>, freq: map<string, int>, data: map<string, Emission>, min: int, now: Timestamp)
    requires AllIn(order, freq.Keys) && freq.Keys <= data.Keys
    ensures Progress(t0, order, freq, data, min, now, 0, 0, 0, t0)
  {
    PlanStart(order, freq, t0.rows, min);
    assert Attempts(Planned(order, freq, t0.rows, min), freq, data, now)[..0] == [];
  }

  lemma ProgressSkip(t0: Table, order: seq<string>, freq: map<string, int>, data: map<string, Emission>,
                     min: int, now: Timestamp, k: nat, added: nat, updated: nat, t: Table)
    requires Progress(t0, order, freq, data, min, now, k, added, updated, t) && k < |order|
    requires order[k] in freq && freq[order[k]] < min
    ensures Progress(t0, order, freq, data, min, now, k + 1, added, updated, t)
  {
    PlanSkip(order, freq, t0.rows, min, k, added, updated);
  }

  lemma ProgressExisting(t0: Table, order: seq<string>, freq: map<string, int>, data: map<string, Emission>,
                         min: int, now: Timestamp, k: nat, added: nat, updated: nat, t: Table)
    requires Progress(t0, order, freq, data, min, now, k, added, updated, t) && Distinct(order) && k < |order|
    requires order[k] in freq && freq[order[k]] >= min && order[k] in t.rows
    ensures Progress(t0, order, freq, data, min, now, k + 1, added, updated + 1, t)
  {
    PresentBefore(t0, order, freq, data, min, now, k, added, updated, t);
    PlanExisting(order, freq, t0.rows, min, k, added, updated);
  }

  /**
   * A qualifying surface not in the store is the plan's next one: a
   * successful `add_word` moves on, a failing one ends the update with
   * the store as the earlier additions left it.
   */
  lemma ProgressAdd(t0: Table, order: seq<string>, freq: map<string, int>, data: map<string, Emission>,
                    min: int, now: Timestamp, k: nat, added: nat, updated: nat, t: Table)
    requires Progress(t0, order, freq, data, min, now, k, added, updated, t) && Distinct(order) && k < |order|
    requires order[k] in freq && freq[order[k]] >= min && order[k] !in t.rows
    ensures order[k] in data
    ensures var attempts := Attempts(Planned(order, freq, t0.rows, min), freq, data, now);
      var attempt := AddAttempt(order[k], freq, data, now);
      && added < |attempts| && attempts[added] == attempt
      && (attempt.Ok? ==> Progress(t0, order, freq, data, min, now, k + 1, added + 1, updated, Upsert(t, attempt.value, now).0))
      && (attempt.Err? ==> |OkPrefix(attempts)| == added && t == UpsertAll(t0, OkPrefix(attempts), now))
  {
    var attempts := Attempts(Planned(order, freq, t0.rows, min), freq, data, now);
    PresentBefore(t0, order, freq, data, min, now, k, added, updated, t);
    PlanAdd(order, freq, t0.rows, min, k, added, updated);
    if attempts[added].Ok? {
      AppliedOk(t0, attempts, added, now, t);
    } else {
      AppliedErr(t0, attempts, added, now, t);
    }
  }

  /** After the last surface every planned addition was made. */
  lemma ProgressDone(t0: Table, order: seq<string>, freq: map<string, int>, data: map<string, Emission>,
                     min: int, now: Timestamp, added: nat, updated: nat, t: Table)
    requires Progress(t0, order, freq, data, min, now, |order|, added, updated, t)
    ensures var plan := Planned(order, freq, t0.rows, min);
      var attempts := Attempts(plan, freq, data, now);
      && added == |plan| && updated == ExistingCount(order, freq, t0.rows, min)
      && |OkPrefix(attempts)| == |plan| && t == UpsertAll(t0, OkPrefix(attempts), now)
  {
    assert order[..|order|] == order;
    AppliedAll(t0, Attempts(Planned(order, freq, t0.rows, min), freq, data, now), now, t);
  }

  // ----- What an update leaves in the dictionary -----

  /**
   * A complete update leaves exactly the surfaces that were there before
   * and the surfaces whose summed frequency reaches the threshold.
   */
  lemma UpdatedSurfaces(t0: Table, order: seq<string>, freq: map<string, int>, data: map<string, Emission>, min: int, now: Timestamp)
    requires AllIn(order, freq.Keys) && freq.Keys <= Elements(order) && freq.Keys <= data.Keys
    requires AllAdded(Planned(order, freq, t0.rows, min), freq, data, now)
    ensures var t := UpsertAll(t0, OkPrefix(Attempts(Planned(order, freq, t0.rows, min), freq, data, now)), now);
      forall s :: s in t.rows <==> s in t0.rows || (s in freq && freq[s] >= min)
  {
    var plan := Planned(order, freq, t0.rows, min);
    UpsertAllSurfaces(t0, OkPrefix(Attempts(plan, freq, data, now)), now);
    AddedSurfacesAll(plan, freq, data, now);
    PlannedMembers(order, freq, t0.rows, min);
  }

  /** An update, complete or not, leaves every row that was there before as it was. */
  lemma UpdateKeepsExisting(t0: Table, order: seq<string>, freq: map<string, int>, data: map<string, Emission>, min: int, now: Timestamp)
    requires AllIn(order, freq.Keys) && freq.Keys <= data.Keys
    ensures var t := UpsertAll(t0, OkPrefix(Attempts(Planned(order, freq, t0.rows, min), freq, data, now)), now);
      forall s :: s in t0.rows ==> s in t.rows && t.rows[s] == t0.rows[s]
  {
    var plan := Planned(order, freq, t0.rows, min);
    var attempts := Attempts(plan, freq, data, now);
    var es := OkPrefix(attempts);
    UpsertAllSurfaces(t0, es, now);
    AddedSurfaces(plan, freq, data, now, |plan|);
    assert attempts[..|plan|] == attempts;
    forall s | s in t0.rows ensures s !in Surfaces(es) {
      forall i | 0 <= i < |es| ensures es[i].word.surface != s {
      }
    }
  }


  /**
   * After a complete update, an added surface's row holds the summed
   * frequency and the first record's category and source (or "other").
   */
  lemma UpdateAddedEntry(t0: Table, order: seq<string>, freq: map<string, int>, data: map<string, Emission>,
                         min: int, now: Timestamp, s: string)
    requires Distinct(order) && AllIn(order, freq.Keys) && freq.Keys <= data.Keys
    requires AllAdded(Planned(order, freq, t0.rows, min), freq, data, now)
    requires s in Elements(order) && freq[s] >= min && s !in t0.rows
    ensures var t := UpsertAll(t0, OkPrefix(Attempts(Planned(order, freq, t0.rows, min), freq, data, now)), now);
      && AddAttempt(s, freq, data, now).Ok?
      && s in t.rows
      && SameContent(t.rows[s].entry, AddAttempt(s, freq, data, now).value)
      && t.rows[s].entry.frequency == freq[s]
      && t.rows[s].entry.category == data[s].category
      && t.rows[s].entry.source.Value() == data[s].source.GetOr(FallbackSourceName)
  {
    var plan := Planned(order, freq, t0.rows, min);
    var attempts := Attempts(plan, freq, data, now);
    var es := OkPrefix(attempts);
    assert s in Elements(plan) by {
      PlannedMembers(order, freq, t0.rows, min);
    }
    var i :| 0 <= i < |plan| && plan[i] == s;
    assert i < |es| && es[i] == AddAttempt(s, freq, data, now).value by {
      assert attempts[i] == Ok(es[i]);
    }
    assert forall j :: i < j < |es| ==> es[j].Surface() != es[i].Surface() by {
      AddedSurfaces(plan, freq, data, now, |plan|);
      assert attempts[..|plan|] == attempts;
      PlannedDistinct(order, freq, t0.rows, min);
    }
    UpsertAllLastWins(t0, es, now, i);
  }


  /**
   * A planned surface whose first record carries a source that names no
   * source (the news crawlers tag theirs "news_nhk" and "news_yahoo")
   * makes the update fail: its `add_word` raises.
   */
  lemma UnknownSourceAborts(order: seq<string>, freq: map<string, int>, data: map<string, Emission>,
                            rows: map<string, Row>, min: int, now: Timestamp, s: string)
    requires AllIn(order, freq.Keys) && freq.Keys <= data.Keys
    requires s in Elements(order) && freq[s] >= min && s !in rows
    requires data[s].source.Some? && ParseWordSource(data[s].source.value).None?
    ensures AddAttempt(s, freq, data, now) == Err(UnknownSource(data[s].source.value))
    ensures !AllAdded(Planned(order, freq, rows, min), freq, data, now)
  {
    var plan := Planned(order, freq, rows, min);
    PlannedMembers(order, freq, rows, min);
    assert s in Elements(plan);
    var i :| 0 <= i < |plan| && plan[i] == s;
    assert ParsePartOfSpeech(DefaultPosName) == Some(Noun);
    assert Attempts(plan, freq, data, now)[i].Err?;
  }

  /** A news record's tag is such a source. */
  lemma NewsTagAborts(order: seq<string>, freq: map<string, int>, data: map<string, Emission>,
                      rows: map<string, Row>, min: int, now: Timestamp, s: string)
    requires AllIn(order, freq.Keys) && freq.Keys <= data.Keys
    requires s in Elements(order) && freq[s] >= min && s !in rows
    requires data[s].source == Some("news_nhk") || data[s].source == Some("news_yahoo")
    ensures !AllAdded(Planned(order, freq, rows, min), freq, data, now)
  {
    NewsCrawlerTagsAreNotSources();
    UnknownSourceAborts(order, freq, data, rows, min, now, s);
  }

  // ----- Single-source update -----

  /** The records `update_from_source` adds: only the two known crawlers give any. */
  function SourceWords(source: string, crawled: seq<Emission>): seq<Emission> {
    if source == "wikipedia" || source == "news" then crawled else []
  }

  /** The `add_word` call `update_from_source` makes for one record. */
  function SourceAttempt(em: Emission, source: string, now: Timestamp): Result<Entry, Error> {
    NewEntry(em.surface, now, DefaultPosName, None, em.source.GetOr(source), em.category, em.frequency.GetOr(1))
  }

  function SourceAttempts(ems: seq<Emission>, source: string, now: Timestamp): (r: seq<Result<Entry, Error>>)
    ensures |r| == |ems|
    ensures forall i :: 0 <= i < |ems| ==> r[i] == SourceAttempt(ems[i], source, now)
  {
    seq(|ems|, i requires 0 <= i < |ems| => SourceAttempt(ems[i], source, now))
  }

  /**
   * After a complete single-source update, each surface's row holds what
   * its last record gave.
   */
  lemma FromSourceLastWins(t0: Table, ems: seq<Emission>, source: string, now: Timestamp, i: nat)
    requires i < |ems|
    requires |OkPrefix(SourceAttempts(ems, source, now))| == |ems|
    requires forall j :: i < j < |ems| ==> ems[j].surface != ems[i].surface
    ensures var t := UpsertAll(t0, OkPrefix(SourceAttempts(ems, source, now)), now);
      && SourceAttempt(ems[i], source, now).Ok?
      && ems[i].surface in t.rows
      && SameContent(t.rows[ems[i].surface].entry, SourceAttempt(ems[i], source, now).value)
  {
    var es := OkPrefix(SourceAttempts(ems, source, now));
    UpsertAllLastWins(t0, es, now, i);
    assert es[i].word.surface in Surfaces(es);
  }

  /** A record tagged with a source that names no source stops a single-source update there. */
  lemma FromSourceAborts(ems: seq<Emission>, source: string, now: Timestamp, i: nat)
    requires i < |ems| && ems[i].source.Some? && ParseWordSource(ems[i].source.value).None?
    ensures SourceAttempt(ems[i], source, now) == Err(UnknownSource(ems[i].source.value))
    ensures |OkPrefix(SourceAttempts(ems, source, now))| <= i
  {
    assert ParsePartOfSpeech(DefaultPosName) == Some(Noun);
  }

  // ----- The updater -----

  /** The records an update gathers: Wikipedia's, then the news crawler's, each if configured. */
  function Collected(sources: seq<string>, wikipediaWords: seq<Emission>, newsWords: seq<Emission>): seq<Emission> {
    (if "wikipedia" in sources then wikipediaWords else []) + (if "news" in sources then newsWords else [])
  }

  class DictUpdater {
    const dict: NeoDict
    const sources: seq<string>
    const minFrequency: int

    ghost predicate Valid()
      reads this, dict, dict.storage
    {
      dict.Valid()
    }

    /** A given dictionary or a new one; an empty source list means both crawlers. */
    constructor (dictInstance: Option<NeoDict>, sources: seq<string> := [], minFrequency: int := DefaultMinFrequency)
      requires dictInstance.Some? ==> dictInstance.value.Valid()
      ensures Valid()
      ensures dictInstance.Some? ==> dict == dictInstance.value
      ensures dictInstance.None? ==> fresh(dict) && dict.storage.rows == map[]
      ensures this.sources == (if sources == [] then DefaultSources else sources)
      ensures this.minFrequency == minFrequency
    {
      if dictInstance.Some? {
        dict := dictInstance.value;
      } else {
        dict := new NeoDict();
      }
      this.sources := if sources == [] then DefaultSources else sources;
      this.minFrequency := minFrequency;
    }

    /**
     * `update`: gather the configured crawlers' records, sum frequencies per
     * surface, then in first-seen order count each surface at or above the
     * threshold that the dictionary holds and add each that it does not.
     * An `add_word` that raises ends the update with its error.
     */
    method Update(wikipediaWords: seq<Emission>, newsWords: seq<Emission>, now: Timestamp)
      returns (r: Result<UpdateStats, Error>)
      requires Valid()
      modifies dict.storage
      ensures Valid()
      ensures var ems := Collected(sources, wikipediaWords, newsWords);
        var order, freq, data := FirstSeenOrder(ems), AggregatedFrequency(ems), FirstEmissions(ems);
        var plan := Planned(order, freq, old(dict.storage.rows), minFrequency);
        var attempts := Attempts(plan, freq, data, now);
        var added := OkPrefix(attempts);
        && dict.storage.Abs() == UpsertAll(old(dict.storage.Abs()), added, now)
        && (r.Ok? <==> |added| == |plan|)
        && (r.Err? ==> attempts[|added|] == Err(r.error))
        && (r.Ok? ==> r.value == UpdateStats(|ems|, |order|, |plan|, ExistingCount(order, freq, old(dict.storage.rows), minFrequency)))
    {
      var collected := Collected(sources, wikipediaWords, newsWords);
      var order, freq, data := Aggregate(collected);
      FirstSeenOrderFacts(collected);
      var counts := AddQualifying(order, freq, data, now);
      if counts.Err? {
        return Err(counts.error);
      }
      r := Ok(UpdateStats(|collected|, |order|, counts.value.0, counts.value.1));
    }

    /**
     * The adding loop of `update`, over the surfaces in first-seen order:
     * skip those below the threshold, count those the dictionary holds, add
     * the others. Gives the added and updated counts, or the error of the
     * `add_word` that raised.
     */
    method AddQualifying(order: seq<string>, freq: map<string, int>, data: map<string, Emission>, now: Timestamp)
      returns (r: Result<(nat, nat), Error>)
      requires Valid()
      requires Distinct(order) && AllIn(order, freq.Keys) && freq.Keys <= data.Keys
      modifies dict.storage
      ensures Valid()
      ensures var plan := Planned(order, freq, old(dict.storage.rows), minFrequency);
        var attempts := Attempts(plan, freq, data, now);
        var added := OkPrefix(attempts);
        && dict.storage.Abs() == UpsertAll(old(dict.storage.Abs()), added, now)
        && (r.Ok? <==> |added| == |plan|)
        && (r.Err? ==> attempts[|added|] == Err(r.error))
        && (r.Ok? ==> r.value == (|plan|, ExistingCount(order, freq, old(dict.storage.rows), minFrequency)))
    {
      ghost var t0 := dict.storage.Abs();
      var added, updated := 0, 0;
      ProgressStart(t0, order, freq, data, minFrequency, now);
      for k := 0 to |order|
        invariant Valid()
        invariant Progress(t0, order, freq, data, minFrequency, now, k, added, updated, dict.storage.Abs())
      {
        var step := AddSurface(t0, order, freq, data, now, k, added, updated);
        if step.Err? {
          return Err(step.error);
        }
        added, updated := step.value.0, step.value.1;
      }
      ProgressDone(t0, order, freq, data, minFrequency, now, added, updated, dict.storage.Abs());
      r := Ok((added, updated));
    }

    /**
     * One turn of `update`'s adding loop, for the surface `order[k]`: skip
     * it below the threshold, count it if the dictionary holds it, add it
     * otherwise. Gives the new added and updated counts, or the error of
     * the `add_word` that raised.
     */
    method AddSurface(ghost t0: Table, order: seq<string>, freq: map<string, int>, data: map<string, Emission>,
                      now: Timestamp, k: nat, added: nat, updated: nat)
      returns (r: Result<(nat, nat), Error>)
      requires Valid() && Distinct(order) && k < |order|
      requires Progress(t0, order, freq, data, minFrequency, now, k, added, updated, dict.storage.Abs())
      modifies dict.storage
      ensures Valid()
      ensures r.Ok? ==> Progress(t0, order, freq, data, minFrequency, now, k + 1, r.value.0, r.value.1, dict.storage.Abs())
      ensures r.Err? ==> var attempts := Attempts(Planned(order, freq, t0.rows, minFrequency), freq, data, now);
        && added < |attempts| && attempts[added] == Err(r.error)
        && |OkPrefix(attempts)| == added && dict.storage.Abs() == UpsertAll(t0, OkPrefix(attempts), now)
    {
      var s := order[k];
      if freq[s] < minFrequency {
        ProgressSkip(t0, order, freq, data, minFrequency, now, k, added, updated, dict.storage.Abs());
        return Ok((added, updated));
      }
      var info := data[s];
      var existing := dict.GetWord(s);
      if existing.Some? {
        ProgressExisting(t0, order, freq, data, minFrequency, now, k, added, updated, dict.storage.Abs());
        var counted: nat := updated + 1;
        return Ok((added, counted));
      }
      ProgressAdd(t0, order, freq, data, minFrequency, now, k, added, updated, dict.storage.Abs());
      var res := dict.AddWord(s, now, source := info.source.GetOr(FallbackSourceName), category := info.category,
                              frequency := freq[s]);
      if res.Err? {
        return Err(res.error);
      }
      var made: nat := added + 1;
      r := Ok((made, updated));
    }

    /**
     * `update_from_source`: add every record of the named crawler in order,
     * the crawler's name standing in for a missing source; an unknown name
     * adds nothing. Gives the number of records; an `add_word` that raises
     * ends it with its error.
     */
    method UpdateFromSource(source: string, crawled: seq<Emission>, now: Timestamp) returns (r: Result<nat, Error>)
      requires Valid()
      modifies dict.storage
      ensures Valid()
      ensures var ems := SourceWords(source, crawled);
        var attempts := SourceAttempts(ems, source, now);
        var added := OkPrefix(attempts);
        && dict.storage.Abs() == UpsertAll(old(dict.storage.Abs()), added, now)
        && (r.Ok? <==> |added| == |ems|)
        && (r.Err? ==> attempts[|added|] == Err(r.error))
        && (r.Ok? ==> r.value == |ems|)
    {
      var words := SourceWords(source, crawled);
      ghost var attempts := SourceAttempts(words, source, now);
      ghost var t0 := dict.storage.Abs();
      var count := 0;
      assert attempts[..0] == [];
      while count < |words|
        invariant count <= |words| && Valid()
        invariant Applied(t0, attempts, count, now, dict.storage.Abs())
      {
        var em := words[count];
        ghost var t := dict.storage.Abs();
        var res := dict.AddWord(em.surface, now, source := em.source.GetOr(source), category := em.category,
                                frequency := em.frequency.GetOr(1));
        if res.Err? {
          AppliedErr(t0, attempts, count, now, t);
          return Err(res.error);
        }
        AppliedOk(t0, attempts, count, now, t);
        count := count + 1;
      }
      AppliedAll(t0, attempts, now, dict.storage.Abs());
      r := Ok(count);
    }
  }
}
