/**
 * The persistent store: one `words` table keyed uniquely by surface, with
 * an auto-increment id. The table is a map from surface to row; the
 * auto-increment counter is the last id handed out, so ids are never
 * reused, even after a delete.
 */
module Storage {
  import opened Wrappers
  import opened Word

  /** A row of the table: its id and the entry as it was written. */
  datatype Row = Row(id: nat, entry: Entry)

  /** The table's contents and the auto-increment counter. */
  datatype Table = Table(rows: map<string, Row>, lastId: nat)

  /**
   * Every row sits under its own surface (the UNIQUE key), every id was
   * handed out by the counter, and no two rows share an id.
   */
  ghost predicate TableValid(t: Table) {
    && KeysMatch(t.rows)
    && (forall s :: s in t.rows ==> 1 <= t.rows[s].id <= t.lastId)
    && (forall s, u :: s in t.rows && u in t.rows && s != u ==> t.rows[s].id != t.rows[u].id)
  }

  /** Every row sits under its own surface. */
  ghost predicate KeysMatch(rows: map<string, Row>) {
    forall s :: s in rows ==> rows[s].entry.Surface() == s
  }

  /** The two entries agree on everything a write stores, except the two dates. */
  predicate SameContent(stored: Entry, given: Entry) {
    stored.(addedDate := given.addedDate, lastUpdated := given.lastUpdated) == given
  }

  /** `INSERT`: a new row under the entry's surface, with the next id. */
  function Insert(t: Table, e: Entry): (r: (Table, nat))
    requires e.Surface() !in t.rows
    ensures r.1 == r.0.lastId == t.lastId + 1
    ensures r.0.rows == t.rows[e.Surface() := Row(r.1, e)]
  {
    var id := t.lastId + 1;
    (Table(t.rows[e.Surface() := Row(id, e)], id), id)
  }

  /**
   * `update_word`: overwrite every column of the row with the entry's
   * surface except id, surface and added date; set the last-updated date to
   * `now`. Gives the number of rows changed.
   */
  function UpdateRow(t: Table, e: Entry, now: Timestamp): (r: (Table, nat))
    ensures r.0.lastId == t.lastId && r.0.rows.Keys == t.rows.Keys
    ensures r.1 == (if e.Surface() in t.rows then 1 else 0)
    ensures forall s :: s in t.rows && s != e.Surface() ==> r.0.rows[s] == t.rows[s]
    ensures e.Surface() in t.rows ==>
      var before, after := t.rows[e.Surface()], r.0.rows[e.Surface()];
      && after.id == before.id
      && after.entry.addedDate == before.entry.addedDate
      && after.entry.lastUpdated == now
      && SameContent(after.entry, e)
    ensures e.Surface() !in t.rows ==> r.0 == t
  {
    var s := e.Surface();
    if s in t.rows then
      var before := t.rows[s];
      (Table(t.rows[s := Row(before.id, e.(addedDate := before.entry.addedDate, lastUpdated := now))], t.lastId), 1)
    else (t, 0)
  }

  /**
   * `add_word`: insert; when the surface is already taken the insert fails on
   * the UNIQUE key and the update runs instead. Gives the new row's id, or
   * on the update path the update's row count.
   */
  function Upsert(t: Table, e: Entry, now: Timestamp): (r: (Table, int))
    ensures r.0.rows.Keys == t.rows.Keys + {e.Surface()}
    ensures SameContent(r.0.rows[e.Surface()].entry, e)
    ensures forall s :: s in t.rows && s != e.Surface() ==> r.0.rows[s] == t.rows[s]
    ensures e.Surface() !in t.rows ==>
      && r.1 == r.0.rows[e.Surface()].id == r.0.lastId == t.lastId + 1
      && r.0.rows[e.Surface()].entry == e
    ensures e.Surface() in t.rows ==>
      && r.1 == 1
      && r.0.lastId == t.lastId
      && r.0.rows[e.Surface()].id == t.rows[e.Surface()].id
      && r.0.rows[e.Surface()].entry.addedDate == t.rows[e.Surface()].entry.addedDate
      && r.0.rows[e.Surface()].entry.lastUpdated == now
  {
    if e.Surface() in t.rows then
      var updated := UpdateRow(t, e, now);
      assert updated.0.rows.Keys == t.rows.Keys;
      (updated.0, updated.1 as int)
    else
      var inserted := Insert(t, e);
      assert inserted.0.rows.Keys == t.rows.Keys + {e.Surface()};
      (inserted.0, inserted.1 as int)
  }

  /** The upsert adds one row for a new surface and none for a present one. */
  lemma UpsertCount(t: Table, e: Entry, now: Timestamp)
    ensures |Upsert(t, e, now).0.rows| == |t.rows| + (if e.Surface() in t.rows then 0 else 1)
  {
    var r := Upsert(t, e, now).0;
    if e.Surface() in t.rows {
      assert r.rows.Keys == t.rows.Keys;
    } else {
      assert r.rows.Keys == t.rows.Keys + {e.Surface()};
    }
  }

  /**
   * The upsert keeps the table valid, and a new row's id is greater than
   * every id already in the table.
   */
  lemma UpsertValid(t: Table, e: Entry, now: Timestamp)
    requires TableValid(t)
    ensures TableValid(Upsert(t, e, now).0)
    ensures e.Surface() !in t.rows ==> forall s :: s in t.rows ==> t.rows[s].id < Upsert(t, e, now).1
  {
    if e.Surface() in t.rows {
      UpdateRowValid(t, e, now);
    } else {
      InsertValid(t, e);
    }
  }

  /** The insert keeps the table valid: the new id is above every id in use. */
  lemma InsertValid(t: Table, e: Entry)
    requires TableValid(t) && e.Surface() !in t.rows
    ensures TableValid(Insert(t, e).0)
    ensures forall s :: s in t.rows ==> t.rows[s].id < Insert(t, e).1
  {
    var r := Insert(t, e).0;
    forall u, v | u in r.rows && v in r.rows && u != v ensures r.rows[u].id != r.rows[v].id {
      if u != e.Surface() && v != e.Surface() {
        assert r.rows[u] == t.rows[u] && r.rows[v] == t.rows[v];
      }
    }
  }

  /** The update keeps the table valid: ids and keys stay, the surface of the rewritten row too. */
  lemma UpdateRowValid(t: Table, e: Entry, now: Timestamp)
    requires TableValid(t)
    ensures TableValid(UpdateRow(t, e, now).0)
  {
    var r := UpdateRow(t, e, now).0;
    forall u | u in r.rows ensures r.rows[u].id == t.rows[u].id && r.rows[u].entry.Surface() == u {
    }
  }

  /** Upserting the same entry twice: the row keeps its id and added date, and takes the later update time. */
  lemma UpsertTwice(t: Table, e: Entry, now1: Timestamp, now2: Timestamp)
    ensures var t1 := Upsert(t, e, now1).0;
      var t2 := Upsert(t1, e, now2);
      && t2.0.rows.Keys == t1.rows.Keys
      && t2.0.lastId == t1.lastId
      && t2.1 == 1
      && t2.0.rows[e.Surface()].id == t1.rows[e.Surface()].id
      && t2.0.rows[e.Surface()].entry.addedDate == t1.rows[e.Surface()].entry.addedDate
      && t2.0.rows[e.Surface()].entry.lastUpdated == now2
  {
  }

  /** Upserting a list of entries one after the other. */
  function UpsertAll(t: Table, es: seq<Entry>, now: Timestamp): Table
    decreases |es|
  {
    if es == [] then t
    else Upsert(UpsertAll(t, es[..|es| - 1], now), es[|es| - 1], now).0
  }

  /** Upserting a list adds the list's surfaces and no others. */
  lemma {:induction false} UpsertAllKeys(t: Table, es: seq<Entry>, now: Timestamp)
    ensures UpsertAll(t, es, now).rows.Keys == t.rows.Keys + Surfaces(es)
    decreases |es|
  {
    if es == [] {
      assert Surfaces(es) == {};
    } else {
      var init, last := es[..|es| - 1], es[|es| - 1];
      var before := UpsertAll(t, init, now);
      assert Surfaces(es) == Surfaces(init) + {last.Surface()} by {
        assert es == init + [last];
        SurfacesAppend(init, last);
      }
      assert before.rows.Keys == t.rows.Keys + Surfaces(init) by {
        UpsertAllKeys(t, init, now);
      }
      assert UpsertAll(t, es, now).rows.Keys == before.rows.Keys + {last.Surface()};
    }
  }

  /** Upserting a list leaves the rows of surfaces outside it alone. */
  lemma {:induction false} UpsertAllOthers(t: Table, es: seq<Entry>, now: Timestamp, s: string)
    requires s in t.rows && s !in Surfaces(es)
    ensures s in UpsertAll(t, es, now).rows && UpsertAll(t, es, now).rows[s] == t.rows[s]
    decreases |es|
  {
    if es != [] {
      var init, last := es[..|es| - 1], es[|es| - 1];
      assert es == init + [last];
      SurfacesAppend(init, last);
      UpsertAllOthers(t, init, now, s);
    }
  }

  /** Both facts about the surfaces of an upserted list. */
  lemma UpsertAllSurfaces(t: Table, es: seq<Entry>, now: Timestamp)
    ensures UpsertAll(t, es, now).rows.Keys == t.rows.Keys + Surfaces(es)
    ensures forall s :: s in t.rows && s !in Surfaces(es) ==> UpsertAll(t, es, now).rows[s] == t.rows[s]
  {
    UpsertAllKeys(t, es, now);
    forall s | s in t.rows && s !in Surfaces(es) ensures UpsertAll(t, es, now).rows[s] == t.rows[s] {
      UpsertAllOthers(t, es, now, s);
    }
  }

  /** Upserting a list is upserting all but its last entry, then the last one. */
  lemma UpsertAllStep(t: Table, es: seq<Entry>, now: Timestamp)
    requires es != []
    ensures UpsertAll(t, es, now) == Upsert(UpsertAll(t, es[..|es| - 1], now), es[|es| - 1], now).0
  {
  }

  /** A list of upserts keeps the table valid. */
  lemma {:induction false} UpsertAllValid(t: Table, es: seq<Entry>, now: Timestamp)
    requires TableValid(t)
    ensures TableValid(UpsertAll(t, es, now))
    decreases |es|
  {
    if es != [] {
      UpsertAllStep(t, es, now);
      UpsertAllValid(t, es[..|es| - 1], now);
      UpsertValid(UpsertAll(t, es[..|es| - 1], now), es[|es| - 1], now);
    }
  }

  /**
   * After upserting a list, each surface's row holds what the last entry
   * with that surface gave.
   */
  lemma {:induction false} UpsertAllLastWins(t: Table, es: seq<Entry>, now: Timestamp, i: nat)
    requires i < |es|
    requires forall j :: i < j < |es| ==> es[j].Surface() != es[i].Surface()
    ensures es[i].Surface() in UpsertAll(t, es, now).rows
    ensures SameContent(UpsertAll(t, es, now).rows[es[i].Surface()].entry, es[i])
    decreases |es|
  {
    var init := es[..|es| - 1];
    if i < |es| - 1 {
      assert init[i] == es[i];
      forall j | i < j < |init| ensures init[j].Surface() != init[i].Surface() {
        assert init[j] == es[j];
      }
      UpsertAllLastWins(t, init, now, i);
      assert init[i].word.surface in Surfaces(init);
      UpsertAllKeeps(t, es, now, es[i].Surface());
    } else {
      UpsertAllStep(t, es, now);
    }
  }

  /** The last upsert of a list leaves the rows of other surfaces as the earlier ones made them. */
  lemma UpsertAllKeeps(t: Table, es: seq<Entry>, now: Timestamp, s: string)
    requires es != [] && s in Surfaces(es[..|es| - 1]) && s != es[|es| - 1].Surface()
    ensures s in UpsertAll(t, es[..|es| - 1], now).rows
    ensures UpsertAll(t, es, now).rows[s] == UpsertAll(t, es[..|es| - 1], now).rows[s]
  {
    UpsertAllSurfaces(t, es[..|es| - 1], now);
    UpsertAllStep(t, es, now);
  }

  /** `delete_word`: remove the row with that surface, if any; gives the number removed. */
  function Delete(t: Table, surface: string): (r: (Table, nat))
    ensures r.1 == (if surface in t.rows then 1 else 0)
    ensures surface !in r.0.rows
    ensures forall s :: s != surface ==> (s in r.0.rows <==> s in t.rows)
    ensures forall s :: s in r.0.rows ==> r.0.rows[s] == t.rows[s]
    ensures |r.0.rows| == |t.rows| - r.1
    ensures r.0.lastId == t.lastId
    ensures TableValid(t) ==> TableValid(r.0)
  {
    if surface in t.rows then (Table(t.rows - {surface}, t.lastId), 1) else (t, 0)
  }

  /**
   * `_row_to_entry`: rebuild the word (so a missing pronunciation is taken
   * from the reading) and read an empty or missing detail or conjugation
   * column as the wildcard.
   */
  function RowToEntry(r: Row): (e: Entry)
    ensures e.word.surface == r.entry.word.surface && e.word.reading == r.entry.word.reading
    ensures r.entry.word.pronunciation.Some? ==> e.word.pronunciation == r.entry.word.pronunciation
    ensures r.entry.word.pronunciation.None? ==> e.word.pronunciation == r.entry.word.reading
    ensures EntryWellFormed(e)
    ensures e.pos == r.entry.pos && e.source == r.entry.source && e.frequency == r.entry.frequency
    ensures e.category == r.entry.category && e.baseForm == r.entry.baseForm
    ensures e.posDetail1 == (if r.entry.posDetail1 == [] then Wildcard else r.entry.posDetail1)
    ensures e.posDetail2 == (if r.entry.posDetail2 == [] then Wildcard else r.entry.posDetail2)
    ensures e.posDetail3 == (if r.entry.posDetail3 == [] then Wildcard else r.entry.posDetail3)
    ensures e.conjugationType == (if r.entry.conjugationType == [] then Wildcard else r.entry.conjugationType)
    ensures e.conjugationForm == (if r.entry.conjugationForm == [] then Wildcard else r.entry.conjugationForm)
    ensures e.cost == r.entry.cost && e.leftContextId == r.entry.leftContextId && e.rightContextId == r.entry.rightContextId
    ensures e.addedDate == r.entry.addedDate && e.lastUpdated == r.entry.lastUpdated
    ensures EntryWellFormed(r.entry) && StoredTextPresent(r.entry) ==> e == r.entry
  {
    var stored := r.entry;
    MakeEntry(
      MakeWord(stored.word.surface, stored.word.reading, stored.word.pronunciation),
      stored.lastUpdated,
      pos := stored.pos,
      posDetail1 := OrElse(Some(stored.posDetail1), Wildcard),
      posDetail2 := OrElse(Some(stored.posDetail2), Wildcard),
      posDetail3 := OrElse(Some(stored.posDetail3), Wildcard),
      conjugationType := OrElse(Some(stored.conjugationType), Wildcard),
      conjugationForm := OrElse(Some(stored.conjugationForm), Wildcard),
      baseForm := Some(stored.baseForm),
      frequency := stored.frequency,
      source := stored.source,
      category := stored.category,
      addedDate := stored.addedDate,
      lastUpdated := stored.lastUpdated,
      cost := stored.cost,
      leftContextId := stored.leftContextId,
      rightContextId := stored.rightContextId)
  }

  /** The detail and conjugation columns the read-back keeps as written. */
  predicate StoredTextPresent(e: Entry) {
    e.posDetail1 != [] && e.posDetail2 != [] && e.posDetail3 != []
    && e.conjugationType != [] && e.conjugationForm != []
  }

  // ---------------------------------------------------------------------------
  // Search, listing and statistics over the table
  // ---------------------------------------------------------------------------

  /** `q` occurs in `s` at position `i`. */
  predicate OccursIn(q: string, s: string, i: int) {
    0 <= i && i + |q| <= |s| && s[i..i + |q|] == q
  }

  predicate IsSubstring(q: string, s: string) {
    exists i | 0 <= i <= |s| :: OccursIn(q, s, i)
  }

  /**
   * The search condition: `surface = q OR reading = q`, or with `fuzzy`
   * `surface LIKE %q% OR reading LIKE %q%` read as a plain substring test.
   * A NULL reading matches neither.
   */
  predicate RowMatches(r: Row, query: string, fuzzy: bool) {
    var surface, reading := r.entry.word.surface, r.entry.word.reading;
    if fuzzy then IsSubstring(query, surface) || (reading.Some? && IsSubstring(query, reading.value))
    else surface == query || reading == Some(query)
  }

  function MatchingSurfaces(rows: map<string, Row>, query: string, fuzzy: bool): set<string> {
    set s | s in rows && RowMatches(rows[s], query, fuzzy)
  }

  /** How many of `n` rows `LIMIT limit` lets through: a negative limit is no limit. */
  function LimitCount(limit: int, n: nat): (r: nat)
    ensures r <= n
    ensures limit >= 0 ==> r <= limit
    ensures r == n || r == limit
  {
    if limit < 0 || n <= limit then n else limit
  }

  /** The number of rows whose entry has `key` value `k`. */
  function CountWith<K(==)>(rows: map<string, Row>, key: Entry -> K, k: K): nat {
    |set s | s in rows && key(rows[s].entry) == k|
  }

  /** The values of `key` that occur in the table. */
  function ValuesInUse<K(==)>(rows: map<string, Row>, key: Entry -> K): set<K> {
    set s | s in rows :: key(rows[s].entry)
  }

  /** The counts of a `GROUP BY key`: one per value that occurs. */
  function GroupCounts<K(==)>(rows: map<string, Row>, key: Entry -> K, domain: set<K>): (m: map<K, nat>)
    requires ValuesInUse(rows, key) <= domain
    ensures m.Keys == ValuesInUse(rows, key)
    ensures forall k :: k in m ==> m[k] == CountWith(rows, key, k) > 0
  {
    var m := map k | k in domain && CountWith(rows, key, k) > 0 :: CountWith(rows, key, k);
    assert m.Keys == ValuesInUse(rows, key) by {
      forall k | k in ValuesInUse(rows, key) ensures k in m {
        var s :| s in rows && key(rows[s].entry) == k;
        var group := set u | u in rows && key(rows[u].entry) == k;
        assert s in group;
        assert |group| > 0;
      }
    }
    m
  }

  /** The sum of `m`'s values over `keys` (an absent key adds nothing). */
  function SumOver<K(==)>(m: map<K, nat>, keys: seq<K>): nat {
    if keys == [] then 0 else (if keys[0] in m then m[keys[0]] else 0) + SumOver(m, keys[1..])
  }

  /** The elements of a list, as a set. */
  function Elements<K(==)>(ks: seq<K>): set<K> {
    set i | 0 <= i < |ks| :: ks[i]
  }

  /** The rows whose entry's `key` value is among `ks`. */
  function RowsWithin<K(==)>(rows: map<string, Row>, key: Entry -> K, ks: set<K>): set<string> {
    set s | s in rows && key(rows[s].entry) in ks
  }

  /** Over a list of distinct values, the group counts add up to the rows whose value is listed. */
  lemma {:induction false} GroupCountsSum<K>(rows: map<string, Row>, key: Entry -> K, domain: set<K>, ks: seq<K>)
    requires ValuesInUse(rows, key) <= domain
    requires forall i, j :: 0 <= i < j < |ks| ==> ks[i] != ks[j]
    ensures SumOver(GroupCounts(rows, key, domain), ks) == |RowsWithin(rows, key, Elements(ks))|
    decreases |ks|
  {
    var m := GroupCounts(rows, key, domain);
    if ks == [] {
      assert Elements(ks) == {};
      assert RowsWithin(rows, key, Elements(ks)) == {};
    } else {
      var rest := Elements(ks[1..]);
      GroupCountsSum(rows, key, domain, ks[1..]);
      var head := set s | s in rows && key(rows[s].entry) == ks[0];
      assert Elements(ks) == {ks[0]} + rest by {
        forall x | x in Elements(ks) ensures x in {ks[0]} + rest {
          var i :| 0 <= i < |ks| && ks[i] == x;
          if i > 0 { assert ks[1..][i - 1] == x; }
        }
        forall x | x in rest ensures x in Elements(ks) {
          var i :| 0 <= i < |ks[1..]| && ks[1..][i] == x;
          assert ks[i + 1] == x;
        }
      }
      assert ks[0] !in rest by {
        forall i | 0 <= i < |ks[1..]| ensures ks[1..][i] != ks[0] { assert ks[1..][i] == ks[i + 1]; }
      }
      assert RowsWithin(rows, key, Elements(ks)) == head + RowsWithin(rows, key, rest);
      assert head !! RowsWithin(rows, key, rest);
      assert (if ks[0] in m then m[ks[0]] else 0) == |head|;
    }
  }

  /** When every value in use is listed, the group counts add up to the row count. */
  lemma GroupCountsTotal<K>(rows: map<string, Row>, key: Entry -> K, domain: set<K>, ks: seq<K>)
    requires ValuesInUse(rows, key) <= domain <= Elements(ks)
    requires forall i, j :: 0 <= i < j < |ks| ==> ks[i] != ks[j]
    ensures SumOver(GroupCounts(rows, key, domain), ks) == |rows|
  {
    GroupCountsSum(rows, key, domain, ks);
    forall s | s in rows ensures s in RowsWithin(rows, key, Elements(ks)) {
      assert key(rows[s].entry) in ValuesInUse(rows, key);
    }
    assert RowsWithin(rows, key, Elements(ks)) == rows.Keys;
  }

  const AllSources: seq<WordSource> := [Wikipedia, News, Twitter, Manual, Hatena, Other]
  const AllPartsOfSpeech: seq<PartOfSpeech> :=
    [Noun, Verb, Adjective, Adverb, Particle, Auxiliary, Conjunction, Interjection, Symbol, Unknown]

  function SourceOf(e: Entry): WordSource { e.source }
  function PosOf(e: Entry): PartOfSpeech { e.pos }

  /** Every source is listed once in `AllSources`, every part of speech once in `AllPartsOfSpeech`. */
  lemma EnumsListed()
    ensures forall src: WordSource :: src in Elements(AllSources)
    ensures forall p: PartOfSpeech :: p in Elements(AllPartsOfSpeech)
    ensures forall i, j :: 0 <= i < j < |AllSources| ==> AllSources[i] != AllSources[j]
    ensures forall i, j :: 0 <= i < j < |AllPartsOfSpeech| ==> AllPartsOfSpeech[i] != AllPartsOfSpeech[j]
  {
    forall src: WordSource ensures src in Elements(AllSources) {
      var i := match src
        case Wikipedia => 0 case News => 1 case Twitter => 2
        case Manual => 3 case Hatena => 4 case Other => 5;
      assert AllSources[i] == src;
    }
    forall p: PartOfSpeech ensures p in Elements(AllPartsOfSpeech) {
      var i := match p
        case Noun => 0 case Verb => 1 case Adjective => 2 case Adverb => 3 case Particle => 4
        case Auxiliary => 5 case Conjunction => 6 case Interjection => 7 case Symbol => 8 case Unknown => 9;
      assert AllPartsOfSpeech[i] == p;
    }
  }

  /** What `get_stats` reports. */
  datatype Stats = Stats(
    totalWords: nat,
    uniquePos: nat,
    sources: map<WordSource, nat>,
    posDistribution: map<PartOfSpeech, nat>)

  /**
   * `get_stats` over a table: the row count, the number of distinct parts of
   * speech, and the per-source and per-part-of-speech counts. Each family of
   * counts adds up to the row count, and there is one part-of-speech group
   * per distinct part of speech.
   */
  function StatsOf(rows: map<string, Row>): (st: Stats)
    ensures st.totalWords == |rows|
    ensures st.uniquePos == |ValuesInUse(rows, PosOf)| == |st.posDistribution|
    ensures st.sources.Keys == ValuesInUse(rows, SourceOf)
    ensures st.posDistribution.Keys == ValuesInUse(rows, PosOf)
    ensures forall src :: src in st.sources ==> st.sources[src] == CountWith(rows, SourceOf, src)
    ensures forall p :: p in st.posDistribution ==> st.posDistribution[p] == CountWith(rows, PosOf, p)
    ensures SumOver(st.sources, AllSources) == st.totalWords
    ensures SumOver(st.posDistribution, AllPartsOfSpeech) == st.totalWords
  {
    EnumsListed();
    var sourceDomain, posDomain := Elements(AllSources), Elements(AllPartsOfSpeech);
    var sources := GroupCounts(rows, SourceOf, sourceDomain);
    var posDistribution := GroupCounts(rows, PosOf, posDomain);
    GroupCountsTotal(rows, SourceOf, sourceDomain, AllSources);
    GroupCountsTotal(rows, PosOf, posDomain, AllPartsOfSpeech);
    Stats(|rows|, |ValuesInUse(rows, PosOf)|, sources, posDistribution)
  }

  // ---------------------------------------------------------------------------
  // The store
  // ---------------------------------------------------------------------------

  /** `DictStorage`: the `words` table behind its get, search, upsert, delete and stats calls. */
  class DictStorage {
    var rows: map<string, Row>
    var lastId: nat

    function Abs(): Table
      reads this
    {
      Table(rows, lastId)
    }

    ghost predicate Valid()
      reads this
    {
      TableValid(Abs())
    }

    /** A store over an empty table. */
    constructor ()
      ensures Valid() && rows == map[] && lastId == 0
    {
      rows := map[];
      lastId := 0;
    }

    /** `add_word`: the upsert; the clock reads `now` if the update path runs. */
    method AddWord(entry: Entry, now: Timestamp) returns (r: int)
      requires Valid()
      modifies this
      ensures Valid()
      ensures (Abs(), r) == Upsert(old(Abs()), entry, now)
      ensures entry.Surface() !in old(rows) ==> r == lastId && forall s :: s in old(rows) ==> old(rows)[s].id < r
      ensures entry.Surface() in old(rows) ==> r == 1
    {
      ghost var before := Abs();
      UpsertValid(before, entry, now);
      if entry.Surface() !in rows {
        lastId := lastId + 1;
        rows := rows[entry.Surface() := Row(lastId, entry)];
        r := lastId;
        assert (Abs(), r as nat) == Insert(before, entry);
      } else {
        r := UpdateWord(entry, now);
      }
    }

    /** `update_word`: overwrite the row with the entry's surface, if there is one. */
    method UpdateWord(entry: Entry, now: Timestamp) returns (count: nat)
      requires Valid()
      modifies this
      ensures Valid()
      ensures (Abs(), count) == UpdateRow(old(Abs()), entry, now)
      ensures count == (if entry.Surface() in old(rows) then 1 else 0)
    {
      UpdateRowValid(Abs(), entry, now);
      var s := entry.Surface();
      if s in rows {
        var before := rows[s];
        rows := rows[s := Row(before.id, entry.(addedDate := before.entry.addedDate, lastUpdated := now))];
        count := 1;
      } else {
        count := 0;
      }
    }

    /** `get_word`: the entry with that surface, if the table has one. */
    method GetWord(surface: string) returns (r: Option<Entry>)
      requires KeysMatch(rows)
      ensures r.Some? <==> surface in rows
      ensures r.Some? ==> r.value == RowToEntry(rows[surface]) && r.value.word.surface == surface
    {
      if surface in rows {
        r := Some(RowToEntry(rows[surface]));
      } else {
        r := None;
      }
    }

    /**
     * `search_words`: matching rows, each once, in no particular order, as
     * many as the limit lets through.
     */
    method SearchWords(query: string, fuzzy: bool, limit: int) returns (result: seq<Entry>)
      requires KeysMatch(rows)
      ensures |result| == LimitCount(limit, |MatchingSurfaces(rows, query, fuzzy)|)
      ensures forall i :: 0 <= i < |result| ==>
        && result[i].word.surface in MatchingSurfaces(rows, query, fuzzy)
        && result[i] == RowToEntry(rows[result[i].word.surface])
      ensures forall i, j :: 0 <= i < j < |result| ==> result[i].word.surface != result[j].word.surface
    {
      var matching := MatchingSurfaces(rows, query, fuzzy);
      var remaining := rows.Keys;
      result := [];
      while remaining != {} && (limit < 0 || |result| < limit)
        invariant Scanning(rows, matching, remaining, result)
        invariant limit >= 0 ==> |result| <= limit
        decreases remaining
      {
        var s :| s in remaining;
        ScanStep(rows, matching, remaining, result, s);
        if s in matching {
          result := result + [RowToEntry(rows[s])];
        }
        remaining := remaining - {s};
      }
      SearchCount(rows, matching, remaining, result, limit);
      ListedEntries(rows, matching - remaining, result);
    }

    /**
     * `get_all_words`: the rows by descending frequency; a limit that is
     * None or 0 lists them all (as does a negative one, by SQLite's rule),
     * a positive one keeps that many of the most frequent.
     */
    method GetAllWords(limit: Option<int>) returns (result: seq<Entry>)
      requires KeysMatch(rows)
      ensures |result| == (if limit.None? || limit.value == 0 then |rows| else LimitCount(limit.value, |rows|))
      ensures forall i, j :: 0 <= i < j < |result| ==> result[i].frequency >= result[j].frequency
      ensures forall i :: 0 <= i < |result| ==>
        result[i].word.surface in rows && result[i] == RowToEntry(rows[result[i].word.surface])
      ensures forall i, j :: 0 <= i < j < |result| ==> result[i].word.surface != result[j].word.surface
      ensures forall s, i :: s in rows && 0 <= i < |result| && s !in Surfaces(result) ==>
        rows[s].entry.frequency <= result[i].frequency
    {
      var cap := if limit.None? || limit.value == 0 then |rows| else LimitCount(limit.value, |rows|);
      var remaining := rows.Keys;
      result := [];
      assert rows.Keys - remaining == {};
      while |result| < cap
        invariant Ranking(rows, remaining, result)
        invariant |result| <= cap <= |rows|
        decreases cap - |result|
      {
        RankingNotDone(rows, remaining, result);
        var s := MostFrequent(remaining);
        RankingStep(rows, remaining, result, s);
        result := result + [RowToEntry(rows[s])];
        remaining := remaining - {s};
      }
      RankingDone(rows, remaining, result);
    }

    /** A surface among `keys` whose row has the highest frequency. */
    method MostFrequent(keys: set<string>) returns (best: string)
      requires keys != {} && keys <= rows.Keys
      ensures best in keys
      ensures forall s :: s in keys ==> rows[s].entry.frequency <= rows[best].entry.frequency
    {
      best :| best in keys;
      var rest := keys - {best};
      while rest != {}
        invariant rest <= keys && best in keys
        invariant forall s :: s in keys - rest ==> rows[s].entry.frequency <= rows[best].entry.frequency
        decreases rest
      {
        var s :| s in rest;
        if rows[s].entry.frequency > rows[best].entry.frequency {
          best := s;
        }
        rest := rest - {s};
      }
    }

    /** `delete_word`: remove the row with that surface; gives 1 if there was one, else 0. */
    method DeleteWord(surface: string) returns (count: nat)
      requires Valid()
      modifies this
      ensures Valid()
      ensures (Abs(), count) == Delete(old(Abs()), surface)
      ensures surface !in rows && count == (if surface in old(rows) then 1 else 0)
    {
      if surface in rows {
        rows := rows - {surface};
        count := 1;
      } else {
        count := 0;
      }
    }

    /** `get_stats`. */
    method GetStats() returns (stats: Stats)
      ensures stats == StatsOf(rows)
      ensures SumOver(stats.sources, AllSources) == SumOver(stats.posDistribution, AllPartsOfSpeech) == |rows|
    {
      stats := StatsOf(rows);
    }
  }

  /** The surfaces of a list of entries. */
  function Surfaces(es: seq<Entry>): set<string> {
    set i | 0 <= i < |es| :: es[i].word.surface
  }

  lemma SurfacesAppend(es: seq<Entry>, e: Entry)
    ensures Surfaces(es + [e]) == Surfaces(es) + {e.word.surface}
  {
    var es' := es + [e];
    assert es'[|es|] == e;
    forall x | x in Surfaces(es) ensures x in Surfaces(es') {
      var i :| 0 <= i < |es| && es[i].word.surface == x;
      assert es'[i] == es[i];
    }
  }

  /** No element of the list occurs twice. */
  predicate Distinct<T(==)>(ss: seq<T>) {
    forall i, j :: 0 <= i < j < |ss| ==> ss[i] != ss[j]
  }

  /**
   * `result` lists the rows of `done`, read back, each once: the state of a
   * query that has gone through part of the table.
   */
  ghost predicate Listed(rows: map<string, Row>, done: set<string>, result: seq<Entry>) {
    && KeysMatch(rows)
    && done <= rows.Keys
    && Surfaces(result) == done
    && |result| == |done|
    && Distinct(SurfaceList(result))
    && (forall i :: 0 <= i < |result| ==> result[i] == RowToEntry(rows[result[i].word.surface]))
  }

  function SurfaceList(es: seq<Entry>): seq<string> {
    seq(|es|, i requires 0 <= i < |es| => es[i].word.surface)
  }

  /** When the scan stops, the listing holds as many rows as the limit lets through. */
  lemma SearchCount(rows: map<string, Row>, matching: set<string>, remaining: set<string>, result: seq<Entry>, limit: int)
    requires Listed(rows, matching - remaining, result) && matching <= rows.Keys
    requires limit >= 0 ==> |result| <= limit
    requires remaining == {} || (limit >= 0 && |result| >= limit)
    ensures |result| == LimitCount(limit, |matching|)
  {
    SubsetSize(matching - remaining, matching);
  }

  /** What a listing says about each of its entries. */
  lemma ListedEntries(rows: map<string, Row>, done: set<string>, result: seq<Entry>)
    requires Listed(rows, done, result)
    ensures forall i :: 0 <= i < |result| ==>
      result[i].word.surface in done && result[i] == RowToEntry(rows[result[i].word.surface])
    ensures forall i, j :: 0 <= i < j < |result| ==> result[i].word.surface != result[j].word.surface
  {
    forall i | 0 <= i < |result| ensures result[i].word.surface in done {
      assert result[i].word.surface in Surfaces(result);
    }
    forall i, j | 0 <= i < j < |result| ensures result[i].word.surface != result[j].word.surface {
      assert SurfaceList(result)[i] == result[i].word.surface;
      assert SurfaceList(result)[j] == result[j].word.surface;
    }
  }

  /** Reading one more row, not yet listed, extends the listing by one. */
  lemma ListOne(rows: map<string, Row>, done: set<string>, result: seq<Entry>, s: string)
    requires Listed(rows, done, result) && s in rows && s !in done
    ensures Listed(rows, done + {s}, result + [RowToEntry(rows[s])])
  {
    var e := RowToEntry(rows[s]);
    SurfacesAppend(result, e);
    SurfaceListAppend(result, e);
    forall i | 0 <= i < |result| ensures SurfaceList(result)[i] != s {
      assert result[i].word.surface in Surfaces(result);
    }
    DistinctAppend(SurfaceList(result), s);
    EntriesAppend(rows, result, e);
  }

  lemma SurfaceListAppend(es: seq<Entry>, e: Entry)
    ensures SurfaceList(es + [e]) == SurfaceList(es) + [e.word.surface]
  {
  }

  lemma DistinctAppend<T>(ss: seq<T>, x: T)
    requires Distinct(ss) && forall i :: 0 <= i < |ss| ==> ss[i] != x
    ensures Distinct(ss + [x])
  {
  }

  lemma EntriesAppend(rows: map<string, Row>, es: seq<Entry>, e: Entry)
    requires e.word.surface in rows && e == RowToEntry(rows[e.word.surface])
    requires forall i :: 0 <= i < |es| ==> es[i].word.surface in rows && es[i] == RowToEntry(rows[es[i].word.surface])
    ensures forall i :: 0 <= i < |es + [e]| ==> (es + [e])[i] == RowToEntry(rows[(es + [e])[i].word.surface])
  {
  }

  /**
   * The listing so far is in non-increasing frequency, and no row still
   * to be listed is more frequent than any listed one.
   */
  ghost predicate Ranked(rows: map<string, Row>, remaining: set<string>, result: seq<Entry>)
    requires remaining <= rows.Keys
  {
    && (forall i, j :: 0 <= i < j < |result| ==> result[i].frequency >= result[j].frequency)
    && (forall s, i :: s in remaining && 0 <= i < |result| ==> rows[s].entry.frequency <= result[i].frequency)
  }

  /** Listing a most frequent remaining row keeps the ranking. */
  lemma RankOne(rows: map<string, Row>, remaining: set<string>, result: seq<Entry>, s: string)
    requires remaining <= rows.Keys && Ranked(rows, remaining, result)
    requires s in remaining
    requires forall u :: u in remaining ==> rows[u].entry.frequency <= rows[s].entry.frequency
    ensures Ranked(rows, remaining - {s}, result + [RowToEntry(rows[s])])
  {
    var result' := result + [RowToEntry(rows[s])];
    assert result'[|result|].frequency == rows[s].entry.frequency;
    forall i | 0 <= i < |result| ensures result'[i] == result[i] { }
  }

  /** The state of `search_words`' scan: the matching rows read so far are listed, each once. */
  ghost predicate Scanning(rows: map<string, Row>, matching: set<string>, remaining: set<string>, result: seq<Entry>) {
    && remaining <= rows.Keys
    && matching <= rows.Keys
    && Listed(rows, matching - remaining, result)
  }

  /** Reading one more row lists it exactly when it matches. */
  lemma ScanStep(rows: map<string, Row>, matching: set<string>, remaining: set<string>, result: seq<Entry>, s: string)
    requires Scanning(rows, matching, remaining, result) && s in remaining
    ensures s in matching ==> Scanning(rows, matching, remaining - {s}, result + [RowToEntry(rows[s])])
    ensures s !in matching ==> Scanning(rows, matching, remaining - {s}, result)
  {
    DoneStep(matching, remaining, s);
    if s in matching {
      ListOne(rows, matching - remaining, result, s);
    }
  }

  /** The state of `get_all_words`' ordering: the rows listed so far, best first, and the rest. */
  ghost predicate Ranking(rows: map<string, Row>, remaining: set<string>, result: seq<Entry>) {
    && remaining <= rows.Keys
    && Listed(rows, rows.Keys - remaining, result)
    && Ranked(rows, remaining, result)
  }

  /** While fewer rows are listed than there are, some remain. */
  lemma RankingNotDone(rows: map<string, Row>, remaining: set<string>, result: seq<Entry>)
    requires Ranking(rows, remaining, result) && |result| < |rows|
    ensures remaining != {}
  {
  }

  /** Listing a most frequent remaining row keeps the ordering. */
  lemma RankingStep(rows: map<string, Row>, remaining: set<string>, result: seq<Entry>, s: string)
    requires Ranking(rows, remaining, result) && s in remaining
    requires forall u :: u in remaining ==> rows[u].entry.frequency <= rows[s].entry.frequency
    ensures Ranking(rows, remaining - {s}, result + [RowToEntry(rows[s])])
  {
    ListOne(rows, rows.Keys - remaining, result, s);
    RankOne(rows, remaining, result, s);
    DoneStep(rows.Keys, remaining, s);
  }

  /** What the ordering gives when it stops. */
  lemma RankingDone(rows: map<string, Row>, remaining: set<string>, result: seq<Entry>)
    requires Ranking(rows, remaining, result)
    ensures forall i, j :: 0 <= i < j < |result| ==> result[i].frequency >= result[j].frequency
    ensures forall i :: 0 <= i < |result| ==>
      result[i].word.surface in rows && result[i] == RowToEntry(rows[result[i].word.surface])
    ensures forall i, j :: 0 <= i < j < |result| ==> result[i].word.surface != result[j].word.surface
    ensures forall s, i :: s in rows && 0 <= i < |result| && s !in Surfaces(result) ==>
      rows[s].entry.frequency <= result[i].frequency
  {
    ListedEntries(rows, rows.Keys - remaining, result);
  }

  /** Taking `s` out of the part still to do adds it to the part of `m` done, when it is in `m`. */
  lemma DoneStep<T>(m: set<T>, remaining: set<T>, s: T)
    ensures m - (remaining - {s}) == (m - remaining) + (if s in m then {s} else {})
  {
  }

  lemma SubsetSize<T>(a: set<T>, b: set<T>)
    requires a <= b
    ensures |a| <= |b|
  {
    assert b == a + (b - a);
  }
}
