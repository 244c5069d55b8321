/**
 * The `NeoDict` facade: it builds entries from plain strings (converting the
 * part of speech and source names into their enums, which can fail) and
 * hands every call on to the store.
 */
module Dictionary {
  import opened Wrappers
  import opened Word
  import opened Storage

  /** The part of speech `add_word` assumes when the caller names none. */
  const DefaultPosName: string := "名詞"

  /** The source `add_word` assumes when the caller names none. */
  const DefaultSourceName: string := "manual"

  /**
   * The entry `add_word` builds: the word from surface and reading, the
   * named part of speech and source, the category and frequency, and the
   * dataclass defaults for the rest. Converting the part of speech raises
   * first, then converting the source.
   */
  function NewEntry(surface: string, now: Timestamp, pos: string, reading: Option<string>,
                    source: string, category: Option<string>, frequency: int): (r: Result<Entry, Error>)
    ensures r.Ok? <==> ParsePartOfSpeech(pos).Some? && ParseWordSource(source).Some?
    ensures ParsePartOfSpeech(pos).None? ==> r == Err(UnknownPartOfSpeech(pos))
    ensures ParsePartOfSpeech(pos).Some? && ParseWordSource(source).None? ==> r == Err(UnknownSource(source))
    ensures r.Ok? ==>
      var e := r.value;
      && EntryWellFormed(e)
      && e.word.surface == surface && e.word.reading == reading && e.word.pronunciation == reading
      && e.pos.Value() == pos && e.source.Value() == source
      && e.category == category && e.frequency == frequency
      && e.baseForm == surface
      && e.posDetail1 == e.posDetail2 == e.posDetail3 == Wildcard
      && e.conjugationType == e.conjugationForm == Wildcard
      && e.cost == DefaultCost && e.leftContextId == e.rightContextId == DefaultContextId
      && e.addedDate == e.lastUpdated == now
  {
    var word := MakeWord(surface, reading);
    var p := ParsePartOfSpeech(pos);
    if p.None? then Err(UnknownPartOfSpeech(pos))
    else
      var src := ParseWordSource(source);
      if src.None? then Err(UnknownSource(source))
      else Ok(MakeEntry(word, now, pos := p.value, source := src.value, category := category, frequency := frequency))
  }

  /** With every argument left at its default, `add_word` files a manual noun with no reading. */
  lemma DefaultNewEntry(surface: string, now: Timestamp)
    ensures NewEntry(surface, now, DefaultPosName, None, DefaultSourceName, None, 0).Ok?
    ensures var e := NewEntry(surface, now, DefaultPosName, None, DefaultSourceName, None, 0).value;
      e.pos == Noun && e.source == Manual && e.word == Word(surface, None, None) && e.frequency == 0
  {
    var e := NewEntry(surface, now, DefaultPosName, None, DefaultSourceName, None, 0).value;
    assert ParsePartOfSpeech(DefaultPosName) == Some(Noun);
    assert ParseWordSource(DefaultSourceName) == Some(Manual);
  }

  /**
   * The entries of a run of `add_word` calls that stops at the first one
   * that raises: every attempt before the first failure.
   */
  function OkPrefix(attempts: seq<Result<Entry, Error>>): (es: seq<Entry>)
    ensures |es| <= |attempts|
    ensures forall i :: 0 <= i < |es| ==> attempts[i] == Ok(es[i])
    ensures |es| < |attempts| ==> attempts[|es|].Err?
  {
    if attempts == [] then []
    else if attempts[0].Err? then []
    else [attempts[0].value] + OkPrefix(attempts[1..])
  }

  /** The three properties of `OkPrefix` pin it down. */
  lemma {:induction false} OkPrefixUnique(attempts: seq<Result<Entry, Error>>, es: seq<Entry>)
    requires |es| <= |attempts|
    requires forall i :: 0 <= i < |es| ==> attempts[i] == Ok(es[i])
    requires |es| < |attempts| ==> attempts[|es|].Err?
    ensures es == OkPrefix(attempts)
  {
    var ok := OkPrefix(attempts);
    assert |ok| == |es|;
    forall i | 0 <= i < |es| ensures es[i] == ok[i] {
      assert attempts[i] == Ok(es[i]) == Ok(ok[i]);
    }
  }

  /** One more attempt: it joins the prefix only if every earlier one succeeded and it does too. */
  lemma OkPrefixAppend(attempts: seq<Result<Entry, Error>>, next: Result<Entry, Error>)
    ensures OkPrefix(attempts + [next]) ==
      if |OkPrefix(attempts)| == |attempts| && next.Ok? then OkPrefix(attempts) + [next.value]
      else OkPrefix(attempts)
  {
    var all := attempts + [next];
    var ok := OkPrefix(attempts);
    if |ok| == |attempts| && next.Ok? {
      OkPrefixUnique(all, ok + [next.value]);
    } else {
      assert |ok| < |all| && all[|ok|].Err?;
      OkPrefixUnique(all, ok);
    }
  }

  /** Attempts after a failure change nothing. */
  lemma OkPrefixAfterFailure(attempts: seq<Result<Entry, Error>>, more: seq<Result<Entry, Error>>)
    requires |OkPrefix(attempts)| < |attempts|
    ensures OkPrefix(attempts + more) == OkPrefix(attempts)
  {
    var ok := OkPrefix(attempts);
    var all := attempts + more;
    assert all[|ok|] == attempts[|ok|];
    forall i | 0 <= i < |ok| ensures all[i] == Ok(ok[i]) {
      assert all[i] == attempts[i];
    }
    OkPrefixUnique(all, ok);
  }

  /** `NeoDict`: the dictionary over its store. */
  class NeoDict {
    const storage: DictStorage

    ghost predicate Valid()
      reads this, storage
    {
      storage.Valid()
    }

    /** A dictionary over an empty store. */
    constructor ()
      ensures Valid() && fresh(storage) && storage.rows == map[] && storage.lastId == 0
    {
      storage := new DictStorage();
    }

    /**
     * `add_word`: build the entry and upsert it. A part of speech or source
     * that is no enum value raises before the store is touched.
     */
    method AddWord(surface: string, now: Timestamp, pos: string := DefaultPosName, reading: Option<string> := None,
                   source: string := DefaultSourceName, category: Option<string> := None, frequency: int := 0)
      returns (r: Result<int, Error>)
      requires Valid()
      modifies storage
      ensures Valid()
      ensures var attempt := NewEntry(surface, now, pos, reading, source, category, frequency);
        && (attempt.Err? ==> r == Err(attempt.error) && storage.Abs() == old(storage.Abs()))
        && (attempt.Ok? ==> r.Ok? && (storage.Abs(), r.value) == Upsert(old(storage.Abs()), attempt.value, now))
    {
      var attempt := NewEntry(surface, now, pos, reading, source, category, frequency);
      if attempt.Err? {
        return Err(attempt.error);
      }
      var id := storage.AddWord(attempt.value, now);
      r := Ok(id);
    }

    /** `search`: the store's search results in dict form, in the same order. */
    method Search(query: string, fuzzy: bool := false, limit: int := 100) returns (r: seq<EntryDict>)
      requires Valid()
      ensures |r| == LimitCount(limit, |MatchingSurfaces(storage.rows, query, fuzzy)|)
      ensures forall i :: 0 <= i < |r| ==>
        && r[i].surface.Some?
        && r[i].surface.value in MatchingSurfaces(storage.rows, query, fuzzy)
        && r[i] == ToDict(RowToEntry(storage.rows[r[i].surface.value]))
      ensures forall i, j :: 0 <= i < j < |r| ==> r[i].surface != r[j].surface
    {
      var entries := storage.SearchWords(query, fuzzy, limit);
      r := seq(|entries|, i requires 0 <= i < |entries| => ToDict(entries[i]));
    }

    /** `get_word`: the entry in dict form, or None when the store has no such surface. */
    method GetWord(surface: string) returns (r: Option<EntryDict>)
      requires Valid()
      ensures r.None? <==> surface !in storage.rows
      ensures r.Some? ==> r.value == ToDict(RowToEntry(storage.rows[surface])) && r.value.surface == Some(surface)
    {
      var entry := storage.GetWord(surface);
      if entry.Some? {
        r := Some(ToDict(entry.value));
      } else {
        r := None;
      }
    }

    /** `remove_word`: the store's delete and its row count. */
    method RemoveWord(surface: string) returns (count: nat)
      requires Valid()
      modifies storage
      ensures Valid()
      ensures (storage.Abs(), count) == Delete(old(storage.Abs()), surface)
      ensures count <= 1 && surface !in storage.rows
    {
      count := storage.DeleteWord(surface);
    }

    /** `get_stats`: the store's statistics. */
    method GetStats() returns (stats: Stats)
      requires Valid()
      ensures stats == StatsOf(storage.rows)
    {
      stats := storage.GetStats();
    }

    /** `import_words`: upsert every entry in order; gives how many entries there were. */
    method ImportWords(entries: seq<Entry>, now: Timestamp) returns (count: nat)
      requires Valid()
      modifies storage
      ensures Valid()
      ensures count == |entries|
      ensures storage.Abs() == UpsertAll(old(storage.Abs()), entries, now)
    {
      count := 0;
      while count < |entries|
        invariant count <= |entries|
        invariant Valid()
        invariant storage.Abs() == UpsertAll(old(storage.Abs()), entries[..count], now)
      {
        UpsertAllStep(old(storage.Abs()), entries[..count + 1], now);
        UpsertAllValid(old(storage.Abs()), entries[..count + 1], now);
        assert entries[..count + 1][..count] == entries[..count];
        var _ := storage.AddWord(entries[count], now);
        count := count + 1;
      }
      assert entries[..count] == entries;
    }
  }
}
