# neodict core, modelled in Dafny

neodict keeps a Japanese new-word dictionary. Crawlers read web pages. A
word extractor mines candidate words from each text. An updater sums the
candidates' frequencies and adds the frequent new ones to a SQLite-backed
store. This project models that core:

- **`Word`** holds the value types. It has the two enums (part of speech and
  source) and lookup by value, which fails on a value that is no member. It
  also has the word and entry records with their construction defaults, the
  MeCab CSV row, and the dict form with its round trip.
- **`Extractor`** is the word extractor. Its three regular expressions are
  modelled as one left-to-right scanner. At each position the scanner tries
  the pattern once, with the engine's greedy backtracking worked out per
  pattern. After a match it resumes where the match ends; otherwise it moves
  to the next position. The module also has the exclusion rule, `str.count`,
  and `count_frequency`. Each family's candidates are characterised
  independently of the scanner: maximal katakana runs, the same runs
  followed by a particle, and the alphanumeric shape.
- **`Storage`** models the `words` table as a map from surface to row, plus
  the auto-increment counter. It has the pure table operations (insert,
  update, upsert, delete, read-back, statistics) and the class `DictStorage`.
  That class's methods change the table in place. Its query methods are
  loops over the table standing in for the SQL engine's scan.
- **`Dictionary`** models the `NeoDict` facade. It turns plain strings into
  an entry and hands every call on to the store. `OkPrefix` describes a run
  of `add_word` calls that stops at the first one that raises.
- **`Crawler`** holds the record a crawler hands to the updater. It also
  models the news crawler's per-document emission loop.
- **`Updater`** models `DictUpdater`:
  - **`update`:** aggregate the records in first-seen order, keeping each
    surface's summed frequency and first record. Then count or add each
    surface that reaches the threshold.
  - **`update_from_source`:** add every record of one crawler as it comes.

A Python exception is an `Err` of `Result`, and `None` is `None` of
`Option`. Clock readings are a `now` parameter. Each top-level call reads
the clock once. The crawlers' outputs are parameters of the update
methods.

The model keeps these behaviours of the code:

- **News tags abort an update.** The news crawler tags its records
  "news_nhk" or "news_yahoo". Neither is a `WordSource` value. So the first
  qualifying new surface whose first record came from the news crawler makes
  `add_word` raise. That ends `update` with the error, and the additions
  made before it stay. `Updater.NewsTagAborts` and
  `Updater.FromSourceAborts` state this.
- **The upsert's update path is modelled as returning a row count.** When
  the surface exists, the failed insert falls back to `update_word`, whose
  result is the update's row count, not the row's id; the model returns `1`
  there. In the code that fallback opens a second connection while the first
  one still holds its transaction, which SQLite's locking may refuse; the
  model abstracts that away (see "## Left out").
- **`add_word` defaults to a noun.** `NeoDict.add_word` files its entry as
  a noun (名詞) unless told otherwise. A bare `WordEntry` is an unknown word
  (未知語).
- **Dates are not ordered.** An insert stores the entry's own two dates, so
  nothing makes the last-updated date at least the added date.
- **A single-source update has no threshold.** `update_from_source` adds
  every record, with no frequency filter. A record without a frequency
  counts as 1.

## Model

| member | source | states |
|---|---|---|
| Word.ParsePartOfSpeech | src/core/word.py:11-22 | Lookup by value gives the member with that value, or fails exactly when no member has it. |
| Word.ParseWordSource | src/core/word.py:25-32 | Lookup by value gives the source with that value, or fails exactly when no source has it. |
| Word.ParsePartOfSpeechValue | src/core/word.py:11-22 | Looking a part of speech up by its own value gives it back. |
| Word.ParseWordSourceValue | src/core/word.py:25-32 | Looking a source up by its own value gives it back. |
| Word.NewsCrawlerTagsAreNotSources | src/core/word.py:25-32 | "news_nhk", "news_yahoo" and "news_article" name no source. |
| Word.MakeWord | src/core/word.py:35-44 | The constructed word keeps surface and reading. A given pronunciation is kept; a missing one is the reading. A reading always brings a pronunciation. |
| Word.MakeWordIdempotent | src/core/word.py:42-44 | Constructing again from a constructed word's fields changes nothing. |
| Word.MakeEntry | src/core/word.py:47-73 | The entry keeps every given field: word, part of speech, the three details, conjugation type and form, frequency, source, category, both dates, cost and both context ids. A missing base form becomes the surface. Construction keeps a word well formed. |
| Word.DefaultEntry | src/core/word.py:51-69 | An entry from a word alone is an unknown word (未知語) with `*` details and conjugation, base form = surface, frequency 0, source other, no category, cost 6000 and context ids 1285. Both dates are the clock reading. |
| Word.IntToString | src/core/word.py:82-84 | `str(n)` is the decimal digits with a minus sign for a negative number, and holds no comma. |
| Word.DigitsRoundTrip | src/core/word.py:82-84 | Reading the decimal digits of a number back gives the number. |
| Word.SplitJoin | src/core/word.py:80-94 | Joining comma-free fields with commas and splitting again gives the fields back. |
| Word.ToMecabCsv | src/core/word.py:75-94 | The CSV row begins with the surface. |
| Word.MecabCsvColumns | src/core/word.py:75-94 | For comma-free text fields, the CSV row splits into exactly its 13 columns in MeCab's order. The reading column falls back to the surface; the pronunciation column falls back to the reading column. |
| Word.ToDict | src/core/word.py:96-114 | The dict form carries the surface; `Word.FromDictToDict` gives the rest of the round trip. |
| Word.FromDict | src/core/word.py:116-139 | Succeeds exactly when:<br>• the surface is present;<br>• the part of speech (default 未知語) and the source (default other) are enum values;<br>• the detail list (default three `*`) has at least three items.<br>A missing surface raises first. A successful entry is well formed, keeps the surface, and has the default cost and context ids. |
| Word.FromDictToDict | src/core/word.py:96-139 | `from_dict(to_dict(e))` gives back every field of a well-formed entry; cost and context ids return as their defaults. |
| Extractor.ShouldExclude | src/crawler/extractor.py:105-123 | Without a newline in the word: excluded exactly when the word is one katakana character, only prolonged sound marks, or only ASCII digits, or is longer than 20 characters. |
| Extractor.KatakanaMatchAt | src/crawler/extractor.py:17 | At a position, the katakana pattern matches the whole katakana run there, exactly when it has two or more characters. |
| Extractor.AlphanumMatchAt | src/crawler/extractor.py:20 | The match starts with an ASCII letter or digit and has three or more characters. It stays inside the run of letters, digits and katakana, ends at the run's last ASCII letter or digit, and fails only when no such end exists. |
| Extractor.ProperNounMatchAt | src/crawler/extractor.py:23 | Matches exactly when the katakana run at the position has two or more characters and a particle follows it. The word is the run; the scan resumes after the particle. |
| Extractor.Scan | src/crawler/extractor.py:44 | Every match of the left-to-right scan lies inside the text, after the scan's start. |
| Extractor.ExtractFamily | src/crawler/extractor.py:42-49 | The loop collects exactly the matched words that the exclusion rule keeps. |
| Extractor.ExtractKatakanaWords | src/crawler/extractor.py:32-49 | A word is extracted if and only if it is a maximal katakana run of two or more characters in the text and is not excluded. |
| Extractor.ExtractAlphanumWords | src/crawler/extractor.py:51-68 | Every extracted word stands in the text, is not excluded, and has the alphanumeric shape, ending at the last ASCII letter or digit of its run. |
| Extractor.ExtractProperNouns | src/crawler/extractor.py:70-87 | A word is extracted if and only if it is a maximal katakana run of two or more characters followed by a particle, and is not excluded. |
| Extractor.ExtractAll | src/crawler/extractor.py:89-103 | Each category holds its family's candidates, and every one of them stands in the text and is not excluded. |
| Extractor.KatakanaScanSound | src/crawler/extractor.py:17 | Every katakana match is a maximal katakana run of two or more characters. |
| Extractor.KatakanaScanComplete | src/crawler/extractor.py:17 | Every maximal katakana run of two or more characters is matched. |
| Extractor.KatakanaCandidates | src/crawler/extractor.py:44-47 | A katakana candidate is exactly a maximal run of two or more katakana characters that the exclusion rule keeps. |
| Extractor.ProperNounScanSound | src/crawler/extractor.py:23 | Every proper-noun match is a maximal katakana run of two or more characters with a particle right after it. |
| Extractor.ProperNounScanComplete | src/crawler/extractor.py:23 | Every maximal katakana run of two or more characters followed by a particle is matched. |
| Extractor.ProperNounCandidates | src/crawler/extractor.py:82-85 | A proper-noun candidate is exactly such a run followed by a particle, kept by the exclusion rule. The particle is not part of it. |
| Extractor.AlphanumScanSound | src/crawler/extractor.py:20 | Every alphanumeric match has the alphanumeric shape and stops at the last ASCII letter or digit of its run. |
| Extractor.AlphanumCandidates | src/crawler/extractor.py:63-66 | An alphanumeric candidate is not excluded, has the alphanumeric shape, and stands in the text. |
| Extractor.CandidateOccurs | src/crawler/extractor.py:45 | Every candidate of every family stands somewhere in the text. |
| Extractor.CandidatesOccur | src/crawler/extractor.py:99-103 | All candidates of all three families are kept by the exclusion rule and stand in the text. |
| Extractor.Count | src/crawler/extractor.py:139 | `text.count(word)`: the empty word counts once per position, one more than the text's length. A non-empty word's non-overlapping occurrences, laid end to end, fit in the text. |
| Extractor.CountProperties | src/crawler/extractor.py:139 | A non-empty word counts at least once exactly when it stands in the text. Its non-overlapping occurrences fit in the text. |
| Extractor.CountFrequency | src/crawler/extractor.py:125-143 | The map holds exactly the given words that occur, each with its positive occurrence count. |
| Extractor.CandidateCounted | src/crawler/extractor.py:138-141 | Every candidate counts at least once in its own text, so it gets an entry in the frequency map. |
| Storage.Insert | src/core/storage.py:76-106 | The insert adds the row under the surface with id = counter + 1 and returns that id. |
| Storage.UpdateRow | src/core/storage.py:111-155 | On a present surface, every stored field is overwritten, the id and added date are kept, and the last-updated date becomes now; it returns 1. On an absent surface it changes nothing and returns 0. Other rows stay. |
| Storage.Upsert | src/core/storage.py:70-109 | Afterwards the surface is present with the entry's content and other rows are unchanged. A new surface gets the next id, which is returned. A present one keeps its id and added date, and the call returns 1. |
| Storage.UpsertCount | src/core/storage.py:70-109 | The upsert adds one row for a new surface and none for a present one. |
| Storage.UpsertValid | src/core/storage.py:28-30 | The upsert keeps surfaces unique and ids distinct and issued. A new id exceeds every id in use. |
| Storage.InsertValid | src/core/storage.py:29 | An auto-increment insert keeps the ids distinct; the new id exceeds every id in use. |
| Storage.UpdateRowValid | src/core/storage.py:116-134 | The update keeps the table valid. |
| Storage.UpsertTwice | src/core/storage.py:107-109 | Upserting the same entry again keeps the id and the added date, takes the later update time, and returns 1. |
| Storage.UpsertAllKeys | src/core/dictionary.py:230-233 | A run of upserts leaves exactly the old surfaces plus the run's surfaces. |
| Storage.UpsertAllOthers | src/core/dictionary.py:230-233 | A run of upserts leaves each row whose surface is not in the run untouched. |
| Storage.UpsertAllSurfaces | src/core/dictionary.py:230-233 | Both facts above together. |
| Storage.UpsertAllValid | src/core/dictionary.py:230-233 | A run of upserts keeps the table valid. |
| Storage.UpsertAllLastWins | src/core/dictionary.py:230-233 | After a run of upserts, each surface's row holds the content of its last entry in the run. |
| Storage.UpsertAllKeeps | src/core/dictionary.py:230-233 | The last upsert of a run leaves other surfaces' rows as the earlier upserts made them. |
| Storage.Delete | src/core/storage.py:202-208 | Removes the surface's row and nothing else, keeps the counter and validity, and returns 1 if the row existed, else 0. |
| Storage.RowToEntry | src/core/storage.py:234-259 | The read-back rebuilds the word: a stored pronunciation is kept, and a missing one is taken from the reading. Each empty detail or conjugation column reads as `*`, and a non-empty one is kept. Part of speech, source, frequency, category, base form, cost, both context ids and both dates are kept. A well-formed entry with those columns filled reads back unchanged. |
| Storage.LimitCount | src/core/storage.py:178-184 | `LIMIT` lets through all rows when negative or large enough, else exactly `limit` rows. |
| Storage.GroupCounts | src/core/storage.py:221-225 | `GROUP BY` gives one positive count per value in use, equal to the number of rows with that value. |
| Storage.GroupCountsSum | src/core/storage.py:221-225 | Summed over distinct values, the group counts equal the number of rows with one of those values. |
| Storage.GroupCountsTotal | src/core/storage.py:221-225 | Summed over all values, the group counts equal the row count. |
| Storage.EnumsListed | src/core/word.py:11-32 | The source list and the part-of-speech list hold every member once. |
| Storage.StatsOf | src/core/storage.py:210-232 | Reports the row count and the distinct parts of speech, which equal the number of part-of-speech groups. Per-source and per-part-of-speech counts each sum to the row count. |
| Storage.DictStorage.constructor | src/core/storage.py:16-19 | A store over a new database file is empty: no rows and a zero counter. |
| Storage.DictStorage.AddWord | src/core/storage.py:70-109 | The new table and result are the upsert's. A new surface returns the new row's id, above every old id. A present one returns 1. |
| Storage.DictStorage.UpdateWord | src/core/storage.py:111-155 | The new table and row count are the update's: 1 if the surface was present, else 0. |
| Storage.DictStorage.GetWord | src/core/storage.py:157-168 | Gives the read-back entry exactly when the surface has a row. |
| Storage.DictStorage.SearchWords | src/core/storage.py:170-187 | Gives matching rows read back, each once, as many as the limit lets through. |
| Storage.DictStorage.GetAllWords | src/core/storage.py:189-200 | Gives distinct rows in non-increasing frequency. No unlisted row is more frequent than a listed one. Gives all rows when the limit is None, 0 or negative, else that many. |
| Storage.DictStorage.MostFrequent | src/core/storage.py:196 | Gives a surface of the set whose frequency is the highest. |
| Storage.DictStorage.DeleteWord | src/core/storage.py:202-208 | The new table and count are the delete's. |
| Storage.DictStorage.GetStats | src/core/storage.py:210-232 | Gives the table's statistics; both group families sum to the row count. |
| Dictionary.NewEntry | src/core/dictionary.py:51-59 | Succeeds exactly when part of speech and source are enum values. The part of speech raises first. The entry has the named fields, pronunciation = reading, and defaults elsewhere. |
| Dictionary.DefaultNewEntry | src/core/dictionary.py:28-36 | With default arguments, the entry is a manual noun (名詞) with no reading and frequency 0. |
| Dictionary.OkPrefix | src/updater/updater.py:144-151 | The entries of a run of calls that stops at the first raise are the successful attempts before the first failure. |
| Dictionary.OkPrefixUnique | src/updater/updater.py:144-151 | Those properties determine the entries completely. |
| Dictionary.OkPrefixAppend | src/updater/updater.py:144-151 | One more attempt joins only when every earlier one succeeded and it succeeds too. |
| Dictionary.OkPrefixAfterFailure | src/updater/updater.py:144-151 | Attempts after a failure change nothing. |
| Dictionary.NeoDict.constructor | src/core/dictionary.py:15-22 | A dictionary over a new database file has a fresh, empty store. |
| Dictionary.NeoDict.AddWord | src/core/dictionary.py:28-61 | A part of speech or source that is no enum value raises and leaves the store alone. Otherwise the entry is upserted and the upsert's result returned. |
| Dictionary.NeoDict.Search | src/core/dictionary.py:88-101 | Gives the store's matching rows in dict form, each once, capped by the limit. |
| Dictionary.NeoDict.GetWord | src/core/dictionary.py:103-114 | Gives the dict form of the stored entry, or None exactly when the surface is absent. |
| Dictionary.NeoDict.RemoveWord | src/core/dictionary.py:116-126 | Gives the store's delete and its count of at most 1; the surface is gone afterwards. |
| Dictionary.NeoDict.GetStats | src/core/dictionary.py:128-135 | Gives the store's statistics. |
| Dictionary.NeoDict.ImportWords | src/core/dictionary.py:220-235 | Upserts every entry in order and returns how many there were. |
| Crawler.EmitFamily | src/crawler/news.py:104-112 | Emits one record per word of the family, each once, carrying the tag, the family's category and the word's count (1 if uncounted). |
| Crawler.EmitWords | src/crawler/news.py:106-112 | The emission loop gives one such record per word, looking the count up with default 1. |
| Crawler.FamilyBlockAppend | src/crawler/news.py:107-112 | Emitting a word not yet emitted extends a family's records by exactly that word. |
| Crawler.EmitDocument | src/crawler/news.py:101-112 | A document's records are the katakana block, then the alphanumeric block, then the proper-noun block. Each block has one record per candidate. |
| Crawler.DocumentEmissionCounts | src/crawler/news.py:104-111 | Every record of a document carries the crawler's tag and the word's true, positive occurrence count; the fallback 1 never applies. |
| Updater.TotalFrequencyAppend | src/updater/updater.py:60-68 | A surface's summed frequency over two crawlers' records is the sum over each. |
| Updater.TotalFrequencyAbsent | src/updater/updater.py:74-82 | A surface that no record carries has summed frequency 0. |
| Updater.FirstSeenOrder | src/updater/updater.py:78-82 | The order is no longer than the records and lists only emitted surfaces. |
| Updater.FirstSeenOrderFacts | src/updater/updater.py:78-82 | The order lists every emitted surface exactly once. |
| Updater.FirstIndex | src/updater/updater.py:78-82 | Gives the position of a surface's first record. |
| Updater.AggregatedFrequency | src/updater/updater.py:71-82 | The frequency map has exactly the emitted surfaces as keys. |
| Updater.FirstEmissions | src/updater/updater.py:78-82 | The data map has exactly the emitted surfaces as keys. |
| Updater.FirstEmissionsAreFirst | src/updater/updater.py:78-82 | The record kept for a surface is that surface's first record. |
| Updater.FrequencyStep | src/updater/updater.py:76-81 | One more record adds its frequency (default 1) to its surface's sum, or starts the sum. |
| Updater.FoldedFrequency | src/updater/updater.py:74-81 | The loop's frequency map is the per-surface sum of contributions. |
| Updater.FoldedEmissions | src/updater/updater.py:74-82 | The loop's data map holds each surface's first record. |
| Updater.FoldedOrder | src/updater/updater.py:74-82 | The loop's key order is the first-seen order. |
| Updater.Aggregate | src/updater/updater.py:70-82 | The aggregation gives the first-seen order, the summed frequencies and the first records. |
| Updater.Planned | src/updater/updater.py:88-108 | The surfaces to add reach the threshold and are absent from the dictionary. |
| Updater.PlannedMembers | src/updater/updater.py:88-108 | A surface is planned if and only if it is aggregated, reaches the threshold, and is absent from the dictionary. |
| Updater.PlannedDistinct | src/updater/updater.py:88-108 | No surface is added twice. |
| Updater.ExistingCount | src/updater/updater.py:91-99 | The updated count, one per qualifying word already in the dictionary, is at most the number of unique words. |
| Updater.CountsBounded | src/updater/updater.py:113-117 | Added plus updated is at most the number of unique words. |
| Updater.PresentBefore | src/updater/updater.py:94-97 | During the loop, the surface being checked is in the store exactly when it was before the update. |
| Updater.ProgressAdd | src/updater/updater.py:100-108 | Adding a qualifying absent surface makes the plan's next attempt. On success the loop moves on; on failure the store is the earlier additions'. |
| Updater.UpdatedSurfaces | src/updater/updater.py:84-108 | After a complete update, a surface is present exactly when it was before or its summed frequency reaches the threshold. |
| Updater.UpdateKeepsExisting | src/updater/updater.py:97-99 | An update, complete or not, leaves every existing row unchanged; existing words are only counted. |
| Updater.UpdateAddedEntry | src/updater/updater.py:100-108 | An added surface's row holds its summed frequency and its first record's category and source, with source defaulting to other. |
| Updater.UnknownSourceAborts | src/updater/updater.py:102-107 | A qualifying new surface whose first record names no source makes `add_word` raise, so the update does not complete. |
| Updater.NewsTagAborts | src/updater/updater.py:102-107 | In particular, a qualifying new surface first emitted by the news crawler ("news_nhk", "news_yahoo") stops the update. |
| Updater.FromSourceLastWins | src/updater/updater.py:143-151 | After a complete single-source update, each surface's row holds its last record's content. |
| Updater.FromSourceAborts | src/updater/updater.py:144-150 | A record naming no source raises and stops the single-source update before it. |
| Updater.DictUpdater.constructor | src/updater/updater.py:17-33 | Uses the given dictionary, or a new one over a new (empty) database file. An empty source list means wikipedia and news. The threshold is as given, 2 by default. |
| Updater.DictUpdater.Update | src/updater/updater.py:38-123 | The store is the old one plus the planned additions up to the first one that raises. It fails exactly when one raises, with that error. Otherwise the stats are: records collected, unique surfaces, surfaces added, and qualifying surfaces already present. |
| Updater.DictUpdater.AddQualifying | src/updater/updater.py:84-108 | The adding loop's store and counts are the plan's additions up to the first failure, and the qualifying present surfaces. |
| Updater.DictUpdater.AddSurface | src/updater/updater.py:88-108 | One turn of the loop skips, counts or adds the surface. A failing `add_word` leaves the store as the plan's earlier additions made it. |
| Updater.DictUpdater.UpdateFromSource | src/updater/updater.py:125-153 | An unknown source adds nothing. Otherwise the crawler's records are upserted in order, with the source name standing in for a missing source and 1 for a missing frequency. It stops at the first raise; on success it returns the number of records. |

## Left out

- Persistence: SQLite itself, the database file, connections and the `versions` table are not modelled. The table is a map plus the auto-increment counter.
- Storage.Upsert / Storage.DictStorage.AddWord: the fallback `update_word` runs on a second connection opened while the first one's failed insert still holds its transaction; that nesting and SQLite's locking (which may make the update wait and raise "database is locked") are not modelled, and the update path is taken to succeed with row count 1.
- Fuzzy search: `LIKE` is a plain substring test here. SQLite's case-insensitive ASCII matching and the `%`/`_` wildcards inside the query are not modelled.
- Query order: the SQL engine's row order for search and for equal frequencies is not modelled. The model picks some row.
- `pos_distribution` order: its descending order is not modelled; it is a map.
- Timestamps: dates are opaque values from a `now` parameter, read once per top-level call. Parsing, ISO formatting, duration and the stats' timestamp are left out.
- Crawlers: fetching and parsing Wikipedia and news pages (HTML, the network, the crawl parameters) are left out. Their output is a parameter. Only the news crawler's per-document emission loop is modelled.
- Updater parameters: `full_update` is ignored, as in the code. `update_from_source`'s extra arguments go only to the crawlers, which are not modelled.
- Other parts: `suggest_reading` (the external tagger), the MeCab, JSON, Sudachi and Janome exports (file I/O), the scheduler and the command line are left out.
- Stubs: `cleanup` and `get_update_history` always return 0 and an empty list, so they are left out.
- Python types: the model assumes the documented argument types, so wrong-typed values (a `None` surface, a non-integer frequency) are left out. In `WordEntry.from_dict`, an explicit `None` value is read like a missing key, so the default is used; the code instead raises for `pos`, `source`, `pos_detail`, `conjugation`, `added_date` or `last_updated` set to `None`, and keeps `None` as the frequency for `frequency` set to `None`, and as the conjugation type or form for a `conjugation` dict whose `type` or `form` is `None`. Python's `$` before a final newline is modelled in `ShouldExclude`.
- Storage.RowToEntry: it reads a row written by this model, so it does not cover a NULL `added_date` or `last_updated` column being replaced by the clock.
