/**
 * The lexicon's value types: parts of speech, collection sources, the
 * word (surface, reading, pronunciation) and the dictionary entry, with the
 * defaults applied at construction, the MeCab CSV row and the dict form.
 */
module Word {
  import opened Wrappers

  /** A point in time; only compared and copied, never inspected. */
  type Timestamp = nat

  const DefaultCost: int := 6000
  const DefaultContextId: int := 1285
  /** The wildcard that stands in for an unset detail or conjugation field. */
  const Wildcard: string := "*"

  /** Why an operation raised. */
  datatype Error =
    | MissingSurface                       // `data["surface"]` on a dict without that key
    | UnknownPartOfSpeech(pos: string)     // `PartOfSpeech(value)` on a value that is no member
    | UnknownSource(source: string)        // `WordSource(value)` on a value that is no member
    | ShortPosDetail(length: nat)          // indexing a `pos_detail` list shorter than 3

  /** The closed set of parts of speech; each member's value is its Japanese name. */
  datatype PartOfSpeech =
    | Noun | Verb | Adjective | Adverb | Particle
    | Auxiliary | Conjunction | Interjection | Symbol | Unknown
  {
    function Value(): string {
      match this
      case Noun => "名詞"
      case Verb => "動詞"
      case Adjective => "形容詞"
      case Adverb => "副詞"
      case Particle => "助詞"
      case Auxiliary => "助動詞"
      case Conjunction => "接続詞"
      case Interjection => "感動詞"
      case Symbol => "記号"
      case Unknown => "未知語"
    }
  }

  /** The closed set of collection sources. */
  datatype WordSource = Wikipedia | News | Twitter | Manual | Hatena | Other
  {
    function Value(): string {
      match this
      case Wikipedia => "wikipedia"
      case News => "news"
      case Twitter => "twitter"
      case Manual => "manual"
      case Hatena => "hatena"
      case Other => "other"
    }
  }

  /** Enum lookup by value, `PartOfSpeech(s)`: the member whose value is `s`, if any. */
  function ParsePartOfSpeech(s: string): (r: Option<PartOfSpeech>)
    ensures r.Some? ==> r.value.Value() == s
    ensures r.None? ==> forall p: PartOfSpeech :: p.Value() != s
  {
    if s == "名詞" then Some(Noun)
    else if s == "動詞" then Some(Verb)
    else if s == "形容詞" then Some(Adjective)
    else if s == "副詞" then Some(Adverb)
    else if s == "助詞" then Some(Particle)
    else if s == "助動詞" then Some(Auxiliary)
    else if s == "接続詞" then Some(Conjunction)
    else if s == "感動詞" then Some(Interjection)
    else if s == "記号" then Some(Symbol)
    else if s == "未知語" then Some(Unknown)
    else None
  }

  /** Enum lookup by value, `WordSource(s)`: the member whose value is `s`, if any. */
  function ParseWordSource(s: string): (r: Option<WordSource>)
    ensures r.Some? ==> r.value.Value() == s
    ensures r.None? ==> forall src: WordSource :: src.Value() != s
  {
    if s == "wikipedia" then Some(Wikipedia)
    else if s == "news" then Some(News)
    else if s == "twitter" then Some(Twitter)
    else if s == "manual" then Some(Manual)
    else if s == "hatena" then Some(Hatena)
    else if s == "other" then Some(Other)
    else None
  }

  /** Looking a member up by its own value gives that member back. */
  lemma ParsePartOfSpeechValue(p: PartOfSpeech)
    ensures ParsePartOfSpeech(p.Value()) == Some(p)
  {
  }

  /** Looking a member up by its own value gives that member back. */
  lemma ParseWordSourceValue(src: WordSource)
    ensures ParseWordSource(src.Value()) == Some(src)
  {
  }

  /** The tags the news crawler puts on its emissions are not sources. */
  lemma NewsCrawlerTagsAreNotSources()
    ensures ParseWordSource("news_nhk").None?
    ensures ParseWordSource("news_yahoo").None?
    ensures ParseWordSource("news_article").None?
  {
  }

  // ---------------------------------------------------------------------------
  // Word
  // ---------------------------------------------------------------------------

  datatype Word = Word(surface: string, reading: Option<string>, pronunciation: Option<string>)

  /** A word as construction leaves it: a reading always brings a pronunciation. */
  predicate WordWellFormed(w: Word) {
    w.reading.Some? ==> w.pronunciation.Some?
  }

  /**
   * `Word(surface, reading, pronunciation)` with its construction hook: a
   * missing pronunciation is taken from the reading when there is one.
   */
  function MakeWord(surface: string, reading: Option<string> := None, pronunciation: Option<string> := None): (w: Word)
    ensures w.surface == surface && w.reading == reading
    ensures WordWellFormed(w)
    ensures pronunciation.Some? ==> w.pronunciation == pronunciation
    ensures reading.None? ==> w.pronunciation == pronunciation
    ensures pronunciation.None? ==> w.pronunciation == reading
  {
    if pronunciation.None? && reading.Some? then Word(surface, reading, reading)
    else Word(surface, reading, pronunciation)
  }

  /** Constructing again from a constructed word's own fields changes nothing. */
  lemma MakeWordIdempotent(w: Word)
    requires WordWellFormed(w)
    ensures MakeWord(w.surface, w.reading, w.pronunciation) == w
  {
  }

  // ---------------------------------------------------------------------------
  // Entry
  // ---------------------------------------------------------------------------

  datatype Entry = Entry(
    word: Word,
    pos: PartOfSpeech,
    posDetail1: string,
    posDetail2: string,
    posDetail3: string,
    conjugationType: string,
    conjugationForm: string,
    baseForm: string,
    frequency: int,
    source: WordSource,
    category: Option<string>,
    addedDate: Timestamp,
    lastUpdated: Timestamp,
    cost: int,
    leftContextId: int,
    rightContextId: int)
  {
    function Surface(): string { word.surface }
  }

  /** An entry as construction leaves it. */
  predicate EntryWellFormed(e: Entry) {
    WordWellFormed(e.word)
  }

  /**
   * `WordEntry(word, ...)` with the dataclass defaults and its construction
   * hook: a missing base form is taken from the surface. Both timestamps are
   * the caller's clock reading unless given.
   */
  function MakeEntry(
    word: Word,
    now: Timestamp,
    pos: PartOfSpeech := Unknown,
    posDetail1: string := Wildcard,
    posDetail2: string := Wildcard,
    posDetail3: string := Wildcard,
    conjugationType: string := Wildcard,
    conjugationForm: string := Wildcard,
    baseForm: Option<string> := None,
    frequency: int := 0,
    source: WordSource := Other,
    category: Option<string> := None,
    addedDate: Timestamp := now,
    lastUpdated: Timestamp := now,
    cost: int := DefaultCost,
    leftContextId: int := DefaultContextId,
    rightContextId: int := DefaultContextId): (e: Entry)
    ensures e.word == word && e.pos == pos && e.frequency == frequency
    ensures e.source == source && e.category == category
    ensures e.posDetail1 == posDetail1 && e.posDetail2 == posDetail2 && e.posDetail3 == posDetail3
    ensures e.conjugationType == conjugationType && e.conjugationForm == conjugationForm
    ensures e.addedDate == addedDate && e.lastUpdated == lastUpdated
    ensures e.cost == cost && e.leftContextId == leftContextId && e.rightContextId == rightContextId
    ensures baseForm.Some? ==> e.baseForm == baseForm.value
    ensures baseForm.None? ==> e.baseForm == word.surface
    ensures WordWellFormed(word) ==> EntryWellFormed(e)
  {
    Entry(word, pos, posDetail1, posDetail2, posDetail3, conjugationType, conjugationForm,
          baseForm.GetOr(word.surface), frequency, source, category, addedDate, lastUpdated,
          cost, leftContextId, rightContextId)
  }

  /** The defaults of an entry built from a word alone. */
  lemma DefaultEntry(w: Word, now: Timestamp)
    ensures var e := MakeEntry(w, now);
      && e.pos == Unknown && e.pos.Value() == "未知語"
      && e.posDetail1 == e.posDetail2 == e.posDetail3 == "*"
      && e.conjugationType == e.conjugationForm == "*"
      && e.baseForm == w.surface
      && e.frequency == 0 && e.source == Other && e.category.None?
      && e.cost == 6000 && e.leftContextId == 1285 && e.rightContextId == 1285
      && e.addedDate == now && e.lastUpdated == now
  {
  }

  // ---------------------------------------------------------------------------
  // MeCab CSV row
  // ---------------------------------------------------------------------------

  /** Python's `x or y` on an optional string: `y` when `x` is None or empty. */
  function OrElse(x: Option<string>, y: string): (r: string)
    ensures x.Some? && x.value != [] ==> r == x.value
    ensures x.None? || x.value == [] ==> r == y
  {
    if x.Some? && x.value != [] then x.value else y
  }

  /** The decimal digits of a natural number, most significant first. */
  function Digits(n: nat): (r: string)
    ensures |r| >= 1
    ensures forall i :: 0 <= i < |r| ==> '0' <= r[i] <= '9'
    decreases n
  {
    if n < 10 then [(n + '0' as int) as char]
    else Digits(n / 10) + [(n % 10 + '0' as int) as char]
  }

  /** `str(n)` for an integer: an optional minus sign, then the digits. */
  function IntToString(n: int): (r: string)
    ensures ',' !in r
    ensures n >= 0 ==> r == Digits(n)
    ensures n < 0 ==> r == "-" + Digits(-n)
  {
    if n < 0 then "-" + Digits(-n) else Digits(n)
  }

  /** The value of a string of decimal digits. */
  function DigitsValue(s: string): nat
    requires forall i :: 0 <= i < |s| ==> '0' <= s[i] <= '9'
  {
    if s == [] then 0 else DigitsValue(s[..|s| - 1]) * 10 + (s[|s| - 1] as int - '0' as int)
  }

  /** Reading the decimal digits back gives the number. */
  lemma {:induction false} DigitsRoundTrip(n: nat)
    ensures DigitsValue(Digits(n)) == n
    decreases n
  {
    if n >= 10 {
      var d := Digits(n / 10);
      DigitsRoundTrip(n / 10);
      assert Digits(n) == d + [(n % 10 + '0' as int) as char];
      assert (d + [(n % 10 + '0' as int) as char])[..|d|] == d;
    }
  }

  /** `",".join(fields)`. */
  function JoinComma(fields: seq<string>): (r: string)
    ensures fields == [] ==> r == []
    ensures fields != [] ==> fields[0] <= r
    decreases |fields|
  {
    if fields == [] then []
    else if |fields| == 1 then fields[0]
    else fields[0] + "," + JoinComma(fields[1..])
  }

  /** `s.split(",")`: the pieces between commas, always at least one. */
  function SplitComma(s: string): (r: seq<string>)
    ensures |r| >= 1
    ensures forall i :: 0 <= i < |r| ==> ',' !in r[i]
    decreases |s|
  {
    if s == [] then [[]]
    else
      var rest := SplitComma(s[1..]);
      if s[0] == ',' then [[]] + rest
      else [[s[0]] + rest[0]] + rest[1..]
  }

  /** Splitting text without a comma gives the text itself. */
  lemma {:induction false} SplitNoComma(s: string)
    requires ',' !in s
    ensures SplitComma(s) == [s]
    decreases |s|
  {
    if s != [] {
      SplitNoComma(s[1..]);
      assert [s[0]] + s[1..] == s;
    }
  }

  /** Splitting `a + "," + b` where `a` has no comma gives `a` then the pieces of `b`. */
  lemma {:induction false} SplitAfterField(a: string, b: string)
    requires ',' !in a
    ensures SplitComma(a + "," + b) == [a] + SplitComma(b)
    decreases |a|
  {
    if a == [] {
      assert a + "," + b == [','] + b;
      assert ([','] + b)[1..] == b;
    } else {
      var s := a + "," + b;
      assert s[0] == a[0] && s[1..] == a[1..] + "," + b;
      SplitAfterField(a[1..], b);
      assert [a[0]] + a[1..] == a;
    }
  }

  /** Joining comma-free fields and splitting again gives the fields back. */
  lemma {:induction false} SplitJoin(fields: seq<string>)
    requires |fields| >= 1
    requires forall i :: 0 <= i < |fields| ==> ',' !in fields[i]
    ensures SplitComma(JoinComma(fields)) == fields
    decreases |fields|
  {
    if |fields| == 1 {
      SplitNoComma(fields[0]);
    } else {
      SplitJoin(fields[1..]);
      SplitAfterField(fields[0], JoinComma(fields[1..]));
      assert [fields[0]] + fields[1..] == fields;
    }
  }

  /** The reading written to the CSV row: the reading, or the surface when it is None or empty. */
  function CsvReading(e: Entry): string {
    OrElse(e.word.reading, e.word.surface)
  }

  /** The pronunciation written to the CSV row: the pronunciation, or the CSV reading. */
  function CsvPronunciation(e: Entry): string {
    OrElse(e.word.pronunciation, CsvReading(e))
  }

  /** The thirteen columns of a MeCab dictionary row, in MeCab's order. */
  function MecabFields(e: Entry): (r: seq<string>)
    ensures |r| == 13
  {
    [e.word.surface, IntToString(e.leftContextId), IntToString(e.rightContextId),
     IntToString(e.cost), e.pos.Value(), e.posDetail1, e.posDetail2, e.posDetail3,
     e.conjugationType, e.conjugationForm, e.baseForm, CsvReading(e), CsvPronunciation(e)]
  }

  /** `to_mecab_csv`: the row's columns joined by commas. */
  function ToMecabCsv(e: Entry): (r: string)
    ensures e.word.surface <= r
  {
    JoinComma(MecabFields(e))
  }

  /** No column text holds a comma (the numeric columns never do). */
  predicate CommaFree(e: Entry) {
    && ',' !in e.word.surface
    && ',' !in e.posDetail1 && ',' !in e.posDetail2 && ',' !in e.posDetail3
    && ',' !in e.conjugationType && ',' !in e.conjugationForm && ',' !in e.baseForm
    && (e.word.reading.Some? ==> ',' !in e.word.reading.value)
    && (e.word.pronunciation.Some? ==> ',' !in e.word.pronunciation.value)
  }

  /**
   * When no text field holds a comma, the CSV row splits into exactly the
   * thirteen columns: surface, left and right context id, cost, part of
   * speech, the three details, conjugation type and form, base form, and the
   * reading and pronunciation after their fallbacks.
   */
  lemma MecabCsvColumns(e: Entry)
    requires CommaFree(e)
    ensures var cols := SplitComma(ToMecabCsv(e));
      && |cols| == 13
      && cols[0] == e.word.surface
      && cols[1] == IntToString(e.leftContextId)
      && cols[2] == IntToString(e.rightContextId)
      && cols[3] == IntToString(e.cost)
      && cols[4] == e.pos.Value()
      && cols[5] == e.posDetail1 && cols[6] == e.posDetail2 && cols[7] == e.posDetail3
      && cols[8] == e.conjugationType && cols[9] == e.conjugationForm
      && cols[10] == e.baseForm
      && cols[11] == (if e.word.reading.Some? && e.word.reading.value != [] then e.word.reading.value else e.word.surface)
      && cols[12] == (if e.word.pronunciation.Some? && e.word.pronunciation.value != [] then e.word.pronunciation.value else cols[11])
  {
    var fields := MecabFields(e);
    assert ',' !in e.pos.Value() by { PosValueCommaFree(e.pos); }
    assert forall i :: 0 <= i < |fields| ==> ',' !in fields[i];
    SplitJoin(fields);
  }

  lemma PosValueCommaFree(p: PartOfSpeech)
    ensures ',' !in p.Value()
  {
  }

  // ---------------------------------------------------------------------------
  // The dict form
  // ---------------------------------------------------------------------------

  /** The nested `conjugation` dict; an absent key is None. */
  datatype Conjugation = Conjugation(conjugationType: Option<string>, conjugationForm: Option<string>)

  /**
   * The dict form of an entry. A key that is absent is None; for the keys
   * `from_dict` reads with `.get(key)` an absent key and a None value are
   * the same thing.
   */
  datatype EntryDict = EntryDict(
    surface: Option<string>,
    reading: Option<string>,
    pronunciation: Option<string>,
    pos: Option<string>,
    posDetail: Option<seq<string>>,
    conjugation: Option<Conjugation>,
    baseForm: Option<string>,
    frequency: Option<int>,
    source: Option<string>,
    category: Option<string>,
    addedDate: Option<Timestamp>,
    lastUpdated: Option<Timestamp>)

  /** `to_dict`: every key present; cost and context ids are not carried. */
  function ToDict(e: Entry): (d: EntryDict)
    ensures d.surface == Some(e.word.surface)
  {
    EntryDict(
      Some(e.word.surface), e.word.reading, e.word.pronunciation,
      Some(e.pos.Value()), Some([e.posDetail1, e.posDetail2, e.posDetail3]),
      Some(Conjugation(Some(e.conjugationType), Some(e.conjugationForm))),
      Some(e.baseForm), Some(e.frequency), Some(e.source.Value()), e.category,
      Some(e.addedDate), Some(e.lastUpdated))
  }

  /**
   * `from_dict`: absent keys take the dataclass defaults (an absent date is
   * the caller's clock reading `now`). It raises on a missing surface, on a
   * part of speech or source that is no enum value, and on a detail list
   * shorter than three, in that order.
   */
  function FromDict(d: EntryDict, now: Timestamp): (r: Result<Entry, Error>)
    ensures r.Ok? <==>
      && d.surface.Some?
      && ParsePartOfSpeech(d.pos.GetOr("未知語")).Some?
      && |d.posDetail.GetOr(["*", "*", "*"])| >= 3
      && ParseWordSource(d.source.GetOr("other")).Some?
    ensures d.surface.None? ==> r == Err(MissingSurface)
    ensures r.Ok? ==> EntryWellFormed(r.value) && r.value.word.surface == d.surface.value
    ensures r.Ok? ==>
              && r.value.cost == DefaultCost
              && r.value.leftContextId == DefaultContextId
              && r.value.rightContextId == DefaultContextId
  {
    if d.surface.None? then Err(MissingSurface)
    else
      var word := MakeWord(d.surface.value, d.reading, d.pronunciation);
      var posName := d.pos.GetOr("未知語");
      var pos := ParsePartOfSpeech(posName);
      if pos.None? then Err(UnknownPartOfSpeech(posName))
      else
        var details := d.posDetail.GetOr(["*", "*", "*"]);
        if |details| < 3 then Err(ShortPosDetail(|details|))
        else
          var conj := d.conjugation.GetOr(Conjugation(None, None));
          var sourceName := d.source.GetOr("other");
          var source := ParseWordSource(sourceName);
          if source.None? then Err(UnknownSource(sourceName))
          else
            Ok(MakeEntry(word, now,
                         pos := pos.value,
                         posDetail1 := details[0], posDetail2 := details[1], posDetail3 := details[2],
                         conjugationType := conj.conjugationType.GetOr("*"),
                         conjugationForm := conj.conjugationForm.GetOr("*"),
                         baseForm := d.baseForm,
                         frequency := d.frequency.GetOr(0),
                         source := source.value,
                         category := d.category,
                         addedDate := d.addedDate.GetOr(now),
                         lastUpdated := d.lastUpdated.GetOr(now)))
  }

  /**
   * The dict form round-trips every field it carries (surface, reading,
   * pronunciation, part of speech, details, conjugation, base form,
   * frequency, source, category and both dates); cost and the context ids
   * come back as their defaults.
   */
  lemma FromDictToDict(e: Entry, now: Timestamp)
    requires EntryWellFormed(e)
    ensures FromDict(ToDict(e), now)
      == Ok(e.(cost := DefaultCost, leftContextId := DefaultContextId, rightContextId := DefaultContextId))
  {
    ParsePartOfSpeechValue(e.pos);
    ParseWordSourceValue(e.source);
  }
}
