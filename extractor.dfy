/**
 * Candidate mining: three lexical patterns scanned left to right over a
 * text, a shared exclusion rule, and occurrence counting.
 *
 * A pattern scan is modelled as the regular-expression engine runs it: at
 * each position the pattern is tried once (with the engine's greedy
 * backtracking worked out per pattern); on a match the scan resumes where
 * the match ends, otherwise at the next position.
 */
module Extractor {
  import opened Wrappers

  // ---------------------------------------------------------------------------
  // Character classes
  // ---------------------------------------------------------------------------

  /** `[ァ-ヴー]`: U+30A1 to U+30F4, and the prolonged sound mark U+30FC. */
  predicate IsKatakana(c: char) {
    ('ァ' <= c <= 'ヴ') || c == ProlongedSoundMark
  }

  const ProlongedSoundMark: char := 'ー'

  /** `[A-Za-z0-9]`: ASCII letters and digits only. */
  predicate IsAsciiAlnum(c: char) {
    ('A' <= c <= 'Z') || ('a' <= c <= 'z') || ('0' <= c <= '9')
  }

  predicate IsAsciiDigit(c: char) {
    '0' <= c <= '9'
  }

  /** `[A-Za-z0-9ァ-ヴー]`. */
  predicate IsAlnumOrKatakana(c: char) {
    IsAsciiAlnum(c) || IsKatakana(c)
  }

  /** `が|は|を|に|で|と|や|の`: the particles that mark a proper noun before them. */
  predicate IsParticle(c: char) {
    c == 'が' || c == 'は' || c == 'を' || c == 'に' || c == 'で' || c == 'と' || c == 'や' || c == 'の'
  }

  datatype CharClass = KatakanaClass | AlnumOrKatakanaClass

  predicate InClass(c: char, cls: CharClass) {
    match cls
    case KatakanaClass => IsKatakana(c)
    case AlnumOrKatakanaClass => IsAlnumOrKatakana(c)
  }

  /** The end of the longest run of `cls` characters starting at `p`. */
  function RunEnd(t: string, p: nat, cls: CharClass): (e: nat)
    requires p <= |t|
    ensures p <= e <= |t|
    ensures forall k :: p <= k < e ==> InClass(t[k], cls)
    ensures e == |t| || !InClass(t[e], cls)
    decreases |t| - p
  {
    if p == |t| || !InClass(t[p], cls) then p else RunEnd(t, p + 1, cls)
  }

  /** A run end is determined by its two defining properties. */
  lemma RunEndUnique(t: string, p: nat, e: nat, cls: CharClass)
    requires p <= e <= |t|
    requires forall k :: p <= k < e ==> InClass(t[k], cls)
    requires e == |t| || !InClass(t[e], cls)
    ensures RunEnd(t, p, cls) == e
  {
    var r := RunEnd(t, p, cls);
    assert r < |t| ==> !InClass(t[r], cls);
    assert e < |t| ==> !InClass(t[e], cls);
  }

  /** The word `w` stands in `t` at position `i`. */
  predicate OccursAt(t: string, w: string, i: nat) {
    i + |w| <= |t| && t[i..i + |w|] == w
  }

  // ---------------------------------------------------------------------------
  // Exclusion
  // ---------------------------------------------------------------------------

  predicate SingleKatakana(s: string) {
    |s| == 1 && IsKatakana(s[0])
  }

  predicate AllProlonged(s: string) {
    |s| >= 1 && forall i :: 0 <= i < |s| ==> s[i] == ProlongedSoundMark
  }

  predicate AllDigits(s: string) {
    |s| >= 1 && forall i :: 0 <= i < |s| ==> IsAsciiDigit(s[i])
  }

  /** One of the three exclusion patterns' bodies covers all of `s`. */
  predicate ExclusionBody(s: string) {
    SingleKatakana(s) || AllProlonged(s) || AllDigits(s)
  }

  /**
   * `re.match(r'^X$', w)` for an exclusion body X: `$` matches at the end of
   * the text or just before a newline that ends it.
   */
  predicate AnchoredExclusion(w: string) {
    ExclusionBody(w) || (|w| >= 1 && w[|w| - 1] == '\n' && ExclusionBody(w[..|w| - 1]))
  }

  const MaxWordLength: nat := 20

  /**
   * `_should_exclude`: the word is one katakana character, a run of
   * prolonged sound marks, or all ASCII digits (each possibly followed by a
   * final newline), or it is longer than twenty characters.
   */
  predicate ShouldExclude(w: string)
    ensures '\n' !in w ==>
      (ShouldExclude(w) <==> SingleKatakana(w) || AllProlonged(w) || AllDigits(w) || |w| > MaxWordLength)
  {
    AnchoredExclusion(w) || |w| > MaxWordLength
  }

  // ---------------------------------------------------------------------------
  // The three patterns, tried at one position
  // ---------------------------------------------------------------------------

  datatype Family = Katakana | Alphanum | ProperNoun

  /** The key `extract_all` files a family's words under. */
  function CategoryName(f: Family): string {
    match f
    case Katakana => "katakana"
    case Alphanum => "alphanum"
    case ProperNoun => "proper_nouns"
  }

  /** A match: the captured word is `[start, end)`; scanning resumes at `next`. */
  datatype Match = Match(start: nat, end: nat, next: nat)

  /** `[ァ-ヴー]{2,}` tried at `p`: the whole katakana run from `p`, if it has two characters. */
  function KatakanaMatchAt(t: string, p: nat): (r: Option<Match>)
    requires p < |t|
    ensures r.Some? ==> r.value.start == p && r.value.next == r.value.end == RunEnd(t, p, KatakanaClass)
    ensures r.Some? <==> RunEnd(t, p, KatakanaClass) >= p + 2
  {
    var e := RunEnd(t, p, KatakanaClass);
    if e >= p + 2 then Some(Match(p, e, e)) else None
  }

  /** The last position `q` with `lo <= q < hi` holding an ASCII letter or digit. */
  function LastAsciiAlnum(t: string, lo: nat, hi: nat): (r: Option<nat>)
    requires hi <= |t|
    ensures r.Some? ==> lo <= r.value < hi && IsAsciiAlnum(t[r.value])
    ensures r.Some? ==> forall k :: r.value < k < hi ==> !IsAsciiAlnum(t[k])
    ensures r.None? ==> forall k :: lo <= k < hi ==> !IsAsciiAlnum(t[k])
    decreases hi
  {
    if hi <= lo then None
    else if IsAsciiAlnum(t[hi - 1]) then Some(hi - 1)
    else LastAsciiAlnum(t, lo, hi - 1)
  }

  /**
   * `[A-Za-z0-9][A-Za-z0-9ァ-ヴー]{1,}[A-Za-z0-9]` tried at `p`: the greedy
   * middle takes the whole run of the wider class after `p`, then gives
   * characters back until the last one is an ASCII letter or digit, leaving
   * at least one in the middle.
   */
  function AlphanumMatchAt(t: string, p: nat): (r: Option<Match>)
    requires p < |t|
    ensures r.Some? ==> r.value.start == p && r.value.next == r.value.end
    ensures r.Some? ==>
      && IsAsciiAlnum(t[p])
      && p + 3 <= r.value.end <= RunEnd(t, p + 1, AlnumOrKatakanaClass)
      && IsAsciiAlnum(t[r.value.end - 1])
      && forall k :: r.value.end <= k < RunEnd(t, p + 1, AlnumOrKatakanaClass) ==> !IsAsciiAlnum(t[k])
    ensures r.None? ==>
      || !IsAsciiAlnum(t[p])
      || forall k :: p + 2 <= k < RunEnd(t, p + 1, AlnumOrKatakanaClass) ==> !IsAsciiAlnum(t[k])
  {
    if !IsAsciiAlnum(t[p]) then None
    else
      var e := RunEnd(t, p + 1, AlnumOrKatakanaClass);
      match LastAsciiAlnum(t, p + 2, e)
      case Some(q) => Some(Match(p, q + 1, q + 1))
      case None => None
  }

  /**
   * `([ァ-ヴー]{2,})(が|は|を|に|で|と|や|の)` tried at `p`: the whole katakana
   * run from `p` followed by a particle (backtracking cannot help, since a
   * particle is not katakana). The word is the run; the scan resumes after
   * the particle.
   */
  function ProperNounMatchAt(t: string, p: nat): (r: Option<Match>)
    requires p < |t|
    ensures r.Some? ==> r.value.start == p && r.value.end == RunEnd(t, p, KatakanaClass)
    ensures r.Some? ==> r.value.next == r.value.end + 1
    ensures r.Some? <==>
      var e := RunEnd(t, p, KatakanaClass);
      e >= p + 2 && e < |t| && IsParticle(t[e])
  {
    var e := RunEnd(t, p, KatakanaClass);
    if e >= p + 2 && e < |t| && IsParticle(t[e]) then Some(Match(p, e, e + 1)) else None
  }

  function MatchAt(f: Family, t: string, p: nat): (r: Option<Match>)
    requires p < |t|
    ensures r.Some? ==> p == r.value.start < r.value.end <= r.value.next <= |t|
  {
    match f
    case Katakana => KatakanaMatchAt(t, p)
    case Alphanum => AlphanumMatchAt(t, p)
    case ProperNoun => ProperNounMatchAt(t, p)
  }

  // ---------------------------------------------------------------------------
  // finditer
  // ---------------------------------------------------------------------------

  /** The matches `finditer` yields from position `p` on, left to right. */
  function Scan(f: Family, t: string, p: nat): (ms: seq<Match>)
    ensures forall m :: m in ms ==> p <= m.start < m.end <= |t|
    decreases |t| - p
  {
    if p >= |t| then []
    else
      match MatchAt(f, t, p)
      case Some(m) => [m] + Scan(f, t, m.next)
      case None => Scan(f, t, p + 1)
  }

  function FindIter(f: Family, t: string): seq<Match> {
    Scan(f, t, 0)
  }

  /** The captured word of every match, in scan order. */
  function MatchedWords(f: Family, t: string): (ws: seq<string>)
    ensures |ws| == |FindIter(f, t)|
  {
    var ms := FindIter(f, t);
    seq(|ms|, k requires 0 <= k < |ms| => t[ms[k].start..ms[k].end])
  }

  /** The words a family contributes: every matched word the exclusion rule keeps. */
  function Candidates(f: Family, t: string): set<string> {
    set w | w in MatchedWords(f, t) && !ShouldExclude(w)
  }

  // ---------------------------------------------------------------------------
  // Extraction
  // ---------------------------------------------------------------------------

  /** The loop the three `extract_*` methods share: collect every matched word not excluded. */
  method ExtractFamily(f: Family, text: string) returns (words: set<string>)
    ensures words == Candidates(f, text)
    ensures forall w :: w in words ==> !ShouldExclude(w)
  {
    var matched := MatchedWords(f, text);
    words := {};
    for k := 0 to |matched|
      invariant words == set w | w in matched[..k] && !ShouldExclude(w)
    {
      var word := matched[k];
      assert matched[..k + 1] == matched[..k] + [word];
      if !ShouldExclude(word) {
        words := words + {word};
      }
    }
    assert matched[..|matched|] == matched;
  }

  /** `extract_katakana_words`: exactly the maximal katakana runs of two or more characters the rule keeps. */
  method ExtractKatakanaWords(text: string) returns (words: set<string>)
    ensures words == Candidates(Katakana, text)
    ensures forall w :: w in words <==> !ShouldExclude(w) && exists i :: IsKatakanaWordAt(text, w, i)
  {
    words := ExtractFamily(Katakana, text);
    forall w ensures w in words <==> !ShouldExclude(w) && exists i :: IsKatakanaWordAt(text, w, i) {
      KatakanaCandidates(text, w);
    }
  }

  /**
   * `extract_alphanum_words`: words of three or more characters that start
   * and end with an ASCII letter or digit, have only those and katakana in
   * between, and stop at the last ASCII letter or digit of their run.
   */
  method ExtractAlphanumWords(text: string) returns (words: set<string>)
    ensures words == Candidates(Alphanum, text)
    ensures forall w :: w in words ==> !ShouldExclude(w) && AlphanumShape(w)
    ensures forall w :: w in words ==> exists i :: IsAlphanumWordAt(text, w, i)
  {
    words := ExtractFamily(Alphanum, text);
    forall w | w in words ensures AlphanumShape(w) && exists i :: IsAlphanumWordAt(text, w, i) {
      AlphanumCandidates(text, w);
    }
  }

  /** `extract_proper_nouns`: exactly the maximal katakana runs of two or more characters followed by a particle. */
  method ExtractProperNouns(text: string) returns (words: set<string>)
    ensures words == Candidates(ProperNoun, text)
    ensures forall w :: w in words <==> !ShouldExclude(w) && exists i :: IsProperNounAt(text, w, i)
  {
    words := ExtractFamily(ProperNoun, text);
    forall w ensures w in words <==> !ShouldExclude(w) && exists i :: IsProperNounAt(text, w, i) {
      ProperNounCandidates(text, w);
    }
  }

  /** The result of `extract_all`: one set per category. */
  datatype Extracted = Extracted(katakana: set<string>, alphanum: set<string>, properNouns: set<string>)
  {
    function Get(f: Family): set<string> {
      match f
      case Katakana => katakana
      case Alphanum => alphanum
      case ProperNoun => properNouns
    }
  }

  /** `extract_all`: the three families, each run on the same text on its own. */
  method ExtractAll(text: string) returns (r: Extracted)
    ensures forall f: Family :: r.Get(f) == Candidates(f, text)
    ensures forall f: Family, w :: w in r.Get(f) ==> !ShouldExclude(w) && exists i :: OccursAt(text, w, i)
  {
    var katakana := ExtractKatakanaWords(text);
    var alphanum := ExtractAlphanumWords(text);
    var properNouns := ExtractProperNouns(text);
    r := Extracted(katakana, alphanum, properNouns);
    CandidatesOccur(text);
  }

  // ---------------------------------------------------------------------------
  // What each family's candidates are
  // ---------------------------------------------------------------------------

  predicate MaximalKatakanaRun(t: string, i: nat, j: nat) {
    && i < j <= |t|
    && (forall k :: i <= k < j ==> IsKatakana(t[k]))
    && (i == 0 || !IsKatakana(t[i - 1]))
    && (j == |t| || !IsKatakana(t[j]))
  }

  /** `w` is a maximal katakana run of two or more characters at position `i` of `t`. */
  predicate IsKatakanaWordAt(t: string, w: string, i: nat) {
    OccursAt(t, w, i) && |w| >= 2 && MaximalKatakanaRun(t, i, i + |w|)
  }

  /** `w` is a maximal katakana run of two or more characters at `i`, followed by a particle. */
  predicate IsProperNounAt(t: string, w: string, i: nat) {
    IsKatakanaWordAt(t, w, i) && i + |w| < |t| && IsParticle(t[i + |w|])
  }

  predicate AlphanumShape(w: string) {
    && |w| >= 3
    && IsAsciiAlnum(w[0]) && IsAsciiAlnum(w[|w| - 1])
    && forall k :: 0 < k < |w| - 1 ==> IsAlnumOrKatakana(w[k])
  }

  /**
   * `w` stands at `i`, has the alphanumeric shape, and no ASCII letter or
   * digit follows it within its run of the wider class.
   */
  predicate IsAlphanumWordAt(t: string, w: string, i: nat) {
    && OccursAt(t, w, i)
    && AlphanumShape(w)
    && i + 1 <= |t|
    && forall k :: i + |w| <= k < RunEnd(t, i + 1, AlnumOrKatakanaClass) ==> !IsAsciiAlnum(t[k])
  }

  /** Not strictly inside a katakana run: where a katakana scan can stand. */
  predicate OutsideKatakanaRun(t: string, p: nat) {
    p == 0 || p >= |t| || !IsKatakana(t[p - 1]) || !IsKatakana(t[p])
  }

  lemma {:induction false} KatakanaScanSound(t: string, p: nat)
    requires OutsideKatakanaRun(t, p)
    ensures forall m :: m in Scan(Katakana, t, p) ==>
      MaximalKatakanaRun(t, m.start, m.end) && m.end >= m.start + 2
    decreases |t| - p
  {
    if p < |t| {
      match KatakanaMatchAt(t, p)
      case Some(m) =>
        KatakanaScanSound(t, m.next);
      case None =>
        KatakanaScanSound(t, p + 1);
    }
  }

  lemma {:induction false} KatakanaScanComplete(t: string, p: nat, i: nat, j: nat)
    requires p <= i
    requires MaximalKatakanaRun(t, i, j) && j >= i + 2
    ensures Match(i, j, j) in Scan(Katakana, t, p)
    decreases |t| - p
  {
    if p == i {
      RunEndUnique(t, i, j, KatakanaClass);
    } else {
      match KatakanaMatchAt(t, p)
      case Some(m) =>
        assert !InClass(t[i - 1], KatakanaClass);
        assert m.next <= i;
        KatakanaScanComplete(t, m.next, i, j);
      case None =>
        KatakanaScanComplete(t, p + 1, i, j);
    }
  }

  /** The matched words at index `k` of the scan. */
  lemma MatchedWordAt(f: Family, t: string, w: string) returns (m: Match)
    requires w in MatchedWords(f, t)
    ensures m in FindIter(f, t) && w == t[m.start..m.end]
  {
    var ws := MatchedWords(f, t);
    var k :| 0 <= k < |ws| && ws[k] == w;
    m := FindIter(f, t)[k];
  }

  lemma WordOfMatch(f: Family, t: string, m: Match)
    requires m in FindIter(f, t)
    ensures t[m.start..m.end] in MatchedWords(f, t)
  {
    var ms := FindIter(f, t);
    var k :| 0 <= k < |ms| && ms[k] == m;
    assert MatchedWords(f, t)[k] == t[m.start..m.end];
  }

  /**
   * A katakana candidate is exactly a maximal run of two or more katakana
   * characters that the exclusion rule keeps.
   */
  lemma KatakanaCandidates(t: string, w: string)
    ensures w in Candidates(Katakana, t) <==> !ShouldExclude(w) && exists i :: IsKatakanaWordAt(t, w, i)
  {
    if w in Candidates(Katakana, t) {
      KatakanaCandidateSound(t, w);
    }
    if !ShouldExclude(w) && exists i :: IsKatakanaWordAt(t, w, i) {
      var i: nat :| IsKatakanaWordAt(t, w, i);
      KatakanaCandidateFound(t, w, i);
    }
  }

  lemma KatakanaCandidateSound(t: string, w: string)
    requires w in Candidates(Katakana, t)
    ensures !ShouldExclude(w) && exists i :: IsKatakanaWordAt(t, w, i)
  {
    var m := MatchedWordAt(Katakana, t, w);
    KatakanaScanSound(t, 0);
    assert IsKatakanaWordAt(t, w, m.start);
  }

  lemma KatakanaCandidateFound(t: string, w: string, i: nat)
    requires !ShouldExclude(w) && IsKatakanaWordAt(t, w, i)
    ensures w in Candidates(Katakana, t)
  {
    KatakanaScanComplete(t, 0, i, i + |w|);
    WordOfMatch(Katakana, t, Match(i, i + |w|, i + |w|));
  }

  /**
   * Where a proper-noun scan can stand: outside a katakana run, or inside
   * one that no particle follows.
   */
  predicate ProperNounScanPosition(t: string, p: nat) {
    || OutsideKatakanaRun(t, p)
    || (p <= |t| && var e := RunEnd(t, p, KatakanaClass); !(e < |t| && IsParticle(t[e])))
  }

  lemma {:induction false} ProperNounScanSound(t: string, p: nat)
    requires ProperNounScanPosition(t, p)
    ensures forall m :: m in Scan(ProperNoun, t, p) ==>
      && MaximalKatakanaRun(t, m.start, m.end) && m.end >= m.start + 2
      && m.end < |t| && IsParticle(t[m.end])
    decreases |t| - p
  {
    if p < |t| {
      match ProperNounMatchAt(t, p)
      case Some(m) =>
        assert !IsKatakana(t[m.end]);
        ProperNounScanSound(t, m.next);
      case None =>
        if p + 1 < |t| && IsKatakana(t[p]) && IsKatakana(t[p + 1]) {
          assert RunEnd(t, p + 1, KatakanaClass) == RunEnd(t, p, KatakanaClass);
        }
        ProperNounScanSound(t, p + 1);
    }
  }

  lemma {:induction false} ProperNounScanComplete(t: string, p: nat, i: nat, j: nat)
    requires p <= i
    requires MaximalKatakanaRun(t, i, j) && j >= i + 2 && j < |t| && IsParticle(t[j])
    ensures Match(i, j, j + 1) in Scan(ProperNoun, t, p)
    decreases |t| - p
  {
    if p == i {
      RunEndUnique(t, i, j, KatakanaClass);
    } else {
      match ProperNounMatchAt(t, p)
      case Some(m) =>
        assert !InClass(t[i - 1], KatakanaClass);
        assert m.end <= i - 1;
        ProperNounScanComplete(t, m.next, i, j);
      case None =>
        ProperNounScanComplete(t, p + 1, i, j);
    }
  }

  /**
   * A proper-noun candidate is exactly a maximal run of two or more katakana
   * characters, immediately followed by a particle, that the exclusion rule
   * keeps; the particle is not part of it.
   */
  lemma ProperNounCandidates(t: string, w: string)
    ensures w in Candidates(ProperNoun, t) <==> !ShouldExclude(w) && exists i :: IsProperNounAt(t, w, i)
  {
    if w in Candidates(ProperNoun, t) {
      ProperNounCandidateSound(t, w);
    }
    if !ShouldExclude(w) && exists i :: IsProperNounAt(t, w, i) {
      var i: nat :| IsProperNounAt(t, w, i);
      ProperNounCandidateFound(t, w, i);
    }
  }

  lemma ProperNounCandidateSound(t: string, w: string)
    requires w in Candidates(ProperNoun, t)
    ensures !ShouldExclude(w) && exists i :: IsProperNounAt(t, w, i)
  {
    var m := MatchedWordAt(ProperNoun, t, w);
    ProperNounScanSound(t, 0);
    assert IsProperNounAt(t, w, m.start);
  }

  lemma ProperNounCandidateFound(t: string, w: string, i: nat)
    requires !ShouldExclude(w) && IsProperNounAt(t, w, i)
    ensures w in Candidates(ProperNoun, t)
  {
    ProperNounScanComplete(t, 0, i, i + |w|);
    WordOfMatch(ProperNoun, t, Match(i, i + |w|, i + |w| + 1));
  }

  lemma {:induction false} AlphanumScanSound(t: string, p: nat)
    ensures forall m :: m in Scan(Alphanum, t, p) ==>
      IsAlphanumWordAt(t, t[m.start..m.end], m.start)
    decreases |t| - p
  {
    if p < |t| {
      match AlphanumMatchAt(t, p)
      case Some(m) =>
        AlphanumScanSound(t, m.next);
        var w := t[m.start..m.end];
        forall k | 0 < k < |w| - 1 ensures IsAlnumOrKatakana(w[k]) {
          assert w[k] == t[p + k] && InClass(t[p + k], AlnumOrKatakanaClass);
        }
      case None =>
        AlphanumScanSound(t, p + 1);
    }
  }

  /**
   * An alphanumeric candidate has three or more characters, starts and ends
   * with an ASCII letter or digit, has only those and katakana in between,
   * and ends at the last ASCII letter or digit of its run.
   */
  lemma AlphanumCandidates(t: string, w: string)
    requires w in Candidates(Alphanum, t)
    ensures !ShouldExclude(w) && AlphanumShape(w)
    ensures exists i :: IsAlphanumWordAt(t, w, i)
  {
    var m := MatchedWordAt(Alphanum, t, w);
    AlphanumScanSound(t, 0);
    assert IsAlphanumWordAt(t, w, m.start);
  }

  /** Every candidate of every family stands somewhere in the text. */
  lemma CandidateOccurs(f: Family, t: string, w: string)
    requires w in Candidates(f, t)
    ensures exists i :: OccursAt(t, w, i)
  {
    var m := MatchedWordAt(f, t, w);
    assert OccursAt(t, w, m.start);
  }

  /** The candidates of all families, each kept by the exclusion rule and standing in the text. */
  lemma CandidatesOccur(t: string)
    ensures forall f: Family, w :: w in Candidates(f, t) ==> !ShouldExclude(w) && exists i :: OccursAt(t, w, i)
  {
    forall f: Family, w | w in Candidates(f, t) ensures exists i :: OccursAt(t, w, i) {
      CandidateOccurs(f, t, w);
    }
  }

  // ---------------------------------------------------------------------------
  // Counting
  // ---------------------------------------------------------------------------

  /** Non-overlapping occurrences of a non-empty `w` in `t` from `p` on, left to right. */
  function CountFrom(t: string, w: string, p: nat): nat
    requires w != []
    decreases |t| - p
  {
    if p + |w| > |t| then 0
    else if t[p..p + |w|] == w then 1 + CountFrom(t, w, p + |w|)
    else CountFrom(t, w, p + 1)
  }

  /** `t.count(w)`: non-overlapping occurrences; the empty word counts `|t| + 1` times. */
  function Count(t: string, w: string): (n: nat)
    ensures w == [] ==> n == |t| + 1
    ensures w != [] ==> n * |w| <= |t|
  {
    if w == [] then |t| + 1
    else
      CountFromBound(t, w, 0);
      CountFrom(t, w, 0)
  }

  lemma {:induction false} CountFromPositive(t: string, w: string, p: nat)
    requires w != []
    ensures CountFrom(t, w, p) > 0 <==> exists i :: p <= i && OccursAt(t, w, i)
    decreases |t| - p
  {
    if p + |w| > |t| {
      assert forall i :: p <= i ==> !OccursAt(t, w, i);
    } else if t[p..p + |w|] == w {
      assert OccursAt(t, w, p);
    } else {
      CountFromPositive(t, w, p + 1);
      assert !OccursAt(t, w, p);
      assert forall i :: p <= i && OccursAt(t, w, i) ==> p + 1 <= i;
    }
  }

  lemma {:induction false} CountFromBound(t: string, w: string, p: nat)
    requires w != [] && p <= |t|
    ensures CountFrom(t, w, p) * |w| <= |t| - p
    decreases |t| - p
  {
    if p + |w| <= |t| {
      if t[p..p + |w|] == w {
        var c := CountFrom(t, w, p + |w|);
        CountFromBound(t, w, p + |w|);
        assert CountFrom(t, w, p) == c + 1;
        MulSucc(c, |w|);
      } else {
        CountFromBound(t, w, p + 1);
      }
    }
  }

  /** The nonlinear step of the occurrence bound: one more occurrence takes one more word's length. */
  lemma MulSucc(c: nat, n: nat)
    ensures (c + 1) * n == c * n + n
  {
  }

  /**
   * A non-empty word counts at least once exactly when it stands somewhere
   * in the text, and its non-overlapping occurrences fit in the text.
   */
  lemma CountProperties(t: string, w: string)
    requires w != []
    ensures Count(t, w) > 0 <==> exists i :: OccursAt(t, w, i)
    ensures Count(t, w) * |w| <= |t|
  {
    CountFromPositive(t, w, 0);
    CountFromBound(t, w, 0);
  }

  /**
   * `count_frequency`: for each word, its occurrence count in the text,
   * keeping only the words that occur.
   */
  method CountFrequency(text: string, words: set<string>) returns (frequency: map<string, nat>)
    ensures frequency.Keys <= words
    ensures forall w :: w in frequency ==> frequency[w] > 0 && frequency[w] == Count(text, w)
    ensures forall w :: w in words && Count(text, w) > 0 ==> w in frequency
  {
    frequency := map[];
    var rest := words;
    while rest != {}
      invariant rest <= words
      invariant frequency.Keys <= words - rest
      invariant forall w :: w in frequency ==> frequency[w] > 0 && frequency[w] == Count(text, w)
      invariant forall w :: w in words - rest && Count(text, w) > 0 ==> w in frequency
      decreases rest
    {
      var word :| word in rest;
      var count := Count(text, word);
      if count > 0 {
        frequency := frequency[word := count];
      }
      rest := rest - {word};
    }
  }

  /** Every candidate of every family counts at least once in its text. */
  lemma CandidateCounted(f: Family, t: string, w: string)
    requires w in Candidates(f, t)
    ensures Count(t, w) > 0
  {
    CandidateOccurs(f, t, w);
    if w == [] {
    } else {
      CountProperties(t, w);
    }
  }
}
