/**
 * What the crawlers hand to the updater: one record per collected word.
 * Fetching and parsing pages is not part of this model; the per-document
 * emission of the news crawler is, as the producer of those records.
 */
module Crawler {
  import opened Wrappers
  import opened Extractor

  /**
   * One collected word: its surface and the optional `source`, `category`
   * and `frequency` keys (None when the key is absent).
   */
  datatype Emission = Emission(surface: string, source: Option<string>, category: Option<string>, frequency: Option<int>)

  /** The category a news document's words of family `f` are emitted under. */
  function NewsCategory(f: Family): string {
    "news_" + CategoryName(f)
  }

  /** `frequency.get(word, 1)` over the map `count_frequency` returns. */
  function CountOrOne(text: string, w: string): nat {
    if Count(text, w) > 0 then Count(text, w) else 1
  }

  /** The record the news crawler emits for word `w` of family `f`. */
  function EmissionFor(text: string, tag: string, f: Family, w: string): Emission {
    Emission(w, Some(tag), Some(NewsCategory(f)), Some(CountOrOne(text, w)))
  }

  /** The surfaces of a list of records. */
  function EmittedSurfaces(ems: seq<Emission>): set<string> {
    set i | 0 <= i < |ems| :: ems[i].surface
  }

  /** `block` holds one record per word of `words`, each once, as `EmissionFor` builds it. */
  predicate FamilyBlock(text: string, tag: string, f: Family, words: set<string>, block: seq<Emission>) {
    && |block| == |words|
    && EmittedSurfaces(block) == words
    && (forall i :: 0 <= i < |block| ==> block[i] == EmissionFor(text, tag, f, block[i].surface))
    && (forall i, j :: 0 <= i < j < |block| ==> block[i].surface != block[j].surface)
  }

  /** `frequency.get(w, 1)`. */
  function LookupOrOne(frequency: map<string, nat>, w: string): nat {
    if w in frequency then frequency[w] else 1
  }

  /** `frequency` answers every word of `words` as `CountOrOne` does. */
  ghost predicate CountsAgree(text: string, words: set<string>, frequency: map<string, nat>) {
    forall w :: w in words ==> LookupOrOne(frequency, w) == CountOrOne(text, w)
  }

  /**
   * The news crawler's handling of one family: count the words'
   * occurrences, then emit one record per word.
   */
  method EmitFamily(text: string, tag: string, f: Family, words: set<string>) returns (block: seq<Emission>)
    ensures FamilyBlock(text, tag, f, words, block)
  {
    var frequency := CountFrequency(text, words);
    assert CountsAgree(text, words, frequency) by {
      forall w | w in words ensures LookupOrOne(frequency, w) == CountOrOne(text, w) {
        if w !in frequency {
          assert Count(text, w) == 0;
        }
      }
    }
    block := EmitWords(text, tag, f, words, frequency);
  }

  /**
   * The loop emitting one record per word, in the set's (unspecified)
   * order, each with the word's count looked up in `frequency`.
   */
  method EmitWords(text: string, tag: string, f: Family, words: set<string>, frequency: map<string, nat>) returns (block: seq<Emission>)
    requires CountsAgree(text, words, frequency)
    ensures FamilyBlock(text, tag, f, words, block)
  {
    var rest := words;
    block := [];
    while rest != {}
      invariant rest <= words
      invariant FamilyBlock(text, tag, f, words - rest, block)
      decreases rest
    {
      var w :| w in rest;
      var em := Emission(w, Some(tag), Some(NewsCategory(f)), Some(LookupOrOne(frequency, w)));
      assert em == EmissionFor(text, tag, f, w);
      FamilyBlockStep(text, tag, f, words, rest, block, w);
      block := block + [em];
      rest := rest - {w};
    }
  }

  /** Emitting one more of the words not yet emitted extends a block. */
  lemma FamilyBlockStep(text: string, tag: string, f: Family, words: set<string>, rest: set<string>, block: seq<Emission>, w: string)
    requires rest <= words && w in rest
    requires FamilyBlock(text, tag, f, words - rest, block)
    ensures FamilyBlock(text, tag, f, words - (rest - {w}), block + [EmissionFor(text, tag, f, w)])
  {
    assert words - (rest - {w}) == (words - rest) + {w};
    FamilyBlockAppend(text, tag, f, words - rest, block, w);
  }

  lemma FamilyBlockAppend(text: string, tag: string, f: Family, done: set<string>, block: seq<Emission>, w: string)
    requires FamilyBlock(text, tag, f, done, block)
    requires w !in done
    ensures FamilyBlock(text, tag, f, done + {w}, block + [EmissionFor(text, tag, f, w)])
  {
    var em := EmissionFor(text, tag, f, w);
    var all := block + [em];
    AppendSurface(block, em);
    assert |all| == |done + {w}|;
    forall i | 0 <= i < |all| ensures all[i] == EmissionFor(text, tag, f, all[i].surface) {
      if i < |block| {
        assert all[i] == block[i];
      }
    }
    forall i, j | 0 <= i < j < |all| ensures all[i].surface != all[j].surface {
      assert all[i] == block[i];
      if j < |block| {
        assert all[j] == block[j];
      } else {
        assert block[i].surface in EmittedSurfaces(block);
      }
    }
  }

  lemma AppendSurface(ems: seq<Emission>, em: Emission)
    ensures EmittedSurfaces(ems + [em]) == EmittedSurfaces(ems) + {em.surface}
  {
    var all := ems + [em];
    assert all[|ems|] == em;
    forall x | x in EmittedSurfaces(ems) ensures x in EmittedSurfaces(all) {
      var i :| 0 <= i < |ems| && ems[i].surface == x;
      assert all[i] == ems[i];
    }
  }

  /**
   * The news crawler's loop over one document (the text of a headline and
   * its summary): extract the three families, then emit the katakana block,
   * the alphanumeric block and the proper-noun block, in that order, all
   * tagged with the crawler's source tag.
   */
  method EmitDocument(text: string, tag: string) returns (out: seq<Emission>)
    ensures var nK, nA := |Candidates(Katakana, text)|, |Candidates(Alphanum, text)|;
      && |out| == nK + nA + |Candidates(ProperNoun, text)|
      && FamilyBlock(text, tag, Katakana, Candidates(Katakana, text), out[..nK])
      && FamilyBlock(text, tag, Alphanum, Candidates(Alphanum, text), out[nK..nK + nA])
      && FamilyBlock(text, tag, ProperNoun, Candidates(ProperNoun, text), out[nK + nA..])
  {
    var extracted := ExtractAll(text);
    assert extracted.Get(Katakana) == extracted.katakana;
    assert extracted.Get(Alphanum) == extracted.alphanum;
    assert extracted.Get(ProperNoun) == extracted.properNouns;
    var katakana := EmitFamily(text, tag, Katakana, extracted.katakana);
    var alphanum := EmitFamily(text, tag, Alphanum, extracted.alphanum);
    var properNouns := EmitFamily(text, tag, ProperNoun, extracted.properNouns);
    out := katakana + alphanum + properNouns;
    assert out[..|katakana|] == katakana;
    assert out[|katakana|..|katakana| + |alphanum|] == alphanum;
    assert out[|katakana| + |alphanum|..] == properNouns;
  }

  /**
   * Every record of a document carries the crawler's tag and the word's
   * true occurrence count, which is positive: the fallback count of 1 is
   * never used for an extracted word.
   */
  lemma DocumentEmissionCounts(text: string, tag: string, f: Family, w: string)
    requires w in Candidates(f, text)
    ensures EmissionFor(text, tag, f, w).frequency == Some(Count(text, w))
    ensures Count(text, w) > 0
    ensures EmissionFor(text, tag, f, w).source == Some(tag)
  {
    CandidateCounted(f, text, w);
  }
}
