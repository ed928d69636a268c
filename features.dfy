/**
 * The context-window feature extractor (`get_word_features` in
 * src/main.py): one feature record per token of a sentence, carrying the
 * token's own attributes, its relative position and the attributes of the
 * tokens up to three places before and after it.
 */
module Features {
  import opened Wrappers
  import opened Corpus

  /** The relative position `i / n` of a token, kept exactly as the pair. */
  datatype Position = Position(index: nat, length: nat)

  /** The real number `i / n` that the source computes in floating point. */
  function Fraction(p: Position): real
    requires p.length > 0
  {
    p.index as real / p.length as real
  }

  /**
   * One feature record (`WordFeatures`), fields in declaration order. The
   * source's `label` is `goldLabel` here, `label` being a Dafny keyword.
   */
  datatype WordFeatures = WordFeatures(
    word: string,
    stem: string,
    pos: string,
    biotag: string,
    position: Position,
    previous_tag: Option<string>,
    previous_pos: Option<string>,
    previous_biotag: Option<string>,
    previous_word: Option<string>,
    previous_stem: Option<string>,
    previous_2_pos: Option<string>,
    previous_2_biotag: Option<string>,
    previous_2_word: Option<string>,
    previous_2_stem: Option<string>,
    previous_3_pos: Option<string>,
    previous_3_biotag: Option<string>,
    previous_3_word: Option<string>,
    previous_3_stem: Option<string>,
    next_pos: Option<string>,
    next_biotag: Option<string>,
    next_word: Option<string>,
    next_stem: Option<string>,
    next_2_pos: Option<string>,
    next_2_biotag: Option<string>,
    next_2_word: Option<string>,
    next_2_stem: Option<string>,
    next_3_pos: Option<string>,
    next_3_biotag: Option<string>,
    next_3_word: Option<string>,
    next_3_stem: Option<string>,
    capitalized: bool,
    goldLabel: Option<string>)

  /** The marker that `previous_tag` holds whenever there is a previous token. */
  const PreviousMarker := "@@"

  /** The four sub-features the window holds at one offset: POS, BIO tag, word and stem. */
  datatype Neighbour = Neighbour(pos: Option<string>, biotag: Option<string>, word: Option<string>, stem: Option<string>)

  /** An offset that falls outside the sentence. */
  const Absent := Neighbour(None, None, None, None)

  /** What the window records of an in-range neighbour. */
  function Seen(w: Word, stem: string -> string): Neighbour
  {
    Neighbour(Some(w.pos), Some(w.biotag), Some(w.word), Some(stem(w.word)))
  }

  /** The offsets of the context window. */
  predicate IsOffset(k: int)
  {
    -3 <= k <= 3 && k != 0
  }

  /** The record's four window fields at offset `k`. */
  function Slot(f: WordFeatures, k: int): Neighbour
    requires IsOffset(k)
  {
    match k
    case -3 => Neighbour(f.previous_3_pos, f.previous_3_biotag, f.previous_3_word, f.previous_3_stem)
    case -2 => Neighbour(f.previous_2_pos, f.previous_2_biotag, f.previous_2_word, f.previous_2_stem)
    case -1 => Neighbour(f.previous_pos, f.previous_biotag, f.previous_word, f.previous_stem)
    case 1 => Neighbour(f.next_pos, f.next_biotag, f.next_word, f.next_stem)
    case 2 => Neighbour(f.next_2_pos, f.next_2_biotag, f.next_2_word, f.next_2_stem)
    case _ => Neighbour(f.next_3_pos, f.next_3_biotag, f.next_3_word, f.next_3_stem)
  }

  /**
   * What record `i` of sentence `s` must hold: token `i`'s own attributes and
   * stem, the position `i / |s|`, the marker exactly when a previous token
   * exists, and at every offset `k` the neighbour `s[i + k]` when
   * `0 <= i + k < |s|`, all four fields absent otherwise.
   */
  ghost predicate Describes(f: WordFeatures, s: seq<Word>, i: nat, stem: string -> string)
    requires i < |s|
  {
    && f.word == s[i].word
    && f.stem == stem(s[i].word)
    && f.pos == s[i].pos
    && f.biotag == s[i].biotag
    && f.capitalized == s[i].capitalized
    && f.goldLabel == s[i].goldLabel
    && f.position == Position(i, |s|)
    && f.previous_tag == (if 1 <= i then Some(PreviousMarker) else None)
    && forall k :: IsOffset(k) ==> Slot(f, k) == if 0 <= i + k < |s| then Seen(s[i + k], stem) else Absent
  }

  /** `fs` is the feature list of sentence `s`: one describing record per token, in order. */
  ghost predicate FeaturesOf(fs: seq<WordFeatures>, s: seq<Word>, stem: string -> string)
  {
    |fs| == |s| && forall i :: 0 <= i < |s| ==> Describes(fs[i], s, i, stem)
  }

  /** The `if i >= k` block for the token `k` places back. */
  function Previous(s: seq<Word>, i: nat, k: nat, stem: string -> string): (nb: Neighbour)
    requires i < |s|
    ensures nb == if 0 <= i - k < |s| then Seen(s[i - k], stem) else Absent
  {
    if i >= k then Seen(s[i - k], stem) else Absent
  }

  /** The `if i <= sentence_len - (k + 1)` block for the token `k` places ahead. */
  function Next(s: seq<Word>, i: nat, k: nat, stem: string -> string): (nb: Neighbour)
    ensures nb == if 0 <= i + k < |s| then Seen(s[i + k], stem) else Absent
  {
    if i <= |s| - (k + 1) then Seen(s[i + k], stem) else Absent
  }

  /**
   * `get_word_features`: builds the records one token at a time. An empty
   * sentence gives no records; the division by the length is only reached
   * inside the loop, where the length is positive.
   */
  method GetWordFeatures(sentence: seq<Word>, stem: string -> string) returns (wordFeatures: seq<WordFeatures>)
    ensures FeaturesOf(wordFeatures, sentence, stem)
  {
    wordFeatures := [];
    var sentenceLen := |sentence|;
    for i := 0 to sentenceLen
      invariant |wordFeatures| == i
      invariant forall j :: 0 <= j < i ==> Describes(wordFeatures[j], sentence, j, stem)
    {
      var word := sentence[i];
      var position := Position(i, sentenceLen);
      var previousTag := if i >= 1 then Some(PreviousMarker) else None;
      var p1 := Previous(sentence, i, 1, stem);
      var p2 := Previous(sentence, i, 2, stem);
      var p3 := Previous(sentence, i, 3, stem);
      var n1 := Next(sentence, i, 1, stem);
      var n2 := Next(sentence, i, 2, stem);
      var n3 := Next(sentence, i, 3, stem);
      var features := WordFeatures(
        word.word, stem(word.word), word.pos, word.biotag,
        position,
        previousTag,
        p1.pos, p1.biotag, p1.word, p1.stem,
        p2.pos, p2.biotag, p2.word, p2.stem,
        p3.pos, p3.biotag, p3.word, p3.stem,
        n1.pos, n1.biotag, n1.word, n1.stem,
        n2.pos, n2.biotag, n2.word, n2.stem,
        n3.pos, n3.biotag, n3.word, n3.stem,
        word.capitalized, word.goldLabel);
      wordFeatures := wordFeatures + [features];
    }
  }

  // ---------------------------------------------------------------------
  // Properties of the extracted features
  // ---------------------------------------------------------------------

  /**
   * The position of record `i` is `i / n`: the first record has 0, every
   * value lies in [0, 1), and the values strictly increase along the sentence.
   */
  lemma PositionsIncrease(fs: seq<WordFeatures>, s: seq<Word>, stem: string -> string)
    requires FeaturesOf(fs, s, stem)
    ensures forall i :: 0 <= i < |fs| ==> fs[i].position.length == |s| > 0
    ensures |fs| > 0 ==> Fraction(fs[0].position) == 0.0
    ensures forall i :: 0 <= i < |fs| ==> 0.0 <= Fraction(fs[i].position) < 1.0
    ensures forall i, j :: 0 <= i < j < |fs| ==> Fraction(fs[i].position) < Fraction(fs[j].position)
  {
    forall i | 0 <= i < |fs| ensures 0.0 <= Fraction(fs[i].position) < 1.0 {
      assert Describes(fs[i], s, i, stem);
      FractionBelowOne(i, |s|);
    }
    forall i, j | 0 <= i < j < |fs| ensures Fraction(fs[i].position) < Fraction(fs[j].position) {
      assert Describes(fs[i], s, i, stem) && Describes(fs[j], s, j, stem);
      FractionIncreases(i, j, |s|);
    }
  }

  lemma FractionBelowOne(i: nat, n: nat)
    requires i < n
    ensures 0.0 <= Fraction(Position(i, n)) < 1.0
  {
    var q := Fraction(Position(i, n));
    assert q * n as real == i as real;
  }

  lemma FractionIncreases(i: nat, j: nat, n: nat)
    requires i < j < n
    ensures Fraction(Position(i, n)) < Fraction(Position(j, n))
  {
    var p, q := Fraction(Position(i, n)), Fraction(Position(j, n));
    assert p * n as real == i as real;
    assert q * n as real == j as real;
    assert (q - p) * n as real == (j - i) as real;
  }

  /**
   * The `previous_k_*` fields are present exactly when `i >= k`, the
   * `next_k_*` fields exactly when `i + k <= n - 1`, and `previous_tag` is
   * "@@" exactly when `i >= 1`.
   */
  lemma WindowPresence(fs: seq<WordFeatures>, s: seq<Word>, stem: string -> string, i: nat, k: int)
    requires FeaturesOf(fs, s, stem)
    requires i < |fs| && 1 <= k <= 3
    ensures Slot(fs[i], -k) != Absent <==> i >= k
    ensures Slot(fs[i], k) != Absent <==> i + k <= |s| - 1
    ensures fs[i].previous_tag.Some? <==> i >= 1
    ensures fs[i].previous_tag.Some? ==> fs[i].previous_tag.value == "@@"
  {
    assert Describes(fs[i], s, i, stem);
  }

  /** The sub-features of a record's window at every offset are all present or all absent. */
  lemma WindowAllOrNothing(fs: seq<WordFeatures>, s: seq<Word>, stem: string -> string, i: nat, k: int)
    requires FeaturesOf(fs, s, stem)
    requires i < |fs| && IsOffset(k)
    ensures var nb := Slot(fs[i], k);
            nb.pos.Some? == nb.biotag.Some? == nb.word.Some? == nb.stem.Some?
  {
    assert Describes(fs[i], s, i, stem);
  }

  /** What a record says of its own token, in the shape of a window entry. */
  function Own(f: WordFeatures): Neighbour
  {
    Neighbour(Some(f.pos), Some(f.biotag), Some(f.word), Some(f.stem))
  }

  /**
   * The window of record `i` at offset `k` repeats what record `i + k` says
   * of its own token: POS, BIO tag, word and stem.
   */
  lemma WindowMatchesNeighbourRecord(fs: seq<WordFeatures>, s: seq<Word>, stem: string -> string, i: nat, k: int)
    requires FeaturesOf(fs, s, stem)
    requires i < |fs| && IsOffset(k) && 0 <= i + k < |fs|
    ensures Slot(fs[i], k) == Own(fs[i + k])
  {
    assert Describes(fs[i], s, i, stem);
    assert Describes(fs[i + k], s, i + k, stem);
  }

  /** Every window field of a record, `previous_tag` included, is absent. */
  predicate WindowEmpty(f: WordFeatures)
  {
    && f.previous_tag == None
    && f.previous_pos == None && f.previous_biotag == None && f.previous_word == None && f.previous_stem == None
    && f.previous_2_pos == None && f.previous_2_biotag == None && f.previous_2_word == None && f.previous_2_stem == None
    && f.previous_3_pos == None && f.previous_3_biotag == None && f.previous_3_word == None && f.previous_3_stem == None
    && f.next_pos == None && f.next_biotag == None && f.next_word == None && f.next_stem == None
    && f.next_2_pos == None && f.next_2_biotag == None && f.next_2_word == None && f.next_2_stem == None
    && f.next_3_pos == None && f.next_3_biotag == None && f.next_3_word == None && f.next_3_stem == None
  }

  /** In a one-token sentence the record has no window at all, and position 0/1. */
  lemma SingletonHasNoWindow(fs: seq<WordFeatures>, s: seq<Word>, stem: string -> string)
    requires FeaturesOf(fs, s, stem) && |s| == 1
    ensures WindowEmpty(fs[0]) && fs[0].position == Position(0, 1)
  {
    var f := fs[0];
    assert Describes(f, s, 0, stem);
    assert Slot(f, -3) == Absent && Slot(f, -2) == Absent && Slot(f, -1) == Absent;
    assert Slot(f, 1) == Absent && Slot(f, 2) == Absent && Slot(f, 3) == Absent;
  }

  /** A record is fully determined by the sentence, its index and the stemmer. */
  lemma DescriptionIsUnique(f: WordFeatures, g: WordFeatures, s: seq<Word>, i: nat, stem: string -> string)
    requires i < |s|
    requires Describes(f, s, i, stem) && Describes(g, s, i, stem)
    ensures f == g
  {
    assert Slot(f, -3) == Slot(g, -3) && Slot(f, -2) == Slot(g, -2) && Slot(f, -1) == Slot(g, -1);
    assert Slot(f, 1) == Slot(g, 1) && Slot(f, 2) == Slot(g, 2) && Slot(f, 3) == Slot(g, 3);
  }

  /** Extracting features twice from the same sentence gives the same records. */
  lemma FeaturesAreDeterministic(fs: seq<WordFeatures>, gs: seq<WordFeatures>, s: seq<Word>, stem: string -> string)
    requires FeaturesOf(fs, s, stem) && FeaturesOf(gs, s, stem)
    ensures fs == gs
  {
    forall i | 0 <= i < |s| ensures fs[i] == gs[i] {
      DescriptionIsUnique(fs[i], gs[i], s, i, stem);
    }
  }

  /**
   * Which window fields are present, and `previous_tag`, depend only on the
   * sentence length and the index, never on the neighbours' content.
   */
  lemma PresenceIgnoresContent(fs: seq<WordFeatures>, s: seq<Word>, gs: seq<WordFeatures>, t: seq<Word>,
                               stem: string -> string, i: nat, k: int)
    requires FeaturesOf(fs, s, stem) && FeaturesOf(gs, t, stem) && |s| == |t|
    requires i < |s| && IsOffset(k)
    ensures fs[i].previous_tag == gs[i].previous_tag
    ensures (Slot(fs[i], k) == Absent) == (Slot(gs[i], k) == Absent)
  {
    assert Describes(fs[i], s, i, stem) && Describes(gs[i], t, i, stem);
  }
}
