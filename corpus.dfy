/**
 * The corpus reader: groups tab-separated token lines into sentences and
 * sentence boundaries (`parse_input` in src/main.py).
 *
 * A line is given already split on tabs and stripped, as a sequence of
 * fields. A line with at least five fields is a token line; any shorter line
 * closes the pending sentence and stands for a boundary.
 */
module Corpus {
  import opened Wrappers

  /** One token of the corpus (the `Word` record). */
  datatype Word = Word(word: string, pos: string, biotag: string, capitalized: bool, goldLabel: Option<string>)

  /** One element of the reader's output: a non-empty sentence, or a boundary (Python's `None`). */
  datatype Item = Sentence(words: seq<Word>) | Boundary

  /** Fewest fields a token line has; the sixth field, when present, is the gold label. */
  const TokenFields := 5
  const LabelFields := 6

  predicate IsTokenLine(line: seq<string>)
  {
    |line| >= TokenFields
  }

  /** The source reads the first character of every token line's word, so it must exist. */
  predicate WordsNonEmpty(lines: seq<seq<string>>)
  {
    forall j :: 0 <= j < |lines| && IsTokenLine(lines[j]) ==> |lines[j][0]| > 0
  }

  /** The token a token line stands for; `isUpper` is the character test behind `capitalized`. */
  function MakeWord(line: seq<string>, isUpper: char -> bool): (w: Word)
    requires IsTokenLine(line) && |line[0]| > 0
    ensures w.goldLabel.Some? <==> |line| >= LabelFields
    ensures w.goldLabel.Some? ==> w.goldLabel.value == line[5]
  {
    Word(line[0], line[1], line[2], isUpper(line[0][0]),
         if |line| >= LabelFields then Some(line[5]) else None)
  }

  /** What one input line contributes to the stream: a token, or a break. */
  datatype Mark = Token(w: Word) | Break

  /** What one line contributes: its token when it is a token line, a break otherwise. */
  function MarkOf(line: seq<string>, isUpper: char -> bool): Mark
    requires IsTokenLine(line) ==> |line[0]| > 0
  {
    if IsTokenLine(line) then Token(MakeWord(line, isUpper)) else Break
  }

  /** The lines read one by one, each as a token or a break, in input order. */
  function Marks(lines: seq<seq<string>>, isUpper: char -> bool): (ms: seq<Mark>)
    requires WordsNonEmpty(lines)
    ensures |ms| == |lines|
  {
    seq(|lines|, j requires 0 <= j < |lines| => MarkOf(lines[j], isUpper))
  }

  /** The tokens of a sentence, in order. */
  function Tokens(ws: seq<Word>): (ms: seq<Mark>)
  {
    seq(|ws|, j requires 0 <= j < |ws| => Token(ws[j]))
  }

  /** What one item of the reader's output stands for: a sentence its tokens, a boundary one break. */
  function ItemMarks(x: Item): seq<Mark>
  {
    match x
    case Sentence(ws) => Tokens(ws)
    case Boundary => [Break]
  }

  /** The reader's output spelled back out line by line. */
  function Expand(items: seq<Item>): seq<Mark>
  {
    if items == [] then [] else Expand(items[..|items| - 1]) + ItemMarks(items[|items| - 1])
  }

  /** All words of the output's sentences, in order. */
  function Flatten(items: seq<Item>): seq<Word>
  {
    if items == [] then []
    else
      Flatten(items[..|items| - 1]) +
      match items[|items| - 1]
      case Sentence(ws) => ws
      case Boundary => []
  }

  /** The words carried by a stream of marks, in order. */
  function WordsOf(ms: seq<Mark>): seq<Word>
  {
    if ms == [] then []
    else
      WordsOf(ms[..|ms| - 1]) +
      match ms[|ms| - 1]
      case Token(w) => [w]
      case Break => []
  }

  ghost predicate NoEmptySentence(items: seq<Item>)
  {
    forall j :: 0 <= j < |items| && items[j].Sentence? ==> items[j].words != []
  }

  /** A sentence is always closed by a boundary or the end of input, never by another sentence. */
  ghost predicate NoAdjacentSentences(items: seq<Item>)
  {
    forall j, k :: 0 <= j && k == j + 1 && k < |items| && items[j].Sentence? ==> items[k].Boundary?
  }

  /** The sentence still being collected, as the output it would become. */
  function Pending(buffer: seq<Word>): seq<Item>
  {
    if buffer == [] then [] else [Sentence(buffer)]
  }

  /** The output so far may be followed by a sentence: it is empty or ends with a boundary. */
  predicate OpenForSentence(items: seq<Item>)
  {
    items == [] || items[|items| - 1].Boundary?
  }

  /**
   * The grouping loop of `parse_input`: token lines are appended to a buffer;
   * a short line flushes a non-empty buffer as a sentence and then emits a
   * boundary; a non-empty buffer left at the end is flushed.
   */
  method ParseInput(lines: seq<seq<string>>, isUpper: char -> bool) returns (sentences: seq<Item>)
    requires WordsNonEmpty(lines)
    ensures Expand(sentences) == Marks(lines, isUpper)
    ensures NoEmptySentence(sentences)
    ensures NoAdjacentSentences(sentences)
  {
    sentences := [];
    var lastSentence: seq<Word> := [];
    for i := 0 to |lines|
      invariant Expand(sentences + Pending(lastSentence)) == Marks(lines[..i], isUpper)
      invariant NoEmptySentence(sentences)
      invariant NoAdjacentSentences(sentences)
      invariant OpenForSentence(sentences)
    {
      MarksSnoc(lines, i, isUpper);
      var line := lines[i];
      if |line| >= TokenFields {
        var word := MakeWord(line, isUpper);
        PendingGrows(sentences, lastSentence, word);
        lastSentence := lastSentence + [word];
      } else {
        ghost var before := sentences;
        if |lastSentence| > 0 {
          sentences := sentences + [Sentence(lastSentence)];
        }
        FlushedIs(before, lastSentence, sentences);
        Close(before, lastSentence);
        lastSentence := [];
        sentences := sentences + [Boundary];
        NothingPending(sentences);
      }
    }
    assert lines[..|lines|] == lines;
    ghost var before := sentences;
    if |lastSentence| > 0 {
      sentences := sentences + [Sentence(lastSentence)];
    }
    FlushedIs(before, lastSentence, sentences);
    Flush(before, lastSentence);
  }

  /** The buffer flush `if len(last_sentence) > 0: sentences.append(last_sentence)`. */
  lemma FlushedIs(before: seq<Item>, buffer: seq<Word>, after: seq<Item>)
    requires after == if |buffer| > 0 then before + [Sentence(buffer)] else before
    ensures after == before + Pending(buffer)
  {
    if buffer == [] {
      assert before + [] == before;
    }
  }

  lemma NothingPending(items: seq<Item>)
    ensures items + Pending([]) == items
  {
  }

  lemma MarksSnoc(lines: seq<seq<string>>, i: nat, isUpper: char -> bool)
    requires WordsNonEmpty(lines) && i < |lines|
    ensures WordsNonEmpty(lines[..i]) && WordsNonEmpty(lines[..i + 1])
    ensures Marks(lines[..i + 1], isUpper) == Marks(lines[..i], isUpper) + [MarkOf(lines[i], isUpper)]
  {
  }

  lemma ExpandSnoc(items: seq<Item>, x: Item)
    ensures Expand(items + [x]) == Expand(items) + ItemMarks(x)
  {
    assert (items + [x])[..|items|] == items;
  }

  /** Appending a word to the buffer appends its token to the expansion. */
  lemma PendingGrows(items: seq<Item>, buffer: seq<Word>, w: Word)
    ensures Expand(items + Pending(buffer + [w])) == Expand(items + Pending(buffer)) + [Token(w)]
  {
    assert items + Pending(buffer + [w]) == items + [Sentence(buffer + [w])];
    ExpandSnoc(items, Sentence(buffer + [w]));
    assert Tokens(buffer + [w]) == Tokens(buffer) + [Token(w)];
    if buffer == [] {
      NothingPending(items);
    } else {
      assert items + Pending(buffer) == items + [Sentence(buffer)];
      ExpandSnoc(items, Sentence(buffer));
    }
  }

  /** A short line: flushing the buffer and adding a boundary keeps the output well formed. */
  lemma Close(items: seq<Item>, buffer: seq<Word>)
    requires NoEmptySentence(items) && NoAdjacentSentences(items)
    requires buffer != [] ==> OpenForSentence(items)
    ensures NoEmptySentence(items + Pending(buffer) + [Boundary])
    ensures NoAdjacentSentences(items + Pending(buffer) + [Boundary])
    ensures Expand(items + Pending(buffer) + [Boundary]) == Expand(items + Pending(buffer)) + [Break]
    ensures OpenForSentence(items + Pending(buffer) + [Boundary])
  {
    ExpandSnoc(items + Pending(buffer), Boundary);
  }

  /** The end of input: flushing the buffer keeps the output well formed. */
  lemma Flush(items: seq<Item>, buffer: seq<Word>)
    requires NoEmptySentence(items) && NoAdjacentSentences(items)
    requires buffer != [] ==> OpenForSentence(items)
    ensures NoEmptySentence(items + Pending(buffer))
    ensures NoAdjacentSentences(items + Pending(buffer))
  {
  }

  // ---------------------------------------------------------------------
  // What the grouping promises, stated on the reader's output
  // ---------------------------------------------------------------------

  lemma {:induction false} WordsOfAppend(xs: seq<Mark>, ys: seq<Mark>)
    ensures WordsOf(xs + ys) == WordsOf(xs) + WordsOf(ys)
    decreases |ys|
  {
    if ys == [] {
      assert xs + ys == xs;
    } else {
      var init := ys[..|ys| - 1];
      assert (xs + ys)[..|xs + ys| - 1] == xs + init;
      WordsOfAppend(xs, init);
    }
  }

  lemma {:induction false} WordsOfTokens(ws: seq<Word>)
    ensures WordsOf(Tokens(ws)) == ws
    decreases |ws|
  {
    if ws != [] {
      var init := ws[..|ws| - 1];
      assert Tokens(ws)[..|ws| - 1] == Tokens(init);
      WordsOfTokens(init);
    }
  }

  /**
   * Reading the words back off the expanded output gives the sentences'
   * words: with ParseInput's first postcondition, the concatenated sentences
   * are exactly the words of the token lines, in input order.
   */
  lemma {:induction false} FlattenIsWordsOfExpand(items: seq<Item>)
    ensures Flatten(items) == WordsOf(Expand(items))
    decreases |items|
  {
    if items != [] {
      var init := items[..|items| - 1];
      FlattenIsWordsOfExpand(init);
      match items[|items| - 1]
      case Sentence(ws) =>
        WordsOfAppend(Expand(init), Tokens(ws));
        WordsOfTokens(ws);
      case Boundary =>
        WordsOfAppend(Expand(init), [Break]);
        assert [Break][..0] == [];
    }
  }

  /** The sentences of the output hold exactly the token lines' words, in input order. */
  lemma SentencesAreTokenLines(lines: seq<seq<string>>, isUpper: char -> bool, items: seq<Item>)
    requires WordsNonEmpty(lines)
    requires Expand(items) == Marks(lines, isUpper)
    ensures Flatten(items) == WordsOf(Marks(lines, isUpper))
  {
    FlattenIsWordsOfExpand(items);
  }

  /** Each boundary of the output stands for exactly one break, and sentences hold none. */
  lemma {:induction false} BoundariesAreBreaks(items: seq<Item>)
    ensures multiset(Expand(items))[Break] == multiset(items)[Boundary]
    decreases |items|
  {
    if items != [] {
      var init := items[..|items| - 1];
      BoundariesAreBreaks(init);
      assert items == init + [items[|items| - 1]];
      match items[|items| - 1]
      case Sentence(ws) =>
        assert Break !in Tokens(ws);
      case Boundary =>
    }
  }

  /** One boundary per short line: the count of boundaries equals the count of lines with fewer than five fields. */
  lemma BoundaryPerShortLine(lines: seq<seq<string>>, isUpper: char -> bool, items: seq<Item>)
    requires WordsNonEmpty(lines)
    requires Expand(items) == Marks(lines, isUpper)
    ensures multiset(items)[Boundary] == |set j | 0 <= j < |lines| && !IsTokenLine(lines[j])|
  {
    BoundariesAreBreaks(items);
    ShortLinesAreBreaks(lines, isUpper);
  }

  lemma {:induction false} ShortLinesAreBreaks(lines: seq<seq<string>>, isUpper: char -> bool)
    requires WordsNonEmpty(lines)
    ensures multiset(Marks(lines, isUpper))[Break] == |set j | 0 <= j < |lines| && !IsTokenLine(lines[j])|
    decreases |lines|
  {
    if lines != [] {
      var n := |lines| - 1;
      var init := lines[..n];
      assert WordsNonEmpty(init) by {
        forall j | 0 <= j < |init| && IsTokenLine(init[j]) ensures |init[j][0]| > 0 {
          assert init[j] == lines[j];
        }
      }
      ShortLinesAreBreaks(init, isUpper);
      assert Marks(lines, isUpper) == Marks(init, isUpper) + [MarkOf(lines[n], isUpper)];
      var before := set j | 0 <= j < |init| && !IsTokenLine(init[j]);
      var after := set j | 0 <= j < |lines| && !IsTokenLine(lines[j]);
      if IsTokenLine(lines[n]) {
        assert after == before;
      } else {
        assert after == before + {n};
      }
    }
  }

  lemma ExpandNonEmpty(items: seq<Item>)
    requires NoEmptySentence(items) && items != []
    ensures Expand(items) != []
  {
    var last := items[|items| - 1];
    assert last.Sentence? ==> |Tokens(last.words)| > 0;
  }

  /**
   * The three postconditions of ParseInput determine its output: two outputs
   * that spell out the same lines, with no empty sentence and no sentence
   * followed by a sentence, are equal.
   */
  lemma {:induction false} GroupingIsUnique(a: seq<Item>, b: seq<Item>)
    requires NoEmptySentence(a) && NoAdjacentSentences(a)
    requires NoEmptySentence(b) && NoAdjacentSentences(b)
    requires Expand(a) == Expand(b)
    ensures a == b
    decreases |a|
  {
    if a == [] || b == [] {
      if a != [] { ExpandNonEmpty(a); }
      if b != [] { ExpandNonEmpty(b); }
    } else {
      var a', b' := a[..|a| - 1], b[..|b| - 1];
      InitWellFormed(a);
      InitWellFormed(b);
      SameLastItem(a, b);
      GroupingIsUnique(a', b');
      assert a == a' + [a[|a| - 1]] && b == b' + [b[|b| - 1]];
    }
  }

  lemma InitWellFormed(a: seq<Item>)
    requires a != [] && NoEmptySentence(a) && NoAdjacentSentences(a)
    ensures NoEmptySentence(a[..|a| - 1]) && NoAdjacentSentences(a[..|a| - 1])
  {
    var a' := a[..|a| - 1];
    forall j | 0 <= j < |a'| ensures a'[j] == a[j] { }
  }

  /** Two well-formed outputs with the same expansion end with the same item, after equal expansions. */
  lemma SameLastItem(a: seq<Item>, b: seq<Item>)
    requires a != [] && NoEmptySentence(a) && NoAdjacentSentences(a)
    requires b != [] && NoEmptySentence(b) && NoAdjacentSentences(b)
    requires Expand(a) == Expand(b)
    ensures a[|a| - 1] == b[|b| - 1]
    ensures Expand(a[..|a| - 1]) == Expand(b[..|b| - 1])
  {
    var a', b' := a[..|a| - 1], b[..|b| - 1];
    var x, y := a[|a| - 1], b[|b| - 1];
    var e := Expand(a);
    assert e == Expand(a') + ItemMarks(x);
    assert e == Expand(b') + ItemMarks(y);
    TrailingTokensOfLast(a);
    TrailingTokensOfLast(b);
    match x
    case Boundary =>
      assert y.Boundary?;
      assert Expand(a') == e[..|e| - 1] == Expand(b');
    case Sentence(ws) =>
      assert y.Sentence?;
      var vs := y.words;
      var cut := |e| - |ws|;
      assert Expand(a') == e[..cut] == Expand(b');
      assert Tokens(ws) == e[cut..] == Tokens(vs);
      WordsOfTokens(ws);
      WordsOfTokens(vs);
  }

  /** How many tokens end a stream of marks, counting back to the last break. */
  function TrailingTokens(ms: seq<Mark>): nat
  {
    if ms == [] || ms[|ms| - 1].Break? then 0 else TrailingTokens(ms[..|ms| - 1]) + 1
  }

  /**
   * A sentence that follows a boundary (or starts the output) is the whole
   * run of tokens at the end of the expansion.
   */
  lemma {:induction false} TrailingTokensOfSentence(p: seq<Item>, ws: seq<Word>)
    requires OpenForSentence(p)
    ensures TrailingTokens(Expand(p) + Tokens(ws)) == |ws|
    decreases |ws|
  {
    var e := Expand(p) + Tokens(ws);
    if ws == [] {
      assert e == Expand(p);
      if p != [] {
        assert Expand(p) == Expand(p[..|p| - 1]) + [Break];
      }
    } else {
      var init := ws[..|ws| - 1];
      assert e[..|e| - 1] == Expand(p) + Tokens(init);
      TrailingTokensOfSentence(p, init);
    }
  }

  /** The run of tokens ending the expansion is the last sentence, or empty after a boundary. */
  lemma TrailingTokensOfLast(p: seq<Item>)
    requires p != [] && NoEmptySentence(p) && NoAdjacentSentences(p)
    ensures TrailingTokens(Expand(p)) == match p[|p| - 1] case Sentence(ws) => |ws| case Boundary => 0
  {
    var init := p[..|p| - 1];
    match p[|p| - 1]
    case Sentence(ws) =>
      assert |p| >= 2 ==> p[|p| - 2] == init[|init| - 1];
      TrailingTokensOfSentence(init, ws);
    case Boundary =>
  }
}
