/**
 * The output loop of `main` in src/main.py: a blank line for every
 * boundary, and for every sentence one rendered line per feature record.
 * Lines stay structured (see Render); joining fields with tabs and writing
 * the file are not modelled.
 */
module Output {
  import opened Corpus
  import opened Features
  import opened Render

  /** One output line: blank (a boundary) or the fields of one record. */
  datatype Line = Blank | Row(cells: seq<Cell>)

  /** The lines of a run of records, one per record, in order. */
  function RowsFor(fs: seq<WordFeatures>, strip: bool): (rows: seq<Line>)
    ensures |rows| == |fs|
  {
    seq(|fs|, i requires 0 <= i < |fs| => Row(Rendered(fs[i], strip)))
  }

  /** `rows` are the rendered records that the extractor produces for sentence `ws`. */
  ghost predicate RowsOf(rows: seq<Line>, ws: seq<Word>, stem: string -> string, strip: bool)
  {
    exists fs :: FeaturesOf(fs, ws, stem) && rows == RowsFor(fs, strip)
  }

  /** `out` is what the output loop writes for the reader's output `items`. */
  ghost predicate Serializes(out: seq<Line>, items: seq<Item>, stem: string -> string, strip: bool)
    decreases |items|
  {
    if items == [] then out == []
    else
      var init := items[..|items| - 1];
      match items[|items| - 1]
      case Boundary =>
        out != [] && out[|out| - 1] == Blank && Serializes(out[..|out| - 1], init, stem, strip)
      case Sentence(ws) =>
        |ws| <= |out| && RowsOf(out[|out| - |ws|..], ws, stem, strip) &&
        Serializes(out[..|out| - |ws|], init, stem, strip)
  }

  /**
   * The loop over the reader's output: a boundary writes a blank line, a
   * sentence is run through the extractor and each record is rendered.
   */
  method WriteFeatures(sentences: seq<Item>, stem: string -> string, strip: bool) returns (out: seq<Line>)
    ensures Serializes(out, sentences, stem, strip)
  {
    out := [];
    for s := 0 to |sentences|
      invariant Serializes(out, sentences[..s], stem, strip)
    {
      assert sentences[..s + 1][..s] == sentences[..s];
      match sentences[s]
      case Boundary =>
        SerializesSnoc(out, sentences[..s], Boundary, [Blank], stem, strip);
        out := out + [Blank];
      case Sentence(ws) =>
        var rows := SentenceRows(ws, stem, strip);
        SerializesSnoc(out, sentences[..s], Sentence(ws), rows, stem, strip);
        out := out + rows;
    }
    assert sentences[..|sentences|] == sentences;
  }

  /** The `else` branch of the output loop: extract the sentence's records and render each one. */
  method SentenceRows(sentence: seq<Word>, stem: string -> string, strip: bool) returns (rows: seq<Line>)
    ensures RowsOf(rows, sentence, stem, strip)
  {
    var wordFeatures := GetWordFeatures(sentence, stem);
    rows := [];
    for j := 0 to |wordFeatures|
      invariant rows == RowsFor(wordFeatures[..j], strip)
    {
      var cells := RenderRecord(wordFeatures[j], strip);
      RowsForSnoc(wordFeatures, j, strip);
      rows := rows + [Row(cells)];
    }
    assert wordFeatures[..|wordFeatures|] == wordFeatures;
  }

  lemma RowsForSnoc(fs: seq<WordFeatures>, j: nat, strip: bool)
    requires j < |fs|
    ensures RowsFor(fs[..j + 1], strip) == RowsFor(fs[..j], strip) + [Row(Rendered(fs[j], strip))]
  {
  }

  lemma SerializesSnoc(out: seq<Line>, items: seq<Item>, x: Item, tail: seq<Line>, stem: string -> string, strip: bool)
    requires Serializes(out, items, stem, strip)
    requires x.Boundary? ==> tail == [Blank]
    requires x.Sentence? ==> RowsOf(tail, x.words, stem, strip)
    ensures Serializes(out + tail, items + [x], stem, strip)
  {
    var all := out + tail;
    assert (items + [x])[..|items|] == items;
    assert all[..|out|] == out && all[|out|..] == tail;
    if x.Sentence? {
      var fs :| FeaturesOf(fs, x.words, stem) && tail == RowsFor(fs, strip);
      assert |tail| == |x.words|;
    }
  }

  // ---------------------------------------------------------------------
  // One output line per input line
  // ---------------------------------------------------------------------

  /** An output line answers to a mark: a blank line to a break, a line starting with the word to a token. */
  ghost predicate Answers(l: Line, m: Mark)
  {
    match m
    case Break => l == Blank
    case Token(w) => l.Row? && |l.cells| > 0 && l.cells[0] == Bare(w.word)
  }

  /** Each line answers to the mark at the same place. */
  ghost predicate AllAnswer(out: seq<Line>, ms: seq<Mark>)
  {
    |out| == |ms| && forall j :: 0 <= j < |out| ==> Answers(out[j], ms[j])
  }

  lemma AllAnswerAppend(out: seq<Line>, ms: seq<Mark>, out': seq<Line>, ms': seq<Mark>)
    requires AllAnswer(out, ms) && AllAnswer(out', ms')
    ensures AllAnswer(out + out', ms + ms')
  {
    forall j | 0 <= j < |out + out'| ensures Answers((out + out')[j], (ms + ms')[j]) {
      if j >= |out| {
        assert (out + out')[j] == out'[j - |out|] && (ms + ms')[j] == ms'[j - |ms|];
      }
    }
  }

  /** The rows of a sentence start with its words, in order. */
  lemma RowsStartWithWords(rows: seq<Line>, ws: seq<Word>, stem: string -> string, strip: bool)
    requires RowsOf(rows, ws, stem, strip)
    ensures AllAnswer(rows, Tokens(ws))
  {
    var fs :| FeaturesOf(fs, ws, stem) && rows == RowsFor(fs, strip);
    forall i | 0 <= i < |rows| ensures Answers(rows[i], Tokens(ws)[i]) {
      assert Describes(fs[i], ws, i, stem);
      RenderedShape(fs[i], strip);
    }
  }

  /**
   * The written lines answer one to one to the reader's output spelled out
   * line by line: a blank line for every boundary, and for every word of a
   * sentence a line that starts with that word.
   */
  lemma {:induction false} LinesAnswerMarks(out: seq<Line>, items: seq<Item>, stem: string -> string, strip: bool)
    requires Serializes(out, items, stem, strip)
    ensures AllAnswer(out, Expand(items))
    decreases |items|
  {
    if items != [] {
      var x, init := items[|items| - 1], items[..|items| - 1];
      var cut := LastItemLines(out, items, stem, strip);
      LinesAnswerMarks(out[..cut], init, stem, strip);
      ItemLinesAnswer(out[..cut], Expand(init), out[cut..], x, stem, strip);
      assert out == out[..cut] + out[cut..];
      assert items == init + [x];
      ExpandSnoc(init, x);
    }
  }

  /** Where the lines of the last item start, and what they are. */
  lemma LastItemLines(out: seq<Line>, items: seq<Item>, stem: string -> string, strip: bool) returns (cut: nat)
    requires items != [] && Serializes(out, items, stem, strip)
    ensures cut <= |out| && Serializes(out[..cut], items[..|items| - 1], stem, strip)
    ensures items[|items| - 1].Boundary? ==> out[cut..] == [Blank]
    ensures items[|items| - 1].Sentence? ==> RowsOf(out[cut..], items[|items| - 1].words, stem, strip)
  {
    match items[|items| - 1]
    case Boundary =>
      cut := |out| - 1;
    case Sentence(ws) =>
      cut := |out| - |ws|;
  }

  /** The lines one item writes answer to that item's marks. */
  lemma ItemLinesAnswer(prefix: seq<Line>, ms: seq<Mark>, tail: seq<Line>, x: Item, stem: string -> string, strip: bool)
    requires AllAnswer(prefix, ms)
    requires x.Boundary? ==> tail == [Blank]
    requires x.Sentence? ==> RowsOf(tail, x.words, stem, strip)
    ensures AllAnswer(prefix + tail, ms + ItemMarks(x))
  {
    if x.Sentence? {
      RowsStartWithWords(tail, x.words, stem, strip);
    } else {
      assert Answers(tail[0], Break);
    }
    AllAnswerAppend(prefix, ms, tail, ItemMarks(x));
  }

  /**
   * From input lines to output lines: reading the corpus and writing the
   * features gives exactly one output line per input line; a line with
   * fewer than five fields gives a blank line, and a token line gives a
   * line that starts with its word.
   */
  lemma OneOutputLinePerInputLine(lines: seq<seq<string>>, isUpper: char -> bool, items: seq<Item>,
                                  out: seq<Line>, stem: string -> string, strip: bool)
    requires WordsNonEmpty(lines)
    requires Expand(items) == Marks(lines, isUpper)
    requires Serializes(out, items, stem, strip)
    ensures |out| == |lines|
    ensures forall j :: 0 <= j < |lines| ==> (out[j] == Blank <==> !IsTokenLine(lines[j]))
    ensures forall j :: 0 <= j < |lines| && IsTokenLine(lines[j]) ==>
              out[j].Row? && |out[j].cells| > 0 && out[j].cells[0] == Bare(lines[j][0])
  {
    LinesAnswerMarks(out, items, stem, strip);
    forall j | 0 <= j < |lines| ensures Answers(out[j], MarkOf(lines[j], isUpper)) {
      assert Marks(lines, isUpper)[j] == MarkOf(lines[j], isUpper);
    }
  }
}
