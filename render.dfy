/**
 * Rendering of one feature record as the fields of an output line (the
 * per-record loop of `main` in src/main.py). Fields stay structured: a bare
 * text field, or a `KEY=value` field whose value is kept as a Value; the
 * textual form of a position or a flag is not modelled.
 */
module Render {
  import opened Wrappers
  import opened Features

  /** The value of one record field, as Python holds it. `Null` is `None`. */
  datatype Value = Text(text: string) | Ratio(position: Position) | Flag(flag: bool) | Null

  /** One output field: the word or the label as they are, or `KEY=value`. */
  datatype Cell = Bare(text: string) | KeyValue(key: string, value: Value)

  function OptionValue(o: Option<string>): Value
  {
    match o
    case Some(s) => Text(s)
    case None => Null
  }

  /** The four window fields at one offset, named with the offset's prefix. */
  function WindowItems(prefix: string, nb: Neighbour): seq<(string, Value)>
  {
    [ (prefix + "pos", OptionValue(nb.pos)),
      (prefix + "biotag", OptionValue(nb.biotag)),
      (prefix + "word", OptionValue(nb.word)),
      (prefix + "stem", OptionValue(nb.stem)) ]
  }

  /** The record's own attributes: the first five fields. */
  function OwnItems(f: WordFeatures): seq<(string, Value)>
  {
    [ ("word", Text(f.word)),
      ("stem", Text(f.stem)),
      ("pos", Text(f.pos)),
      ("biotag", Text(f.biotag)),
      ("position", Ratio(f.position)) ]
  }

  /** The marker and the six offsets' fields. */
  function ContextItems(f: WordFeatures): seq<(string, Value)>
  {
    [("previous_tag", OptionValue(f.previous_tag))]
    + WindowItems("previous_", Slot(f, -1))
    + WindowItems("previous_2_", Slot(f, -2))
    + WindowItems("previous_3_", Slot(f, -3))
    + WindowItems("next_", Slot(f, 1))
    + WindowItems("next_2_", Slot(f, 2))
    + WindowItems("next_3_", Slot(f, 3))
  }

  /** The flag and the label: the last two fields. */
  function TailItems(f: WordFeatures): seq<(string, Value)>
  {
    [("capitalized", Flag(f.capitalized)), ("label", OptionValue(f.goldLabel))]
  }

  /** The names of the record's fields, in the order the record type declares them. */
  const FieldNames: seq<string> :=
    ["word", "stem", "pos", "biotag", "position"]
    + ( ["previous_tag"]
      + ["previous_pos", "previous_biotag", "previous_word", "previous_stem"]
      + ["previous_2_pos", "previous_2_biotag", "previous_2_word", "previous_2_stem"]
      + ["previous_3_pos", "previous_3_biotag", "previous_3_word", "previous_3_stem"]
      + ["next_pos", "next_biotag", "next_word", "next_stem"]
      + ["next_2_pos", "next_2_biotag", "next_2_word", "next_2_stem"]
      + ["next_3_pos", "next_3_biotag", "next_3_word", "next_3_stem"])
    + ["capitalized", "label"]

  /**
   * The record's `items()`: every field name with its value, in declaration
   * order; the window fields carry the neighbour at their own offset.
   */
  function Items(f: WordFeatures): seq<(string, Value)>
  {
    OwnItems(f) + ContextItems(f) + TailItems(f)
  }

  /** The field names of a run of fields, in order. */
  function Keys(items: seq<(string, Value)>): seq<string>
  {
    seq(|items|, j requires 0 <= j < |items| => items[j].0)
  }

  lemma KeysAppend(xs: seq<(string, Value)>, ys: seq<(string, Value)>)
    ensures Keys(xs + ys) == Keys(xs) + Keys(ys)
  {
  }

  lemma WindowKeys(prefix: string, nb: Neighbour, keys: seq<string>)
    requires |keys| == 4
    requires keys[0] == prefix + "pos" && keys[1] == prefix + "biotag"
    requires keys[2] == prefix + "word" && keys[3] == prefix + "stem"
    ensures Keys(WindowItems(prefix, nb)) == keys
  {
  }

  /**
   * `items()` walks the record's fields in declaration order: its keys are
   * exactly the declared field names, window fields included.
   */
  lemma ItemsInDeclarationOrder(f: WordFeatures)
    ensures Keys(Items(f)) == FieldNames
  {
    KeysAppend(OwnItems(f) + ContextItems(f), TailItems(f));
    KeysAppend(OwnItems(f), ContextItems(f));
    assert Keys(OwnItems(f)) == ["word", "stem", "pos", "biotag", "position"];
    ContextKeys(f);
    assert Keys(TailItems(f)) == ["capitalized", "label"];
  }

  lemma ContextKeys(f: WordFeatures)
    ensures Keys(ContextItems(f)) ==
            ["previous_tag"]
            + ["previous_pos", "previous_biotag", "previous_word", "previous_stem"]
            + ["previous_2_pos", "previous_2_biotag", "previous_2_word", "previous_2_stem"]
            + ["previous_3_pos", "previous_3_biotag", "previous_3_word", "previous_3_stem"]
            + ["next_pos", "next_biotag", "next_word", "next_stem"]
            + ["next_2_pos", "next_2_biotag", "next_2_word", "next_2_stem"]
            + ["next_3_pos", "next_3_biotag", "next_3_word", "next_3_stem"]
  {
    var w1, w2, w3 := WindowItems("previous_", Slot(f, -1)), WindowItems("previous_2_", Slot(f, -2)), WindowItems("previous_3_", Slot(f, -3));
    var w4, w5, w6 := WindowItems("next_", Slot(f, 1)), WindowItems("next_2_", Slot(f, 2)), WindowItems("next_3_", Slot(f, 3));
    var marker := [("previous_tag", OptionValue(f.previous_tag))];
    KeysAppend(marker + w1 + w2 + w3 + w4 + w5, w6);
    KeysAppend(marker + w1 + w2 + w3 + w4, w5);
    KeysAppend(marker + w1 + w2 + w3, w4);
    KeysAppend(marker + w1 + w2, w3);
    KeysAppend(marker + w1, w2);
    KeysAppend(marker, w1);
    assert Keys(marker) == ["previous_tag"];
    WindowKeys("previous_", Slot(f, -1), ["previous_pos", "previous_biotag", "previous_word", "previous_stem"]);
    WindowKeys("previous_2_", Slot(f, -2), ["previous_2_pos", "previous_2_biotag", "previous_2_word", "previous_2_stem"]);
    WindowKeys("previous_3_", Slot(f, -3), ["previous_3_pos", "previous_3_biotag", "previous_3_word", "previous_3_stem"]);
    WindowKeys("next_", Slot(f, 1), ["next_pos", "next_biotag", "next_word", "next_stem"]);
    WindowKeys("next_2_", Slot(f, 2), ["next_2_pos", "next_2_biotag", "next_2_word", "next_2_stem"]);
    WindowKeys("next_3_", Slot(f, 3), ["next_3_pos", "next_3_biotag", "next_3_word", "next_3_stem"]);
  }

  /** `str.upper` on the ASCII letters the field names are made of. */
  function UpperChar(c: char): char
  {
    if 'a' <= c <= 'z' then (c as int - 32) as char else c
  }

  function Upper(s: string): (r: string)
    ensures |r| == |s|
  {
    seq(|s|, j requires 0 <= j < |s| => UpperChar(s[j]))
  }

  /**
   * `Upper` changes exactly the lower-case ASCII letters, each to its
   * upper-case letter, leaving `_`, digits and everything else alone; applying
   * it twice changes nothing more.
   */
  lemma UpperCasesLetters(s: string)
    ensures forall j :: 0 <= j < |s| && 'a' <= s[j] <= 'z' ==>
              'A' <= Upper(s)[j] <= 'Z' && Upper(s)[j] as int == s[j] as int - 32
    ensures forall j :: 0 <= j < |s| && !('a' <= s[j] <= 'z') ==> Upper(s)[j] == s[j]
    ensures forall j :: 0 <= j < |s| ==> !('a' <= Upper(s)[j] <= 'z')
    ensures Upper(Upper(s)) == Upper(s)
  {
    var u := Upper(s);
    forall j | 0 <= j < |s| ensures Upper(u)[j] == u[j] {
      assert !('a' <= u[j] <= 'z');
    }
  }

  /** A field that gets a `KEY=value` column: present, and neither the word nor the label. */
  predicate Shown(item: (string, Value))
  {
    item.1 != Null && item.0 != "word" && item.0 != "label"
  }

  /** The `KEY=value` columns of a run of fields, in order. */
  function KeyedCells(items: seq<(string, Value)>): (cells: seq<Cell>)
    ensures |cells| <= |items|
    ensures forall c :: c in cells ==> c.KeyValue? && c.value != Null
  {
    if items == [] then []
    else
      var item := items[|items| - 1];
      KeyedCells(items[..|items| - 1]) + if Shown(item) then [KeyValue(Upper(item.0), item.1)] else []
  }

  /** The label column: the label, or the empty string when there is none. */
  function LabelText(goldLabel: Option<string>): string
  {
    match goldLabel
    case Some(l) => l
    case None => ""
  }

  /** The fields of the output line of record `f`. */
  function Rendered(f: WordFeatures, strip: bool): seq<Cell>
  {
    [Bare(f.word)] + KeyedCells(Items(f)) + if strip then [] else [Bare(LabelText(f.goldLabel))]
  }

  /**
   * The rendering loop for one record: a `KEY=value` field for every
   * present field but the word and the label, then the word in front and,
   * unless labels are stripped, the label (or an empty field) at the end.
   */
  method RenderRecord(wordFeature: WordFeatures, strip: bool) returns (cells: seq<Cell>)
    ensures cells == Rendered(wordFeature, strip)
  {
    var items := Items(wordFeature);
    var wordFeatureStrList: seq<Cell> := [];
    for j := 0 to |items|
      invariant wordFeatureStrList == KeyedCells(items[..j])
    {
      assert items[..j + 1][..j] == items[..j];
      var (key, value) := items[j];
      if value == Null || key == "word" || key == "label" {
        continue;
      }
      wordFeatureStrList := wordFeatureStrList + [KeyValue(Upper(key), value)];
    }
    assert items[..|items|] == items;
    wordFeatureStrList := [Bare(wordFeature.word)] + wordFeatureStrList;
    if !strip {
      if wordFeature.goldLabel.Some? {
        wordFeatureStrList := wordFeatureStrList + [Bare(wordFeature.goldLabel.value)];
      } else {
        wordFeatureStrList := wordFeatureStrList + [Bare("")];
      }
    }
    cells := wordFeatureStrList;
  }

  // ---------------------------------------------------------------------
  // Properties of a rendered line
  // ---------------------------------------------------------------------

  /** The keyed columns keep the fields' order: rendering distributes over concatenation. */
  lemma {:induction false} KeyedCellsAppend(xs: seq<(string, Value)>, ys: seq<(string, Value)>)
    ensures KeyedCells(xs + ys) == KeyedCells(xs) + KeyedCells(ys)
    decreases |ys|
  {
    if ys == [] {
      assert xs + ys == xs;
    } else {
      var init := ys[..|ys| - 1];
      assert (xs + ys)[..|xs + ys| - 1] == xs + init;
      KeyedCellsAppend(xs, init);
    }
  }

  /**
   * A field gets a `KEY=value` column exactly when it is shown: every shown
   * field appears, and every column comes from a shown field.
   */
  lemma {:induction false} KeyedCellsExactlyShown(items: seq<(string, Value)>)
    ensures forall j :: 0 <= j < |items| && Shown(items[j]) ==> KeyValue(Upper(items[j].0), items[j].1) in KeyedCells(items)
    ensures forall c :: c in KeyedCells(items) ==>
              exists j :: 0 <= j < |items| && Shown(items[j]) && c == KeyValue(Upper(items[j].0), items[j].1)
    decreases |items|
  {
    if items != [] {
      var n := |items| - 1;
      var init := items[..n];
      KeyedCellsExactlyShown(init);
      forall j | 0 <= j < n ensures items[j] == init[j] { }
    }
  }

  /**
   * The rendered line starts with the word; without `--strip` it ends with
   * the label or an empty field, and with `--strip` every field after the
   * word is a `KEY=value` one.
   */
  lemma RenderedShape(f: WordFeatures, strip: bool)
    ensures Rendered(f, strip)[0] == Bare(f.word)
    ensures !strip ==> Rendered(f, strip)[|Rendered(f, strip)| - 1] == Bare(LabelText(f.goldLabel))
    ensures !strip ==> (f.goldLabel.None? ==> Rendered(f, strip)[|Rendered(f, strip)| - 1] == Bare(""))
    ensures strip ==> forall j :: 1 <= j < |Rendered(f, strip)| ==> Rendered(f, strip)[j].KeyValue?
  {
    if strip {
      var r := Rendered(f, strip);
      assert r == [Bare(f.word)] + KeyedCells(Items(f));
      forall j | 1 <= j < |r| ensures r[j].KeyValue? {
        assert r[j] in KeyedCells(Items(f));
      }
    }
  }

  /** `--strip` changes nothing but dropping the last (label) field. */
  lemma StripDropsOnlyLabel(f: WordFeatures)
    ensures var full := Rendered(f, false);
            |full| >= 2 && Rendered(f, true) == full[..|full| - 1]
  {
  }

  lemma KeyedCellsSnoc(xs: seq<(string, Value)>, x: (string, Value))
    ensures KeyedCells(xs + [x]) == KeyedCells(xs) + if Shown(x) then [KeyValue(Upper(x.0), x.1)] else []
  {
    assert (xs + [x])[..|xs|] == xs;
  }

  /** An absent offset contributes no column. */
  lemma AbsentWindowHidden(prefix: string)
    ensures KeyedCells(WindowItems(prefix, Absent)) == []
  {
    var w := WindowItems(prefix, Absent);
    assert w == [w[0]] + [w[1]] + [w[2]] + [w[3]];
    KeyedCellsSnoc([], w[0]);
    KeyedCellsSnoc([w[0]], w[1]);
    KeyedCellsSnoc([w[0]] + [w[1]], w[2]);
    KeyedCellsSnoc([w[0]] + [w[1]] + [w[2]], w[3]);
  }

  /** The column names of the fields that every line carries. */
  lemma UpperKeys()
    ensures Upper("stem") == "STEM" && Upper("pos") == "POS" && Upper("biotag") == "BIOTAG"
    ensures Upper("position") == "POSITION" && Upper("capitalized") == "CAPITALIZED"
  {
  }

  lemma OwnColumns(f: WordFeatures)
    ensures KeyedCells(OwnItems(f)) ==
            [ KeyValue("STEM", Text(f.stem)),
              KeyValue("POS", Text(f.pos)),
              KeyValue("BIOTAG", Text(f.biotag)),
              KeyValue("POSITION", Ratio(f.position)) ]
  {
    var own := OwnItems(f);
    UpperKeys();
    KeyedCellsSnoc([], own[0]);
    KeyedCellsSnoc(own[..1], own[1]);
    KeyedCellsSnoc(own[..2], own[2]);
    KeyedCellsSnoc(own[..3], own[3]);
    KeyedCellsSnoc(own[..4], own[4]);
    assert [] + [own[0]] == own[..1] && own[..1] + [own[1]] == own[..2];
    assert own[..2] + [own[2]] == own[..3] && own[..3] + [own[3]] == own[..4];
    assert own[..4] + [own[4]] == own;
    assert Shown(own[1]) && Shown(own[2]) && Shown(own[3]) && Shown(own[4]) && !Shown(own[0]);
  }

  lemma NoContextColumns(f: WordFeatures)
    requires WindowEmpty(f)
    ensures KeyedCells(ContextItems(f)) == []
  {
    var marker := [("previous_tag", OptionValue(f.previous_tag))];
    var w1, w2, w3 := WindowItems("previous_", Slot(f, -1)), WindowItems("previous_2_", Slot(f, -2)), WindowItems("previous_3_", Slot(f, -3));
    var w4, w5, w6 := WindowItems("next_", Slot(f, 1)), WindowItems("next_2_", Slot(f, 2)), WindowItems("next_3_", Slot(f, 3));
    KeyedCellsSnoc([], marker[0]);
    assert [] + [marker[0]] == marker;
    AbsentWindowHidden("previous_");
    AbsentWindowHidden("previous_2_");
    AbsentWindowHidden("previous_3_");
    AbsentWindowHidden("next_");
    AbsentWindowHidden("next_2_");
    AbsentWindowHidden("next_3_");
    KeyedCellsAppend(marker, w1);
    KeyedCellsAppend(marker + w1, w2);
    KeyedCellsAppend(marker + w1 + w2, w3);
    KeyedCellsAppend(marker + w1 + w2 + w3, w4);
    KeyedCellsAppend(marker + w1 + w2 + w3 + w4, w5);
    KeyedCellsAppend(marker + w1 + w2 + w3 + w4 + w5, w6);
  }

  lemma TailColumns(f: WordFeatures)
    ensures KeyedCells(TailItems(f)) == [KeyValue("CAPITALIZED", Flag(f.capitalized))]
  {
    var tail := TailItems(f);
    UpperKeys();
    KeyedCellsSnoc([], tail[0]);
    KeyedCellsSnoc([tail[0]], tail[1]);
    assert [] + [tail[0]] == [tail[0]] && [tail[0]] + [tail[1]] == tail;
  }

  /**
   * The line of a record with an empty window (the only record of a
   * one-token sentence) holds the word, STEM, POS, BIOTAG, POSITION,
   * CAPITALIZED and, unless stripped, the label field.
   */
  lemma LoneWordLine(f: WordFeatures, strip: bool)
    requires WindowEmpty(f)
    ensures Rendered(f, strip) ==
            [ Bare(f.word),
              KeyValue("STEM", Text(f.stem)),
              KeyValue("POS", Text(f.pos)),
              KeyValue("BIOTAG", Text(f.biotag)),
              KeyValue("POSITION", Ratio(f.position)),
              KeyValue("CAPITALIZED", Flag(f.capitalized)) ]
            + if strip then [] else [Bare(LabelText(f.goldLabel))]
  {
    OwnColumns(f);
    NoContextColumns(f);
    TailColumns(f);
    KeyedCellsAppend(OwnItems(f), ContextItems(f));
    KeyedCellsAppend(OwnItems(f) + ContextItems(f), TailItems(f));
  }
}
