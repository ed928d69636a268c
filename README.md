# Feature selection for Maxent semantic role labeling — verified model

`src/main.py` turns a tab-separated token corpus into one line of features
per token, for a maximum-entropy trainer. This project models its three
working parts in Dafny and proves what each one promises:

- **Corpus reader** (`corpus.dfy`, module `Corpus`): the grouping loop of
  `parse_input`. Token lines (five or more fields) are collected into a
  buffer. A shorter line flushes a non-empty buffer as a sentence and then
  emits a boundary (Python's `None`). A non-empty buffer left at the end of
  the input is flushed. `ParseInput` is a loop over the lines that keeps this
  buffer. Its result is specified by three facts, and `GroupingIsUnique` proves
  that these facts fix the output:
  - spelled back out line by line, the output gives every line's token or
    break, in input order;
  - no sentence is empty;
  - no sentence is directly followed by another sentence.
- **Context-window extractor** (`features.dfy`, module `Features`):
  `get_word_features`. It builds one `WordFeatures` record per token with:
  - the token's own word, stem, POS, BIO tag, capitalisation and label;
  - its position `i / n`;
  - the `"@@"` marker when a previous token exists;
  - POS, BIO tag, word and stem of the tokens at offsets −3…−1 and +1…+3,
    each present exactly when that offset lies inside the sentence.

  `GetWordFeatures` is the loop. `Describes` states what record `i` must
  hold, and the lemmas derive the window's properties from it.
- **Rendering and output** (`render.dfy` and `output.dfy`, modules `Render`
  and `Output`):
  - the per-record loop of `main`: the word first, then `KEY=value` for every
    present field other than `word` and `label`, in declaration order, then
    the label (or an empty field) unless `--strip` is set;
  - the outer loop that writes a blank line for each boundary and the
    rendered records for each sentence.

  The end-to-end lemma `OneOutputLinePerInputLine` gives exactly one output
  line per input line. A short line gives a blank line. A token line gives a
  line that starts with its word.

Two things the program gets from outside are parameters of the model:
- the Snowball stemmer is `stem: string -> string`;
- the `isupper` test on a word's first character is `isUpper: char -> bool`.

Both are total and deterministic.

`get_word_features` has no precondition that the sentence is non-empty. On
an empty sentence the loop body never runs, so the division `i / n` is never
reached, and the result is the empty list.

## Model

| member | source | states |
|---|---|---|
| Corpus.MakeWord | src/main.py:38-48 | a token line's word has a label exactly when the line has at least six fields, and that label is the sixth field |
| Corpus.ParseInput | src/main.py:35-57 | the grouped output, spelled back out, is each line's token or break in input order; no sentence is empty; a sentence is always followed by a boundary or the end of input, never by another sentence |
| Corpus.GroupingIsUnique | src/main.py:35-57 | the three postconditions of ParseInput determine its output: two outputs that satisfy them for the same lines are equal |
| Corpus.FlattenIsWordsOfExpand | src/main.py:35-57 | the words of all sentences, concatenated, are the words carried by the spelled-out stream, in order |
| Corpus.SentencesAreTokenLines | src/main.py:38-49 | flattening the emitted sentences gives exactly the words of the lines with at least five fields, in input order |
| Corpus.BoundariesAreBreaks | src/main.py:50-54 | each boundary in the output accounts for exactly one break in the spelled-out stream |
| Corpus.BoundaryPerShortLine | src/main.py:50-54 | the output holds exactly one boundary per line with fewer than five fields |
| Features.GetWordFeatures | src/main.py:95-208 | returns one record per token, in order; record `i` copies token `i`'s word, POS, BIO tag, capitalisation and label, has the stem of its word and position `i / n`, has "@@" as `previous_tag` exactly when `i >= 1`, and holds at each offset `k` the neighbour `i + k` when it is inside the sentence and nothing otherwise |
| Features.PositionsIncrease | src/main.py:100-103 | positions are `i / n` with `n > 0`: the first is 0, every one is in [0, 1), and they strictly increase along the sentence |
| Features.Previous | src/main.py:110-144 | the `if i >= k` block for the token `k` places back gives that token's POS, BIO tag, word and stem exactly when `0 <= i - k < n`, and all four absent otherwise |
| Features.Next | src/main.py:145-177 | the `if i <= sentence_len - (k + 1)` block for the token `k` places ahead gives that token's fields exactly when `i + k < n`, so no index falls outside the sentence |
| Features.WindowPresence | src/main.py:110-177 | for `k` in 1..3 the `previous_k` fields are present exactly when `i >= k`, the `next_k` fields exactly when `i + k <= n - 1`; `previous_tag` is present exactly when `i >= 1` and then equals "@@" |
| Features.WindowAllOrNothing | src/main.py:110-177 | at every offset the four window fields are all present or all absent |
| Features.WindowMatchesNeighbourRecord | src/main.py:110-177 | the window of record `i` at offset `k` holds the POS, BIO tag, word and stem that record `i + k` holds for its own token |
| Features.SingletonHasNoWindow | src/main.py:110-177 | in a one-token sentence all 24 window fields and `previous_tag` are absent and the position is 0/1 |
| Features.PresenceIgnoresContent | src/main.py:110-177 | which window fields are present, and `previous_tag`, depend only on the index and the sentence length, not on the words |
| Features.DescriptionIsUnique | src/main.py:178-206 | a record is determined by the sentence, its index and the stemmer |
| Features.FeaturesAreDeterministic | src/main.py:95-208 | two feature lists of the same sentence are equal |
| Render.RenderRecord | src/main.py:230-241 | the loop over the record's fields, with the word inserted in front and the label appended, produces the line `Rendered` describes |
| Render.KeyedCells | src/main.py:232-235 | the keyed columns are no more than the fields, and every one is a `KEY=value` column with a present value |
| Render.KeyedCellsAppend | src/main.py:232-235 | the keyed columns of two runs of fields are the columns of the first followed by those of the second, so field order is kept |
| Render.KeyedCellsExactlyShown | src/main.py:232-235 | a field gets a `KEY.upper()=value` column exactly when it is present and is neither `word` nor `label`: every such field appears, and every column comes from one |
| Render.UpperCasesLetters | src/main.py:235 | `key.upper()` on a field name turns each lower-case ASCII letter into its upper-case letter and leaves `_` and digits alone, so no lower-case letter remains and upper-casing again changes nothing |
| Render.ItemsInDeclarationOrder | src/main.py:178-206 | the record's fields, in the order `items()` walks them at src/main.py:232, carry exactly the declared names from `word` to `label`, window fields included, in declaration order |
| Render.RenderedShape | src/main.py:236-241 | the line starts with the word; without strip it ends with the label, or "" when there is none; with strip every field after the word is a `KEY=value` one |
| Render.StripDropsOnlyLabel | src/main.py:237-241 | the stripped line is the full line without its last (label) field |
| Render.LoneWordLine | src/main.py:232-241 | a record with an empty window renders as the word, STEM, POS, BIOTAG, POSITION and CAPITALIZED, then the label unless stripped |
| Output.SentenceRows | src/main.py:229-243 | a sentence's lines are the rendered records the extractor gives for it, one per token, in order |
| Output.WriteFeatures | src/main.py:225-243 | the written lines follow the reader's output: a blank line for each boundary and the sentence's rendered records for each sentence |
| Output.LinesAnswerMarks | src/main.py:225-243 | written lines correspond one to one to the spelled-out stream: a blank line to each break, a line starting with the word to each token |
| Output.OneOutputLinePerInputLine | src/main.py:225-243 | reading then writing gives exactly one output line per input line; it is blank exactly when the input line has fewer than five fields, and otherwise starts with that line's first field |

## Left out

- File I/O is not modelled: `open`, `readlines`, `f.write`, the tab join of a line's fields and the progress `print`s (src/main.py:30-31, 34, 223-244). The model starts from a sequence of lines and ends at a sequence of structured output lines.
- Argument parsing (`argparse`) is not modelled, and neither is the `fastprogress` progress bar. `--strip` is the `strip` parameter.
- The NLTK Snowball stemmer is a foreign library and is the parameter `stem`. The Unicode `str.isupper` test is the parameter `isUpper`.
- `line.strip()`, `split("\t")` and the per-field `strip()` (src/main.py:36-44) are not modelled. A line of the model is the list of fields that remain after the whole line has been stripped and split on tabs, each field stripped. The whole-line strip works at both ends, so empty fields at either end of a raw line are dropped before the split. A raw line with an empty first field loses that field and its other fields shift left (`"\tVB\tB-V\tX\tY\tL"` becomes a five-field token line with word `VB` and no label). A raw token line with an empty fifth and last field keeps only four fields and becomes a boundary. Producing the model's lines from raw text, these effects included, is left to whoever builds that input.
- The float value of `position` is kept as the exact pair `(i, n)`. `Fraction` gives its real value. Python's `str()` of the float and of `True`/`False` is not modelled: output values stay structured (`Value`).
- `Upper` only upper-cases ASCII letters. Every field name is ASCII, so this covers every key the program emits.
- The record field `label` is named `goldLabel`, because `label` is a reserved word in Dafny.
- `WordsNonEmpty` (every token line's first field is non-empty) is a precondition that every real input meets. After the whole-line strip a line cannot start with whitespace, so the first field of a token line always holds at least one character, and the `IndexError` of `word_str[0]` at src/main.py:40 cannot be reached. The precondition only records that fact for the model's lines.
