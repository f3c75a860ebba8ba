# Frame processor, modelled in Dafny

The frame processor turns directories of comma-separated text files into a
list of "popular" frame ids. Each line `<id>,<p1>,<p2>,<p3>` becomes a
`Frame` record. A file that holds even one such line with a non-decimal id
contributes no frames at all. The frames of all files are counted per id.
An id is kept when its count, as a percentage of all frames, is strictly
above a threshold.

The model covers:

- the `Frame` class of `frame-processor/data.py`. It is a Dafny class with
  the two fields the setters overwrite. `FrameRecord` is the value the class
  holds.
- the four steps of `frame-processor/process_frames.py`:
  - parsing one file's lines (`process_file`);
  - the counting loop (`process_frames`);
  - the threshold filter (`extract_percentile`);
  - the computing part of `main`.

Modules: `Wrappers` (Option/Result), `Text` (the Python string operations
used), `Data`, `Parser`, `Aggregator`, `Selector`, `Pipeline`, and
`Scenarios` (worked end-to-end examples).

Modelling choices:

- A file is the sequence of its lines. The directory is the sequence of its
  files in listing order.
- A raised `FrameInputError` is an `Err` result.
- The Python dict keeps insertion order, so the occurrence map is its key
  order plus a map of counts. The selected ids therefore come out in the
  order in which each id first appears.
- The threshold is a `real`, and the share `count / total * 100` is
  computed exactly.
- `ExtractPercentile` returns `None` for the `ZeroDivisionError` that a zero
  total raises on a non-empty map. `Run` is proved never to reach that case.
- `str.isdecimal()` is modelled as "non-empty and all ASCII `0`-`9`".
- `str.split(",")` keeps empty fields, so an empty line gives one field.

Where the documentation and the code differ, the model follows the code.
The docstring of `extract_percentile` speaks of ids "present in at least
percentile of the files". The code keeps an id whose share of all frames is
strictly above the threshold.

## Model

| member | source | states |
|---|---|---|
| `Text.IsDecimal` | frame-processor/data.py:10 | defines `isdecimal()` as non-empty and made only of the digits `0`-`9` |
| `Text.RemoveNewlines` | frame-processor/process_frames.py:27 | `replace('\n', '')`: the result has no line feed, is shorter by the number of line feeds, and keeps the count of every other character |
| `Text.RemoveNewlinesAppend` | frame-processor/process_frames.py:27 | removal works piece by piece: removing from `a + b` gives the removal from `a` followed by the removal from `b`, so the kept characters stay in order |
| `Text.RemoveTerminator` | frame-processor/process_frames.py:27 | the line feed that ends a line as read from a file is removed and the rest of the line is kept as it is |
| `Text.RemoveNewlinesNoop` | frame-processor/process_frames.py:27 | a line with no line feed is left unchanged |
| `Text.Split` | frame-processor/process_frames.py:27 | `split(",")` gives one field more than there are separators, and no field contains the separator |
| `Text.JoinSplit` | frame-processor/process_frames.py:27 | joining the fields of a split with the separator gives back the line |
| `Text.SplitJoin` | frame-processor/process_frames.py:27 | splitting the join of separator-free fields gives back exactly those fields, empty ones included |
| `Parser.Fields` | frame-processor/process_frames.py:27 | a line has as many fields as commas plus one; line feeds do not affect the count |
| `Parser.FieldsOfTerminatedLine` | frame-processor/process_frames.py:27 | a line with its final line feed has the same fields as the line without it |
| `Parser.FieldsOfTerminatedRecord` | frame-processor/process_frames.py:27 | a comma-joined record of plain fields followed by a line feed, as `readlines` yields it, reads back as exactly those fields |
| `Parser.FieldsOfJoin` | frame-processor/process_frames.py:27 | a comma-joined record of plain fields is read back as those fields |
| `Parser.FieldsOfPlainText` | frame-processor/process_frames.py:27 | a line with neither a comma nor a line feed is one field, the line itself |
| `Data.FrameRecord.Valid` | frame-processor/data.py:7-11 | defines the `Frame` invariant that construction and both setters keep: the id is decimal and there are at least 3 parameters |
| `Data.NewFrame` | frame-processor/data.py:6-14 | construction succeeds exactly when there are at least 3 arguments and the id is decimal; then the record holds the id and all the arguments, in order |
| `Data.LengthCheckedFirst` | frame-processor/data.py:7-8 | fewer than 3 arguments raise "too short" with the count, even when the id is bad too |
| `Data.EmptyIdRejected` | frame-processor/data.py:10-11 | the empty id is rejected as not numeric |
| `Data.Frame.Create` | frame-processor/data.py:6-14 | `Frame(...)` raises exactly the error of `NewFrame`; otherwise it returns a new, valid object holding the id and all the arguments |
| `Data.Frame.SetFrameId` | frame-processor/data.py:23-26 | the id is replaced only by an all-digit value and is otherwise kept without error; the parameters are unchanged and validity is preserved |
| `Data.Frame.SetParameters` | frame-processor/data.py:32-35 | the parameters are replaced only by more than two values and are otherwise kept; the id is unchanged and validity is preserved |
| `Data.Render` | frame-processor/data.py:16-17 | defines the `__str__` text: the id, ':', then the first three parameters separated by single spaces |
| `Data.Frame.ToString` | frame-processor/data.py:16-17 | `__str__` of an object: `Render` of its current record, defined for every frame that keeps the `Frame` invariant |
| `Data.RenderRoundTrip` | frame-processor/data.py:16-17 | `__str__` is `<id>:<p0> <p1> <p2>`: from a valid frame whose first three parameters have no ':' or ' ', the id and exactly those three parameters can be read back |
| `Data.RenderIgnoresExtraParameters` | frame-processor/data.py:16-17 | parameters after the third do not change the rendering |
| `Data.Values` | frame-processor/data.py:19-30 | the getters: the record of each frame is its current id and parameters |
| `Parser.ParseStep` | frame-processor/process_frames.py:29-32 | defines one line's step of the comprehension: an earlier error is kept, a line without exactly 4 fields is skipped, otherwise `Frame(fields[0], fields[1:])` either raises or appends its record |
| `Parser.ParseLines` | frame-processor/process_frames.py:28-32 | defines the comprehension over all the lines as `ParseStep` applied to each line in order |
| `Parser.FileFrames` | frame-processor/process_frames.py:24-33 | defines the result of `process_file`: the frames of the comprehension, or none when it raised |
| `Parser.ParseLinesMeaning` | frame-processor/process_frames.py:28-32 | the comprehension raises exactly when some 4-field line has a non-decimal id, and the error is then always "not numeric"; otherwise it yields one frame per 4-field line, in line order, with field 0 as id and fields 1..3 as parameters |
| `Parser.FileFramesWhenAllValid` | frame-processor/process_frames.py:29 | when every 4-field line has a decimal id, the file gives one valid frame per such line, in order, with the fields as id and parameters |
| `Parser.FileFramesWhenSomeIdBad` | frame-processor/process_frames.py:28-32 | one 4-field line with a non-decimal id makes the whole file give no frames, however many valid lines precede it |
| `Parser.SkippedLineChangesNothing` | frame-processor/process_frames.py:29 | inserting a line whose field count is not 4 anywhere changes neither the candidate lines nor the file's frames |
| `Parser.ErrorPersists` | frame-processor/process_frames.py:29-32 | once a construction has raised, no later line can bring frames back |
| `Parser.FileFramesValid` | frame-processor/process_frames.py:29 | every frame a file gives keeps the `Frame` invariant |
| `Parser.CandidatesAppend` | frame-processor/process_frames.py:29 | the 4-field lines of concatenated line lists are the concatenation of each list's 4-field lines |
| `Parser.ProcessFile` | frame-processor/process_frames.py:24-33 | a loop that builds the `Frame` objects line by line and returns none once a construction raises; the records of its result are `FileFrames` and every frame is new and valid |
| `Aggregator.Tally` | frame-processor/process_frames.py:36-44 | defines the dict after counting the ids in order: a key with a non-zero count is incremented, otherwise it is set to 1 and appended if new |
| `Aggregator.TallyMeaning` | frame-processor/process_frames.py:36-44 | the keys are exactly the ids that occur, each once; each count is the number of frames with that id, so at least 1 |
| `Aggregator.TallySum` | frame-processor/process_frames.py:38-43 | the counts add up to the number of frames counted |
| `Aggregator.TallyPermutation` | frame-processor/process_frames.py:38-43 | permuting the frames gives the same counts |
| `Aggregator.TallyKeysInFirstOccurrenceOrder` | frame-processor/process_frames.py:40-43 | the dict's iteration order is the order in which each id first occurs |
| `Aggregator.ProcessFrames` | frame-processor/process_frames.py:36-44 | the loop over the frame objects builds exactly `Tally` of their ids, key order included |
| `Selector.Exceeds` | frame-processor/process_frames.py:49 | defines the filter test `count / total * 100 > percentile`, over exact reals |
| `Selector.Select` | frame-processor/process_frames.py:49 | an id is kept exactly when it is a key whose share strictly exceeds the threshold; the result keeps the key order and has no duplicates |
| `Selector.ExtractPercentile` | frame-processor/process_frames.py:47-49 | raises division by zero exactly when the total is 0 and the map is non-empty; otherwise it gives the qualifying keys, without duplicates and in the map's order |
| `Selector.ExceedsCrossMultiplied` | frame-processor/process_frames.py:49 | with a positive total, `count / total * 100 > p` holds exactly when `count * 100 > p * total` |
| `Selector.AtThresholdExcluded` | frame-processor/process_frames.py:49 | a share exactly equal to the threshold is not selected |
| `Selector.SelectionByCrossProduct` | frame-processor/process_frames.py:49 | with a positive total, the selection never fails and keeps exactly the keys with `count * 100 > p * total` |
| `Selector.SelectNone` | frame-processor/process_frames.py:49 | when no key passes, the result is empty |
| `Selector.SelectAll` | frame-processor/process_frames.py:49 | when every key passes, the result is all keys in order |
| `Selector.HundredOrMoreSelectsNothing` | frame-processor/process_frames.py:49 | with total = number of frames, a threshold of 100 or more selects nothing |
| `Selector.NonPositiveSelectsAll` | frame-processor/process_frames.py:49 | with total = number of frames and at least one frame, a threshold of 0 or below selects every id, in first-occurrence order |
| `Pipeline.Corpus` | frame-processor/process_frames.py:67-69 | defines the frames that `main` collects: the result of `process_file` on each file, concatenated in listing order |
| `Pipeline.CorpusAppend` | frame-processor/process_frames.py:67-69 | the frames of two runs of files are the frames of the first followed by those of the second |
| `Pipeline.CorpusExtend` | frame-processor/process_frames.py:68-69 | each file's frames are appended after those of the earlier files |
| `Pipeline.FailedFileAddsNothing` | frame-processor/process_frames.py:67-69 | a file whose parsing raised adds no frames and does not stop the files after it |
| `Pipeline.CorpusValid` | frame-processor/process_frames.py:67-69 | every frame of the corpus keeps the `Frame` invariant |
| `Pipeline.CorpusCountsSumToTotal` | frame-processor/process_frames.py:74-77 | the counts of the corpus add up to `len(frames)`, the total given to the selector |
| `Pipeline.SelectedMeaning` | frame-processor/process_frames.py:74-77 | over a non-empty corpus, the selector succeeds and keeps exactly the ids that occur with `count * 100 > threshold * len(frames)` |
| `Pipeline.CollectFrames` | frame-processor/process_frames.py:67-69 | the `extend` loop yields objects whose records are exactly the corpus, in file order |
| `Pipeline.Run` | frame-processor/process_frames.py:58-82 | returns -1 exactly when there are no files or no frames, and in that case selects nothing; otherwise returns 1 with the selection over the corpus counts and total `len(frames)`, which is positive |
| `Scenarios.OneFileScenario` | frame-processor/process_frames.py:58-82 | one file with records for ids x, x, y and threshold 40: counts {x: 2, y: 1}, and only x is selected |
| `Scenarios.BadIdScenario` | frame-processor/process_frames.py:28-32 | a file with a valid record followed by one with a non-decimal id gives no frames |
| `Scenarios.TwoFileScenario` | frame-processor/process_frames.py:58-82 | files {x} and {x, y} with threshold 50: counts are taken across files and only x is selected |
| `Scenarios.TallyOfPairAndOne` | frame-processor/process_frames.py:36-44 | counting x, x, y gives keys [x, y] with counts 2 and 1 |
| `Scenarios.SelectPairOverOne` | frame-processor/process_frames.py:49 | with counts 2 and 1 out of 3, any threshold from 100/3 % (one third) up to, not including, 200/3 % (two thirds) keeps only the first id; at exactly 100/3 the second id is left out only because the test is strict |

## Left out

- `list_files` (frame-processor/process_frames.py:15-21): directory checks and listing are filesystem I/O. The model takes the files as a given sequence, in listing order.
- Opening and reading files in `process_file`, and `save_results` (:52-55): file I/O. Python's text-mode newline translation happens before the model's input. `Run` returns the list that would be written.
- Logging and the error messages it prints (including the formatted `FrameInputError` text), `argparse`, the `__main__` block, and the timestamped output name from `datetime.now()` (line 80, which also reads the global `args`): environment and command-line glue.
- Floating point: the share is computed exactly over reals. Rounding in `frame_count / total_frames * 100` can differ from the exact value near the threshold.
- Selector.Exceeds: the threshold is a `real`, so the values `nan`, `inf` and `-inf` that `argparse` with `type=float` accepts (frame-processor/process_frames.py:92) are not modelled. In Python `nan` selects nothing (every comparison with it is false), `inf` selects nothing and `-inf` selects every id.
- Data.Frame.SetParameters: the model stores a copy of the sequence. Python stores a reference to the caller's list, and the getter hands that same list out (frame-processor/data.py:30, :35). A later mutation of it, such as `pop()`, can leave fewer than 3 parameters and make `__str__` raise `IndexError`. So `old(Valid()) ==> Valid()` holds in the model but is not guaranteed in Python when the list is shared.
- Text.RemoveNewlines: its own contract does not fix the order of the kept characters. `RemoveNewlinesAppend`, `RemoveTerminator` and `RemoveNewlinesNoop` state it.
- `str.isdecimal()` also accepts non-ASCII decimal digits. The model accepts only ASCII `0`-`9`.
- Python's dynamic typing: arguments are strings and sequences of strings. A non-string id (which would raise `AttributeError`) is not modelled.
- The getters `frame_id` and `parameters` are modelled as direct field reads, and `__str__` as `Frame.ToString`. It needs the three parameters that the invariant guarantees.
- The `pin/` directory (a mocked smart-card test harness) is not part of this model.
