/**
 * The computing part of `main` in frame-processor/process_frames.py: the
 * frames of all files, in file order, are counted and the popular ids
 * selected, with -1 returned before any division when there is nothing to
 * divide by. Listing, reading and writing files are not modelled: a file is
 * the sequence of its lines.
 */
module Pipeline {
  import opened Wrappers
  import opened Data
  import opened Parser
  import opened Aggregator
  import opened Selector

  /** The frames each file gives, one entry per file, in file order. */
  function PerFile(files: seq<seq<string>>): seq<seq<FrameRecord>>
  {
    seq(|files|, i requires 0 <= i < |files| => FileFrames(files[i]))
  }

  /** Concatenation of a sequence of frame lists. */
  function Flatten(parts: seq<seq<FrameRecord>>): seq<FrameRecord>
  {
    if parts == [] then [] else Flatten(parts[..|parts| - 1]) + parts[|parts| - 1]
  }

  lemma {:induction false} FlattenAppend(p: seq<seq<FrameRecord>>, q: seq<seq<FrameRecord>>)
    ensures Flatten(p + q) == Flatten(p) + Flatten(q)
  {
    if q == [] {
      assert p + q == p;
    } else {
      var pq, init := p + q, q[..|q| - 1];
      FlattenAppend(p, init);
      assert pq[..|pq| - 1] == p + init;
      assert pq[|pq| - 1] == q[|q| - 1];
    }
  }

  /** The frames of all files, concatenated in file order (`frames.extend`). */
  function Corpus(files: seq<seq<string>>): seq<FrameRecord>
  {
    Flatten(PerFile(files))
  }

  /** The corpus of two runs of files is the concatenation of their corpora. */
  lemma CorpusAppend(a: seq<seq<string>>, b: seq<seq<string>>)
    ensures Corpus(a + b) == Corpus(a) + Corpus(b)
  {
    assert PerFile(a + b) == PerFile(a) + PerFile(b);
    FlattenAppend(PerFile(a), PerFile(b));
  }

  /** Adding a file adds its frames at the end. */
  lemma CorpusExtend(files: seq<seq<string>>, file: seq<string>)
    ensures Corpus(files + [file]) == Corpus(files) + FileFrames(file)
  {
    CorpusAppend(files, [file]);
    var single := [FileFrames(file)];
    assert PerFile([file]) == single;
    assert single[..0] == [];
    assert Flatten(single) == Flatten([]) + FileFrames(file);
    assert Corpus([file]) == FileFrames(file);
  }

  /** A file that failed to parse adds nothing and does not stop the files after it. */
  lemma FailedFileAddsNothing(before: seq<seq<string>>, bad: seq<string>, after: seq<seq<string>>)
    requires ParseLines(bad).Err?
    ensures Corpus(before + [bad] + after) == Corpus(before) + Corpus(after)
  {
    CorpusAppend(before + [bad], after);
    CorpusExtend(before, bad);
  }

  /** Every frame of the corpus satisfies the `Frame` invariant. */
  lemma {:induction false} CorpusValid(files: seq<seq<string>>)
    ensures forall i :: 0 <= i < |Corpus(files)| ==> Corpus(files)[i].Valid()
  {
    if files != [] {
      var init, last := files[..|files| - 1], files[|files| - 1];
      CorpusValid(init);
      FileFramesValid(last);
      assert files == init + [last];
      CorpusExtend(init, last);
    }
  }

  /** The occurrence counts of the corpus add up to the total passed to the selector. */
  lemma CorpusCountsSumToTotal(files: seq<seq<string>>)
    ensures Tally(IdsOf(Corpus(files))).Valid()
    ensures SumOver(Tally(IdsOf(Corpus(files))).keys, Tally(IdsOf(Corpus(files))).counts) == |Corpus(files)|
  {
    TallyMeaning(IdsOf(Corpus(files)));
    TallySum(IdsOf(Corpus(files)));
  }

  /**
   * Over a non-empty corpus, the selector total is positive and an id is
   * selected exactly when it occurs and its count times 100 is above the
   * threshold times the number of frames.
   */
  lemma SelectedMeaning(frames: seq<FrameRecord>, percentage: real)
    requires frames != []
    ensures Tally(IdsOf(frames)).Valid()
    ensures ExtractPercentile(Tally(IdsOf(frames)), |frames|, percentage).Some?
    ensures forall id :: id in ExtractPercentile(Tally(IdsOf(frames)), |frames|, percentage).value <==>
      id in IdsOf(frames) && (multiset(IdsOf(frames))[id] as real) * 100.0 > percentage * (|frames| as real)
  {
    var ids := IdsOf(frames);
    TallyMeaning(ids);
    SelectionByCrossProduct(Tally(ids), |frames|, percentage);
  }

  /** The loop of `main` that extends `frames` with each file's frames, in file order. */
  method CollectFrames(files: seq<seq<string>>) returns (frames: seq<Frame>)
    ensures Values(frames) == Corpus(files)
  {
    frames := [];
    for i := 0 to |files|
      invariant Values(frames) == Corpus(files[..i])
    {
      ghost var done := Values(frames);
      var fileFrames := ProcessFile(files[i]);
      assert Values(frames) == done;
      assert done + FileFrames(files[i]) == Corpus(files[..i + 1]) by {
        assert files[..i + 1] == files[..i] + [files[i]];
        CorpusExtend(files[..i], files[i]);
      }
      ValuesAppend(frames, fileFrames);
      frames := frames + fileFrames;
    }
    assert files[..|files|] == files;
  }

  /**
   * `main` after `list_files`: -1 when there are no files or no frames,
   * otherwise 1 with the selected ids (what `save_results` is given). The
   * selector is reached only with a positive total, `len(frames)`.
   */
  method Run(files: seq<seq<string>>, percentage: real) returns (status: int, extracted: seq<string>)
    ensures status == -1 <==> files == [] || Corpus(files) == []
    ensures status == -1 || status == 1
    ensures status == -1 ==> extracted == []
    ensures status == 1 ==> Corpus(files) != [] && Tally(IdsOf(Corpus(files))).Valid()
    ensures status == 1 ==>
      ExtractPercentile(Tally(IdsOf(Corpus(files))), |Corpus(files)|, percentage) == Some(extracted)
  {
    if files == [] {
      return -1, [];
    }
    var frames := CollectFrames(files);
    if frames == [] {
      return -1, [];
    }
    var byFrameId := ProcessFrames(frames);
    TallyMeaning(IdsOf(Values(frames)));
    var selected := ExtractPercentile(byFrameId, |frames|, percentage);
    status, extracted := 1, selected.value;
  }
}
