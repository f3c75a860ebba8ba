/**
 * `process_file` of frame-processor/process_frames.py: the lines of one file
 * become frames, lines without exactly four fields are skipped, and a single
 * 4-field line with a bad id discards the whole file.
 */
module Parser {
  import opened Wrappers
  import opened Text
  import opened Data

  /** `line.replace('\n', '').split(",")` */
  function Fields(line: string): (r: seq<string>)
    ensures |r| == CountOf(line, ',') + 1
  {
    Split(RemoveNewlines(line), ',')
  }

  /** A line of plain text (no ',' nor '\n') has exactly one field, itself. */
  lemma FieldsOfPlainText(line: string)
    requires ',' !in line && '\n' !in line
    ensures Fields(line) == [line]
  {
    RemoveNewlinesNoop(line);
    SplitJoin([line], ',');
  }

  /** The comma-joined fields of a line without line feeds are its fields. */
  lemma FieldsOfJoin(fields: seq<string>)
    requires |fields| >= 1
    requires forall i :: 0 <= i < |fields| ==> ',' !in fields[i] && '\n' !in fields[i]
    ensures Fields(Join(fields, ',')) == fields
  {
    JoinHasNoNewline(fields);
    RemoveNewlinesNoop(Join(fields, ','));
    SplitJoin(fields, ',');
  }

  /** The line feed that ends a line read from a file does not change its fields. */
  lemma FieldsOfTerminatedLine(line: string)
    requires '\n' !in line
    ensures Fields(line + "\n") == Fields(line)
  {
    RemoveTerminator(line);
    RemoveNewlinesNoop(line);
  }

  /** A record line as a file yields it, line feed included, reads back as its fields. */
  lemma FieldsOfTerminatedRecord(fields: seq<string>)
    requires |fields| >= 1
    requires forall i :: 0 <= i < |fields| ==> ',' !in fields[i] && '\n' !in fields[i]
    ensures Fields(Join(fields, ',') + "\n") == fields
  {
    JoinHasNoNewline(fields);
    FieldsOfTerminatedLine(Join(fields, ','));
    FieldsOfJoin(fields);
  }

  lemma {:induction false} JoinHasNoNewline(fields: seq<string>)
    requires forall i :: 0 <= i < |fields| ==> '\n' !in fields[i]
    ensures '\n' !in Join(fields, ',')
  {
    if |fields| > 1 {
      JoinHasNoNewline(fields[1..]);
    }
  }

  /**
   * The list comprehension of `process_file`, evaluated line by line: the
   * first `FrameInputError` raised aborts it.
   */
  function ParseLines(lines: seq<string>): Result<seq<FrameRecord>, FrameInputError>
  {
    if lines == [] then Ok([]) else ParseStep(ParseLines(lines[..|lines| - 1]), lines[|lines| - 1])
  }

  /** One line of the comprehension: skipped, turned into a frame, or raising. */
  function ParseStep(sofar: Result<seq<FrameRecord>, FrameInputError>, line: string): Result<seq<FrameRecord>, FrameInputError>
  {
    match sofar
    case Err(e) => Err(e)
    case Ok(done) =>
      var fields := Fields(line);
      if |fields| != 4 then Ok(done)
      else
        match NewFrame(fields[0], fields[1..])
        case Err(e) => Err(e)
        case Ok(f) => Ok(done + [f])
  }

  lemma ParseLinesPrefix(lines: seq<string>, i: nat)
    requires i < |lines|
    ensures ParseLines(lines[..i + 1]) == ParseStep(ParseLines(lines[..i]), lines[i])
  {
    assert lines[..i + 1][..i] == lines[..i];
  }

  lemma ErrorPersistsToEnd(lines: seq<string>, i: nat)
    requires i <= |lines| && ParseLines(lines[..i]).Err?
    ensures ParseLines(lines).Err?
  {
    ErrorPersists(lines[..i], lines[i..]);
    assert lines[..i] + lines[i..] == lines;
  }

  lemma StepSkips(done: seq<FrameRecord>, line: string)
    requires |Fields(line)| != 4
    ensures ParseStep(Ok(done), line) == Ok(done)
  {
  }

  lemma StepBuilds(done: seq<FrameRecord>, line: string, f: FrameRecord)
    requires |Fields(line)| == 4 && NewFrame(Fields(line)[0], Fields(line)[1..]) == Ok(f)
    ensures ParseStep(Ok(done), line) == Ok(done + [f])
  {
  }

  lemma StepRaises(done: seq<FrameRecord>, line: string)
    requires |Fields(line)| == 4 && NewFrame(Fields(line)[0], Fields(line)[1..]).Err?
    ensures ParseStep(Ok(done), line).Err?
  {
  }

  /** `process_file` on the lines of a file: the frames, or none after an error. */
  function FileFrames(lines: seq<string>): seq<FrameRecord>
  {
    match ParseLines(lines)
    case Ok(frames) => frames
    case Err(_) => []
  }

  // ---------------------------------------------------------------------
  // A reference description: which lines count, and what they give.
  // ---------------------------------------------------------------------

  /** The fields of each line, in line order. */
  function LineFields(lines: seq<string>): seq<seq<string>>
  {
    seq(|lines|, i requires 0 <= i < |lines| => Fields(lines[i]))
  }

  /** The field lists that have exactly four fields, in order. */
  function FourFields(fs: seq<seq<string>>): (r: seq<seq<string>>)
    ensures forall i :: 0 <= i < |r| ==> |r[i]| == 4
  {
    if fs == [] then []
    else
      var last := fs[|fs| - 1];
      FourFields(fs[..|fs| - 1]) + (if |last| == 4 then [last] else [])
  }

  lemma {:induction false} FourFieldsAppend(p: seq<seq<string>>, q: seq<seq<string>>)
    ensures FourFields(p + q) == FourFields(p) + FourFields(q)
  {
    if q == [] {
      assert p + q == p;
    } else {
      var pq, init := p + q, q[..|q| - 1];
      FourFieldsAppend(p, init);
      assert pq[..|pq| - 1] == p + init;
      assert pq[|pq| - 1] == q[|q| - 1];
    }
  }

  /** The field lists of the lines that have exactly four fields, in line order. */
  function Candidates(lines: seq<string>): (r: seq<seq<string>>)
    ensures forall i :: 0 <= i < |r| ==> |r[i]| == 4
  {
    FourFields(LineFields(lines))
  }

  lemma CandidatesAppend(a: seq<string>, b: seq<string>)
    ensures Candidates(a + b) == Candidates(a) + Candidates(b)
  {
    assert LineFields(a + b) == LineFields(a) + LineFields(b);
    FourFieldsAppend(LineFields(a), LineFields(b));
  }

  lemma CandidatesExtend(lines: seq<string>, line: string)
    ensures Candidates(lines + [line]) ==
      Candidates(lines) + (if |Fields(line)| == 4 then [Fields(line)] else [])
  {
    CandidatesAppend(lines, [line]);
    var single := [Fields(line)];
    assert LineFields([line])[0] == Fields(line);
    assert LineFields([line]) == single;
    assert single[..0] == [];
    assert FourFields(single) == FourFields([]) + (if |Fields(line)| == 4 then single else []);
  }

  /** Every candidate line has a decimal id. */
  predicate AllIdsDecimal(cs: seq<seq<string>>)
    requires forall i :: 0 <= i < |cs| ==> |cs[i]| == 4
  {
    forall i :: 0 <= i < |cs| ==> IsDecimal(cs[i][0])
  }

  /** Once the comprehension has raised, nothing that follows is kept. */
  lemma {:induction false} ErrorPersists(lines: seq<string>, more: seq<string>)
    requires ParseLines(lines).Err?
    ensures ParseLines(lines + more).Err?
  {
    if more != [] {
      var init := more[..|more| - 1];
      ErrorPersists(lines, init);
      assert (lines + more)[..|lines + more| - 1] == lines + init;
    } else {
      assert lines + more == lines;
    }
  }

  /**
   * The comprehension either builds one frame per candidate line, with
   * field 0 as id and fields 1..3 as parameters, or raises; it raises
   * exactly when some candidate id is not decimal, and then the error is
   * `ArgumentNotNumeric`: a 4-field line always supplies three arguments.
   */
  lemma {:induction false} ParseLinesMeaning(lines: seq<string>)
    ensures var cs := Candidates(lines);
      ParseLines(lines).Ok? <==> AllIdsDecimal(cs)
    ensures var cs := Candidates(lines);
      ParseLines(lines).Ok? ==>
        |ParseLines(lines).value| == |cs| &&
        forall i :: 0 <= i < |cs| ==> ParseLines(lines).value[i] == FrameRecord(cs[i][0], cs[i][1..])
    ensures ParseLines(lines).Err? ==> ParseLines(lines).error.ArgumentNotNumeric?
  {
    if lines != [] {
      var init := lines[..|lines| - 1];
      ParseLinesMeaning(init);
      var fields := Fields(lines[|lines| - 1]);
      var cs0 := Candidates(init);
      assert lines == init + [lines[|lines| - 1]];
      CandidatesExtend(init, lines[|lines| - 1]);
      if |fields| == 4 {
        assert Candidates(lines) == cs0 + [fields];
        var cs := Candidates(lines);
        assert cs[|cs0|] == fields;
        if !AllIdsDecimal(cs0) {
          var i :| 0 <= i < |cs0| && !IsDecimal(cs0[i][0]);
          assert !IsDecimal(cs[i][0]);
        } else if !IsDecimal(fields[0]) {
          assert !IsDecimal(cs[|cs0|][0]);
        }
      } else {
        assert Candidates(lines) == cs0;
      }
    }
  }

  /** Candidate lines with decimal ids give one frame each, in line order. */
  lemma FileFramesWhenAllValid(lines: seq<string>)
    requires AllIdsDecimal(Candidates(lines))
    ensures var cs := Candidates(lines);
      |FileFrames(lines)| == |cs| &&
      forall i :: 0 <= i < |cs| ==>
        FileFrames(lines)[i].frameId == cs[i][0] &&
        FileFrames(lines)[i].parameters == cs[i][1..] &&
        FileFrames(lines)[i].Valid()
  {
    ParseLinesMeaning(lines);
  }

  /** Every frame a file gives satisfies the `Frame` invariant. */
  lemma FileFramesValid(lines: seq<string>)
    ensures forall i :: 0 <= i < |FileFrames(lines)| ==> FileFrames(lines)[i].Valid()
  {
    ParseLinesMeaning(lines);
  }

  /** One candidate line with a bad id empties the file, whatever precedes it. */
  lemma FileFramesWhenSomeIdBad(lines: seq<string>, i: nat)
    requires i < |Candidates(lines)| && !IsDecimal(Candidates(lines)[i][0])
    ensures FileFrames(lines) == []
  {
    ParseLinesMeaning(lines);
  }

  /** A line whose field count is not four adds nothing and raises nothing. */
  lemma SkippedLineChangesNothing(before: seq<string>, line: string, after: seq<string>)
    requires |Fields(line)| != 4
    ensures Candidates(before + [line] + after) == Candidates(before + after)
    ensures FileFrames(before + [line] + after) == FileFrames(before + after)
  {
    CandidatesAppend(before + [line], after);
    CandidatesExtend(before, line);
    CandidatesAppend(before, after);
    ParseLinesMeaning(before + [line] + after);
    ParseLinesMeaning(before + after);
  }

  // ---------------------------------------------------------------------
  // The imperative form: frames are new objects.
  // ---------------------------------------------------------------------

  /**
   * `process_file` minus the file reading: builds a `Frame` object for each
   * 4-field line and returns no frames once one construction raises.
   */
  method ProcessFile(lines: seq<string>) returns (frames: seq<Frame>)
    ensures Values(frames) == FileFrames(lines)
    ensures forall f :: f in frames ==> fresh(f)
    ensures forall i :: 0 <= i < |frames| ==> frames[i].Valid()
  {
    var built: seq<Frame> := [];
    var i := 0;
    while i < |lines|
      invariant 0 <= i <= |lines|
      invariant ParseLines(lines[..i]) == Ok(Values(built))
      invariant fresh(set f | f in built)
    {
      ParseLinesPrefix(lines, i);
      var fields := Fields(lines[i]);
      if |fields| == 4 {
        ghost var done := Values(built);
        var r := Frame.Create(fields[0], fields[1..]);
        assert Values(built) == done;
        if r.Err? {
          StepRaises(done, lines[i]);
          ErrorPersistsToEnd(lines, i + 1);
          return [];
        }
        var frame := r.value;
        StepBuilds(done, lines[i], frame.Value());
        ValuesAppend(built, [frame]);
        built := built + [frame];
      } else {
        StepSkips(Values(built), lines[i]);
      }
      i := i + 1;
    }
    assert lines[..i] == lines;
    frames := built;
    FileFramesValid(lines);
  }
}
