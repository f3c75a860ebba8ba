/**
 * Worked end-to-end examples of the pipeline, stated for any ids and plain
 * fields: parsing, counting and selection on small inputs. Every line of a
 * file but the last ends with a line feed, as the file's lines are read.
 */
module Scenarios {
  import opened Wrappers
  import opened Text
  import opened Data
  import opened Parser
  import opened Aggregator
  import opened Selector
  import opened Pipeline

  /** Candidate lines of a file whose lines are all plain 4-field records. */
  lemma ThreeRecordLines(lines: seq<string>, fs: seq<seq<string>>)
    requires |lines| == |fs| == 3
    requires forall i :: 0 <= i < 3 ==> Fields(lines[i]) == fs[i] && |fs[i]| == 4
    ensures Candidates(lines) == fs
  {
    assert LineFields(lines) == fs;
    assert fs[..2][..1] == fs[..1] && fs[..1][..0] == [];
    assert FourFields(fs[..1]) == [fs[0]];
    assert FourFields(fs[..2]) == [fs[0], fs[1]];
  }

  lemma TwoRecordLines(lines: seq<string>, fs: seq<seq<string>>)
    requires |lines| == |fs| == 2
    requires forall i :: 0 <= i < 2 ==> Fields(lines[i]) == fs[i] && |fs[i]| == 4
    ensures Candidates(lines) == fs
  {
    assert LineFields(lines) == fs;
    assert fs[..1][..0] == [];
    assert FourFields(fs[..1]) == [fs[0]];
  }

  lemma OneRecordLine(lines: seq<string>, fs: seq<seq<string>>)
    requires |lines| == |fs| == 1
    requires Fields(lines[0]) == fs[0] && |fs[0]| == 4
    ensures Candidates(lines) == fs
  {
    assert LineFields(lines) == fs;
    assert fs[..0] == [];
    assert FourFields(fs) == FourFields(fs[..0]) + [fs[0]];
  }

  /** Counting three ids of which the first two are equal. */
  lemma TallyOfPairAndOne(x: string, y: string)
    requires x != y
    ensures Tally([x, x, y]) == OccurrenceMap([x, y], map[x := 2, y := 1])
  {
    var ids := [x, x, y];
    assert ids[..2] == [x, x] && ids[..2][..1] == [x] && ids[..1][..0] == [];
    assert Tally([x]) == OccurrenceMap([x], map[x := 1]);
    assert Tally([x, x]) == OccurrenceMap([x], map[x := 2]);
  }

  /**
   * With counts 2 and 1 out of 3, a threshold from 100/3 % (one third) up
   * to, not including, 200/3 % (two thirds) selects the first id only; at
   * exactly 100/3 the second id is left out only because the test is strict.
   */
  lemma SelectPairOverOne(x: string, y: string, percentile: real)
    requires x != y
    requires 100.0 <= percentile * 3.0 < 200.0
    ensures OccurrenceMap([x, y], map[x := 2, y := 1]).Valid()
    ensures ExtractPercentile(OccurrenceMap([x, y], map[x := 2, y := 1]), 3, percentile) == Some([x])
  {
    var counts := map[x := 2, y := 1];
    ExceedsCrossMultiplied(2, 3, percentile);
    ExceedsCrossMultiplied(1, 3, percentile);
    var keys := [x, y];
    assert keys[1..] == [y] && keys[1..][1..] == [];
    assert Select([y], counts, 3, percentile) == [];
    assert Select(keys, counts, 3, percentile) == [x];
  }

  /**
   * One file holding records for ids x, x, y (x != y), threshold 40:
   * x (a share of two thirds) is selected and y (one third) is not.
   */
  lemma OneFileScenario(x: string, y: string, p: seq<string>, q: seq<string>, r: seq<string>)
    requires IsDecimal(x) && IsDecimal(y) && x != y
    requires |p| == |q| == |r| == 3
    requires forall i :: 0 <= i < 3 ==> Plain(p[i]) && Plain(q[i]) && Plain(r[i])
    ensures var files := [[Join([x] + p, ',') + "\n", Join([x] + q, ',') + "\n", Join([y] + r, ',')]];
      Corpus(files) == [FrameRecord(x, p), FrameRecord(x, q), FrameRecord(y, r)] &&
      Tally(IdsOf(Corpus(files))) == OccurrenceMap([x, y], map[x := 2, y := 1]) &&
      ExtractPercentile(Tally(IdsOf(Corpus(files))), |Corpus(files)|, 40.0) == Some([x])
  {
    var files := [[Join([x] + p, ',') + "\n", Join([x] + q, ',') + "\n", Join([y] + r, ',')]];
    FramesOfOneFile(x, y, p, q, r);
    assert IdsOf(Corpus(files)) == [x, x, y];
    TallyOfPairAndOne(x, y);
    SelectPairOverOne(x, y, 40.0);
  }

  lemma FramesOfOneFile(x: string, y: string, p: seq<string>, q: seq<string>, r: seq<string>)
    requires IsDecimal(x) && IsDecimal(y)
    requires |p| == |q| == |r| == 3
    requires forall i :: 0 <= i < 3 ==> Plain(p[i]) && Plain(q[i]) && Plain(r[i])
    ensures Corpus([[Join([x] + p, ',') + "\n", Join([x] + q, ',') + "\n", Join([y] + r, ',')]]) ==
      [FrameRecord(x, p), FrameRecord(x, q), FrameRecord(y, r)]
  {
    var lines := [Join([x] + p, ',') + "\n", Join([x] + q, ',') + "\n", Join([y] + r, ',')];
    FileOfThreeRecords(x, y, p, q, r);
    CorpusExtend([], lines);
    assert [] + [lines] == [lines];
  }

  lemma FileOfThreeRecords(x: string, y: string, p: seq<string>, q: seq<string>, r: seq<string>)
    requires IsDecimal(x) && IsDecimal(y)
    requires |p| == |q| == |r| == 3
    requires forall i :: 0 <= i < 3 ==> Plain(p[i]) && Plain(q[i]) && Plain(r[i])
    ensures FileFrames([Join([x] + p, ',') + "\n", Join([x] + q, ',') + "\n", Join([y] + r, ',')]) ==
      [FrameRecord(x, p), FrameRecord(x, q), FrameRecord(y, r)]
  {
    var lines := [Join([x] + p, ',') + "\n", Join([x] + q, ',') + "\n", Join([y] + r, ',')];
    TerminatedRecordLine(x, p);
    TerminatedRecordLine(x, q);
    RecordLine(y, r);
    ThreeRecordLines(lines, [[x] + p, [x] + q, [y] + r]);
    FileFramesWhenAllValid(lines);
  }

  lemma FileOfTwoRecords(x: string, y: string, q: seq<string>, r: seq<string>)
    requires IsDecimal(x) && IsDecimal(y)
    requires |q| == |r| == 3
    requires forall i :: 0 <= i < 3 ==> Plain(q[i]) && Plain(r[i])
    ensures FileFrames([Join([x] + q, ',') + "\n", Join([y] + r, ',')]) == [FrameRecord(x, q), FrameRecord(y, r)]
  {
    var lines := [Join([x] + q, ',') + "\n", Join([y] + r, ',')];
    TerminatedRecordLine(x, q);
    RecordLine(y, r);
    TwoRecordLines(lines, [[x] + q, [y] + r]);
    FileFramesWhenAllValid(lines);
  }

  lemma FileOfOneRecord(x: string, p: seq<string>)
    requires IsDecimal(x)
    requires |p| == 3
    requires forall i :: 0 <= i < 3 ==> Plain(p[i])
    ensures FileFrames([Join([x] + p, ',')]) == [FrameRecord(x, p)]
  {
    var lines := [Join([x] + p, ',')];
    RecordLine(x, p);
    OneRecordLine(lines, [[x] + p]);
    FileFramesWhenAllValid(lines);
  }

  /** A field with no comma and no line feed. */
  predicate Plain(s: string)
  {
    ',' !in s && '\n' !in s
  }

  /** A record line built from an id and three plain fields reads back as those four fields. */
  lemma RecordLine(id: string, ps: seq<string>)
    requires IsDecimal(id) || Plain(id)
    requires |ps| == 3 && forall i :: 0 <= i < 3 ==> Plain(ps[i])
    ensures Fields(Join([id] + ps, ',')) == [id] + ps
  {
    FieldsOfJoin([id] + ps);
  }

  /** The same record with the line feed that ends every line of a file but the last. */
  lemma TerminatedRecordLine(id: string, ps: seq<string>)
    requires IsDecimal(id) || Plain(id)
    requires |ps| == 3 && forall i :: 0 <= i < 3 ==> Plain(ps[i])
    ensures Fields(Join([id] + ps, ',') + "\n") == [id] + ps
  {
    FieldsOfTerminatedRecord([id] + ps);
  }

  /**
   * A file whose second record has an id that is not decimal (such as
   * "X") gives no frames, although its first record is valid.
   */
  lemma BadIdScenario(good: string, bad: string, p: seq<string>, q: seq<string>)
    requires IsDecimal(good) && Plain(bad) && !IsDecimal(bad)
    requires |p| == |q| == 3
    requires forall i :: 0 <= i < 3 ==> Plain(p[i]) && Plain(q[i])
    ensures FileFrames([Join([good] + p, ',') + "\n", Join([bad] + q, ',')]) == []
  {
    var lines := [Join([good] + p, ',') + "\n", Join([bad] + q, ',')];
    TerminatedRecordLine(good, p);
    RecordLine(bad, q);
    TwoRecordLines(lines, [[good] + p, [bad] + q]);
    FileFramesWhenSomeIdBad(lines, 1);
  }

  /**
   * Two files, the first with a record for x and the second with records
   * for x and y, threshold 50: counts are taken across files, x (a share
   * of two thirds) is selected and y (one third) is not.
   */
  lemma TwoFileScenario(x: string, y: string, p: seq<string>, q: seq<string>, r: seq<string>)
    requires IsDecimal(x) && IsDecimal(y) && x != y
    requires |p| == |q| == |r| == 3
    requires forall i :: 0 <= i < 3 ==> Plain(p[i]) && Plain(q[i]) && Plain(r[i])
    ensures var files := [[Join([x] + p, ',')], [Join([x] + q, ',') + "\n", Join([y] + r, ',')]];
      Corpus(files) == [FrameRecord(x, p), FrameRecord(x, q), FrameRecord(y, r)] &&
      Tally(IdsOf(Corpus(files))) == OccurrenceMap([x, y], map[x := 2, y := 1]) &&
      ExtractPercentile(Tally(IdsOf(Corpus(files))), |Corpus(files)|, 50.0) == Some([x])
  {
    var files := [[Join([x] + p, ',')], [Join([x] + q, ',') + "\n", Join([y] + r, ',')]];
    FramesOfTwoFiles(x, y, p, q, r);
    assert IdsOf(Corpus(files)) == [x, x, y];
    TallyOfPairAndOne(x, y);
    SelectPairOverOne(x, y, 50.0);
  }

  lemma FramesOfTwoFiles(x: string, y: string, p: seq<string>, q: seq<string>, r: seq<string>)
    requires IsDecimal(x) && IsDecimal(y)
    requires |p| == |q| == |r| == 3
    requires forall i :: 0 <= i < 3 ==> Plain(p[i]) && Plain(q[i]) && Plain(r[i])
    ensures Corpus([[Join([x] + p, ',')], [Join([x] + q, ',') + "\n", Join([y] + r, ',')]]) ==
      [FrameRecord(x, p), FrameRecord(x, q), FrameRecord(y, r)]
  {
    var a, b := [Join([x] + p, ',')], [Join([x] + q, ',') + "\n", Join([y] + r, ',')];
    FileOfOneRecord(x, p);
    FileOfTwoRecords(x, y, q, r);
    CorpusExtend([], a);
    CorpusExtend([a], b);
    assert [] + [a] == [a] && [a] + [b] == [a, b];
  }
}
