/**
 * The frame record of frame-processor/data.py: a frame id made of decimal
 * digits and at least three parameters, validated on construction and kept
 * valid by setters that silently ignore a non-conforming value.
 */
module Data {
  import opened Wrappers
  import opened Text

  /** `FrameInputError`, with the detail its message reports. */
  datatype FrameInputError =
    | ArgumentListTooShort(count: nat)
    | ArgumentNotNumeric(frameId: string)

  /** The value a `Frame` object holds. */
  datatype FrameRecord = FrameRecord(frameId: string, parameters: seq<string>)
  {
    /** The invariant `Frame` promises. */
    predicate Valid()
    {
      IsDecimal(frameId) && |parameters| >= 3
    }
  }

  /**
   * `Frame(frame_id, *args)` on values: the argument count is checked
   * before the id, and a frame is built only when both checks pass.
   */
  function NewFrame(frameId: string, args: seq<string>): (r: Result<FrameRecord, FrameInputError>)
    ensures r.Ok? <==> |args| >= 3 && IsDecimal(frameId)
    ensures r.Ok? ==> r.value.Valid() && r.value.frameId == frameId && r.value.parameters == args
  {
    if |args| < 3 then Err(ArgumentListTooShort(|args|))
    else if !IsDecimal(frameId) then Err(ArgumentNotNumeric(frameId))
    else Ok(FrameRecord(frameId, args))
  }

  /** A too-short argument list is reported even when the id is bad too. */
  lemma LengthCheckedFirst(frameId: string, args: seq<string>)
    requires |args| < 3
    ensures NewFrame(frameId, args) == Err(ArgumentListTooShort(|args|))
  {
  }

  /** The id check rejects the empty id, as `''.isdecimal()` is false. */
  lemma EmptyIdRejected(args: seq<string>)
    requires |args| >= 3
    ensures NewFrame("", args) == Err(ArgumentNotNumeric(""))
  {
  }

  /** `__str__`: "<id>:<p0> <p1> <p2>"; parameters past the third are not shown. */
  function Render(f: FrameRecord): string
    requires |f.parameters| >= 3
  {
    f.frameId + ":" + (f.parameters[0] + " " + f.parameters[1] + " " + f.parameters[2])
  }

  /** Reads a rendering back into the id and the three parameters it shows. */
  function ParseRendered(s: string): Option<(string, seq<string>)>
  {
    var halves := Split(s, ':');
    if |halves| != 2 then None
    else
      var shown := Split(halves[1], ' ');
      if |shown| != 3 then None else Some((halves[0], shown))
  }

  /**
   * The rendering names the id and exactly the first three parameters:
   * when those carry no ':' or ' ', they can be read back from it.
   */
  lemma {:induction false} RenderRoundTrip(f: FrameRecord)
    requires f.Valid()
    requires forall i :: 0 <= i < 3 ==> ':' !in f.parameters[i] && ' ' !in f.parameters[i]
    ensures ParseRendered(Render(f)) == Some((f.frameId, f.parameters[..3]))
  {
    var ps := f.parameters[..3];
    var shown := ps[0] + " " + ps[1] + " " + ps[2];
    ShownParameters(ps);
    assert ':' !in f.frameId;
    var halves := [f.frameId, shown];
    assert Join(halves, ':') == f.frameId + ":" + shown;
    SplitJoin(halves, ':');
  }

  /** The parameter part of a rendering splits back on ' ' into the three parameters. */
  lemma ShownParameters(ps: seq<string>)
    requires |ps| == 3
    requires forall i :: 0 <= i < 3 ==> ':' !in ps[i] && ' ' !in ps[i]
    ensures ':' !in ps[0] + " " + ps[1] + " " + ps[2]
    ensures Split(ps[0] + " " + ps[1] + " " + ps[2], ' ') == ps
  {
    assert Join([ps[2]], ' ') == ps[2];
    assert Join(ps[1..], ' ') == ps[1] + " " + ps[2];
    assert Join(ps, ' ') == ps[0] + " " + (ps[1] + " " + ps[2]);
    assert ps[0] + " " + ps[1] + " " + ps[2] == Join(ps, ' ');
    SplitJoin(ps, ' ');
  }

  /** Rendering ignores parameters after the third. */
  lemma RenderIgnoresExtraParameters(f: FrameRecord, extra: seq<string>)
    requires |f.parameters| >= 3
    ensures Render(FrameRecord(f.frameId, f.parameters + extra)) == Render(f)
  {
  }

  /** `class Frame`: fields `_frame_id` and `_parameters` with guarded setters. */
  class Frame {
    var frameId: string
    var parameters: seq<string>

    /** The record this object currently holds. */
    function Value(): FrameRecord
      reads this
    {
      FrameRecord(frameId, parameters)
    }

    ghost predicate Valid()
      reads this
    {
      Value().Valid()
    }

    /**
     * `Frame.__init__`: raises `FrameInputError` (here `Err`) exactly when
     * `NewFrame` does; otherwise a new object holding the id and all of
     * `args`, in order.
     */
    static method Create(frameId: string, args: seq<string>) returns (r: Result<Frame, FrameInputError>)
      ensures r.Err? ==> NewFrame(frameId, args) == Err(r.error)
      ensures r.Ok? ==> fresh(r.value) && NewFrame(frameId, args) == Ok(r.value.Value())
      ensures r.Ok? ==> r.value.Valid()
    {
      if |args| < 3 {
        return Err(ArgumentListTooShort(|args|));
      }
      if !IsDecimal(frameId) {
        return Err(ArgumentNotNumeric(frameId));
      }
      var f := new Frame;
      f.frameId := frameId;
      f.parameters := args;
      return Ok(f);
    }

    /** The `frame_id` setter: applied only to an all-digit id, otherwise ignored. */
    method SetFrameId(newId: string)
      modifies this
      ensures frameId == (if IsDecimal(newId) then newId else old(frameId))
      ensures parameters == old(parameters)
      ensures old(Valid()) ==> Valid()
    {
      if IsDecimal(newId) {
        frameId := newId;
      }
    }

    /** The `parameters` setter: applied only to more than two values, otherwise ignored. */
    method SetParameters(newParameters: seq<string>)
      modifies this
      ensures parameters == (if |newParameters| > 2 then newParameters else old(parameters))
      ensures frameId == old(frameId)
      ensures old(Valid()) ==> Valid()
    {
      if |newParameters| > 2 {
        parameters := newParameters;
      }
    }

    /** `__str__`; it needs the three parameters that `Valid` guarantees. */
    function ToString(): string
      reads this
      requires Valid()
    {
      Render(Value())
    }
  }

  /** The records held by a sequence of frames, in order. */
  function Values(frames: seq<Frame>): (r: seq<FrameRecord>)
    reads set f | f in frames
    ensures |r| == |frames|
    ensures forall i :: 0 <= i < |frames| ==> r[i] == frames[i].Value()
  {
    if frames == [] then [] else Values(frames[..|frames| - 1]) + [frames[|frames| - 1].Value()]
  }

  lemma ValuesAppend(a: seq<Frame>, b: seq<Frame>)
    ensures Values(a + b) == Values(a) + Values(b)
  {
  }
}
