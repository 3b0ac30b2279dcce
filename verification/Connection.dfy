/**
 The loop that serves one connection. It decodes frames, runs each command through the transaction
 state, and folds commands that have already arrived into one pipeline request.

 The outcome of every test for buffered input is left open. Whatever those outcomes, what the loop
 emits is what a loop handling one command at a time emits, with some consecutive single requests
 sent as one.
 */
module Connection {
  import opened Numeral
  import opened Layout
  import opened Commands
  import opened Transaction

  /** What the decoder hands to the loop: a command, or a value that is not one. */
  datatype Frame = Parsed(cmd: Command) | Malformed(error: string)

  /** What the loop does to the outside, in order. */
  datatype Emit =
    | Single(cmd: Command)
    | Pipe(cmds: seq<Command>)
    | Batch(cmds: seq<Command>)
    | WriteReply(reply: TxReply)
    | WriteError(error: string)
    | Flush

  // One command at a time

  /** What a decided command makes the loop emit. */
  function EmitFor(cmd: Command, action: Action): Emit {
    match action
    case Passthrough => Single(cmd)
    case Answer(reply) => WriteReply(reply)
    case Exec(batch) => Batch(batch)
  }

  /** The loop that never looks ahead. */
  ghost function OneByOne(frames: seq<Frame>, t: Tx, layout: Option<Layout>): seq<Emit>
    requires LayoutOk(layout)
    decreases |frames|
  {
    if frames == [] then []
    else if frames[0].Malformed? then [WriteError(frames[0].error)] + OneByOne(frames[1..], t, layout)
    else
      var (t', action) := Step(t, frames[0].cmd, layout);
      [EmitFor(frames[0].cmd, action)] + OneByOne(frames[1..], t', layout)
  }

  ghost function Singles(cmds: seq<Command>): (r: seq<Emit>)
    ensures |r| == |cmds| && forall i :: 0 <= i < |cmds| ==> r[i] == Single(cmds[i])
  {
    seq(|cmds|, i requires 0 <= i < |cmds| => Single(cmds[i]))
  }

  ghost function UnpackOne(e: Emit): seq<Emit> {
    match e
    case Pipe(cmds) => Singles(cmds)
    case Flush => []
    case _ => [e]
  }

  /** Pipelines taken apart; flushes do not change what is written, only when it leaves. */
  ghost function Unpack(out: seq<Emit>): seq<Emit> {
    if out == [] then [] else Unpack(out[..|out| - 1]) + UnpackOne(out[|out| - 1])
  }

  lemma UnpackAppend(out: seq<Emit>, e: Emit)
    ensures Unpack(out + [e]) == Unpack(out) + UnpackOne(e)
  {
    assert (out + [e])[..|out|] == out;
  }

  /** Every pipeline holds a command. */
  ghost predicate NonEmptyPipes(out: seq<Emit>) {
    forall i :: 0 <= i < |out| && out[i].Pipe? ==> out[i].cmds != []
  }

  // The loop

  /** A request for accumulated commands: a lone command goes out as a single request. */
  function PipelineEmit(pipeline: seq<Command>): Emit {
    if |pipeline| == 1 then Single(pipeline[0]) else Pipe(pipeline)
  }

  lemma PipelineUnpacks(pipeline: seq<Command>)
    ensures UnpackOne(PipelineEmit(pipeline)) == Singles(pipeline)
  {}

  ghost predicate OnTrack(out: seq<Emit>, pipeline: seq<Command>, rest: seq<Frame>, t: Tx, layout: Option<Layout>, all: seq<Emit>)
    requires LayoutOk(layout)
  {
    NonEmptyPipes(out) && Unpack(out) + Singles(pipeline) + OneByOne(rest, t, layout) == all
  }

  lemma TrackPipeline(out: seq<Emit>, pipeline: seq<Command>, rest: seq<Frame>, t: Tx, layout: Option<Layout>, all: seq<Emit>)
    requires LayoutOk(layout) && OnTrack(out, pipeline, rest, t, layout, all) && pipeline != []
    ensures OnTrack(out + [PipelineEmit(pipeline)], [], rest, t, layout, all)
  {
    hide Singles, OneByOne, UnpackOne;
    UnpackAppend(out, PipelineEmit(pipeline));
    PipelineUnpacks(pipeline);
    assert Singles([]) == [] by { NoSingles(); }
  }

  lemma NoSingles()
    ensures Singles([]) == []
  {}

  lemma TrackFlush(out: seq<Emit>, pipeline: seq<Command>, rest: seq<Frame>, t: Tx, layout: Option<Layout>, all: seq<Emit>)
    requires LayoutOk(layout) && OnTrack(out, pipeline, rest, t, layout, all)
    ensures OnTrack(out + [Flush], pipeline, rest, t, layout, all)
  {
    hide OneByOne, Unpack, Singles, LayoutOk;
    UnpackAppend(out, Flush);
    assert Unpack(out) + [] == Unpack(out);
  }

  lemma TrackEmit(out: seq<Emit>, e: Emit, after: seq<Emit>)
    requires UnpackOne(e) == [e]
    ensures Unpack(out + [e]) + Singles([]) + after == Unpack(out) + Singles([]) + ([e] + after)
  {
    hide Unpack, UnpackOne, Singles;
    UnpackAppend(out, e);
    NoSingles();
  }

  lemma TrackError(out: seq<Emit>, rest: seq<Frame>, t: Tx, layout: Option<Layout>, all: seq<Emit>)
    requires LayoutOk(layout) && OnTrack(out, [], rest, t, layout, all) && rest != [] && rest[0].Malformed?
    ensures OnTrack(out + [WriteError(rest[0].error)], [], rest[1..], t, layout, all)
  {
    hide LayoutOk, Unpack, Singles, Step;
    TrackEmit(out, WriteError(rest[0].error), OneByOne(rest[1..], t, layout));
  }

  lemma TrackAction(out: seq<Emit>, rest: seq<Frame>, t: Tx, layout: Option<Layout>, all: seq<Emit>)
    requires LayoutOk(layout) && OnTrack(out, [], rest, t, layout, all) && rest != [] && rest[0].Parsed?
    ensures var (t', action) := Step(t, rest[0].cmd, layout);
            action != Passthrough ==> OnTrack(out + [EmitFor(rest[0].cmd, action)], [], rest[1..], t', layout, all)
  {
    hide LayoutOk, Unpack, Singles, Step;
    var (t', action) := Step(t, rest[0].cmd, layout);
    TrackEmit(out, EmitFor(rest[0].cmd, action), OneByOne(rest[1..], t', layout));
  }

  lemma TrackQueue(out: seq<Emit>, pipeline: seq<Command>, rest: seq<Frame>, t: Tx, layout: Option<Layout>, all: seq<Emit>)
    requires LayoutOk(layout) && OnTrack(out, pipeline, rest, t, layout, all) && rest != [] && rest[0].Parsed?
    ensures var (t', action) := Step(t, rest[0].cmd, layout);
            action == Passthrough ==> OnTrack(out, pipeline + [rest[0].cmd], rest[1..], t', layout, all)
  {
    hide Step, LayoutOk;
    var (t', action) := Step(t, rest[0].cmd, layout);
    assert Singles(pipeline + [rest[0].cmd]) == Singles(pipeline) + [Single(rest[0].cmd)];
  }

  /** An action decided while a pipeline is open: the pipeline goes out first, which keeps the order. */
  lemma TrackBoth(out: seq<Emit>, pipeline: seq<Command>, rest: seq<Frame>, t: Tx, layout: Option<Layout>, all: seq<Emit>)
    requires LayoutOk(layout) && OnTrack(out, pipeline, rest, t, layout, all) && rest != [] && pipeline != []
    ensures var before := out + [PipelineEmit(pipeline)];
            && (rest[0].Malformed? ==> OnTrack(before + [WriteError(rest[0].error)], [], rest[1..], t, layout, all))
            && (rest[0].Parsed? && Step(t, rest[0].cmd, layout).1 != Passthrough ==>
                  OnTrack(before + [EmitFor(rest[0].cmd, Step(t, rest[0].cmd, layout).1)], [], rest[1..],
                          Step(t, rest[0].cmd, layout).0, layout, all))
  {
    hide OnTrack, Step, LayoutOk;
    TrackPipeline(out, pipeline, rest, t, layout, all);
    if rest[0].Malformed? {
      TrackError(out + [PipelineEmit(pipeline)], rest, t, layout, all);
    } else {
      TrackAction(out + [PipelineEmit(pipeline)], rest, t, layout, all);
    }
  }

  /**
   The commands collected but not yet sent when the frames run out: those of the pipeline open at that
   moment, if the read that found nothing was one of looking ahead. `tests` counts the tests for buffered
   input so far.
   */
  ghost function Pending(frames: seq<Frame>, t: Tx, layout: Option<Layout>, buffered: nat -> bool, tests: nat,
                         pipeline: seq<Command>): seq<Command>
    requires LayoutOk(layout)
    decreases |frames|, |pipeline| > 0
  {
    if pipeline != [] && !buffered(tests) then Pending(frames, t, layout, buffered, tests + 2, [])
    else if frames == [] then pipeline
    else if frames[0].Malformed? then
      Pending(frames[1..], t, layout, buffered, if pipeline == [] then tests else tests + 2, [])
    else
      var (t', action) := Step(t, frames[0].cmd, layout);
      if action == Passthrough then
        Pending(frames[1..], t', layout, buffered, if pipeline == [] then tests else tests + 1, pipeline + [frames[0].cmd])
      else Pending(frames[1..], t', layout, buffered, if pipeline == [] then tests + 1 else tests + 2, [])
  }

  /** A loop that never finds input buffered leaves nothing unsent. */
  lemma {:induction false} NothingPending(frames: seq<Frame>, t: Tx, layout: Option<Layout>, buffered: nat -> bool, tests: nat,
                                          pipeline: seq<Command>)
    requires LayoutOk(layout) && forall n: nat :: !buffered(n)
    ensures Pending(frames, t, layout, buffered, tests, pipeline) == []
    decreases |frames|, |pipeline| > 0
  {
    hide Step, LayoutOk;
    if pipeline != [] {
      NothingPending(frames, t, layout, buffered, tests + 2, []);
    } else if frames != [] {
      if frames[0].Malformed? {
        NothingPending(frames[1..], t, layout, buffered, tests, []);
      } else {
        var (t', action) := Step(t, frames[0].cmd, layout);
        if action == Passthrough {
          NothingPending(frames[1..], t', layout, buffered, tests, pipeline + [frames[0].cmd]);
        } else {
          NothingPending(frames[1..], t', layout, buffered, tests + 1, []);
        }
      }
    }
  }

  /**
   Serves all frames of a connection. `buffered` gives the outcome of each test for buffered input.
   Running out of frames stands for a failed read; if `dies`, that read ends the process.

   What is emitted is what the loop that never looks ahead emits, but for the commands of the pipeline that
   was open when the process died.
   */
  method Serve(frames: seq<Frame>, dies: bool, buffered: nat -> bool, layout: Option<Layout>)
    returns (out: seq<Emit>, ghost lost: seq<Command>)
    requires LayoutOk(layout)
    ensures lost == if dies then Pending(frames, IDLE, layout, buffered, 0, []) else []
    ensures Unpack(out) + Singles(lost) == OneByOne(frames, IDLE, layout)
    ensures NonEmptyPipes(out)
  {
    hide OneByOne, Step, LayoutOk, OnTrack, Pending, Singles;
    var tx := new TxState();
    ghost var all, pending := OneByOne(frames, IDLE, layout), Pending(frames, IDLE, layout, buffered, 0, []);
    var pos, tests := 0, 0;
    out := [];
    TrackStart(frames, layout);
    assert frames[0..] == frames;
    while pos < |frames|
      invariant pos <= |frames|
      invariant OnTrack(out, [], frames[pos..], tx.Value(), layout, all)
      invariant Pending(frames[pos..], tx.Value(), layout, buffered, tests, []) == pending
    {
      var f := frames[pos];
      ghost var rest, t := frames[pos..], tx.Value();
      assert rest[0] == f && rest[1..] == frames[pos + 1..];
      PendingNext(rest, t, layout, buffered, tests, []);
      pos := pos + 1;
      if f.Malformed? {
        TrackError(out, rest, t, layout, all);
        out := out + [WriteError(f.error)];
        continue;
      }
      var action := tx.Handle(f.cmd, layout);
      if action != Passthrough {
        TrackAction(out, rest, t, layout, all);
        out := out + [EmitFor(f.cmd, action)];
      } else {
        TrackQueue(out, [], rest, t, layout, all);
        assert [] + [f.cmd] == [f.cmd];
        var stopped;
        out, pos, tests, stopped, lost := LookAhead(frames, dies, pos, f.cmd, buffered, tests, tx, layout, out, all);
        if stopped {
          TrackEnd(out, lost, frames[pos..], tx.Value(), layout, all);
          return;
        }
      }
      if !buffered(tests) {
        TrackFlush(out, [], frames[pos..], tx.Value(), layout, all);
        out := out + [Flush];
      }
      tests := tests + 1;
    }
    lost := [];
    PendingEnd(tx.Value(), layout, buffered, tests, []);
    TrackEnd(out, [], frames[pos..], tx.Value(), layout, all);
  }

  /** One step of the loop on what is pending. */
  lemma PendingNext(rest: seq<Frame>, t: Tx, layout: Option<Layout>, buffered: nat -> bool, tests: nat, pipeline: seq<Command>)
    requires LayoutOk(layout) && rest != [] && (pipeline != [] ==> buffered(tests))
    ensures var now := Pending(rest, t, layout, buffered, tests, pipeline);
            var step := if pipeline == [] then 1 else 2;
            && (rest[0].Malformed? ==>
                  now == Pending(rest[1..], t, layout, buffered, if pipeline == [] then tests else tests + 2, []))
            && (rest[0].Parsed? ==>
                  var (t', action) := Step(t, rest[0].cmd, layout);
                  if action == Passthrough then
                    now == Pending(rest[1..], t', layout, buffered, if pipeline == [] then tests else tests + 1, pipeline + [rest[0].cmd])
                  else now == Pending(rest[1..], t', layout, buffered, tests + step, []))
  {
    hide Step, LayoutOk;
  }

  lemma PendingEnd(t: Tx, layout: Option<Layout>, buffered: nat -> bool, tests: nat, pipeline: seq<Command>)
    requires LayoutOk(layout)
    ensures pipeline == [] || buffered(tests) ==> Pending([], t, layout, buffered, tests, pipeline) == pipeline
  {
    hide Step, LayoutOk;
  }

  lemma PendingSent(rest: seq<Frame>, t: Tx, layout: Option<Layout>, buffered: nat -> bool, tests: nat, pipeline: seq<Command>)
    requires LayoutOk(layout) && pipeline != [] && !buffered(tests)
    ensures Pending(rest, t, layout, buffered, tests, pipeline) == Pending(rest, t, layout, buffered, tests + 2, [])
  {
    hide Step, LayoutOk;
  }

  lemma TrackStart(frames: seq<Frame>, layout: Option<Layout>)
    requires LayoutOk(layout)
    ensures OnTrack([], [], frames[0..], IDLE, layout, OneByOne(frames, IDLE, layout))
  {
    assert frames[0..] == frames;
  }

  lemma TrackEnd(out: seq<Emit>, pipeline: seq<Command>, rest: seq<Frame>, t: Tx, layout: Option<Layout>, all: seq<Emit>)
    requires LayoutOk(layout) && OnTrack(out, pipeline, rest, t, layout, all)
    ensures rest == [] ==> Unpack(out) + Singles(pipeline) == all && NonEmptyPipes(out)
  {
    hide Singles, Unpack;
  }

  /**
   Folds further commands into the pipeline while input is buffered. If the process dies reading, the
   pipeline is lost.
   */
  method LookAhead(frames: seq<Frame>, dies: bool, start: nat, first: Command, buffered: nat -> bool, test0: nat,
                   tx: TxState, layout: Option<Layout>, out0: seq<Emit>, ghost all: seq<Emit>)
    returns (out: seq<Emit>, pos: nat, tests: nat, stopped: bool, ghost lost: seq<Command>)
    requires LayoutOk(layout) && start <= |frames|
    requires OnTrack(out0, [first], frames[start..], tx.Value(), layout, all)
    modifies tx
    ensures start <= pos <= |frames|
    ensures OnTrack(out, lost, frames[pos..], tx.Value(), layout, all)
    ensures var pending := Pending(frames[start..], old(tx.Value()), layout, buffered, test0, [first]);
            if stopped then pos == |frames| && lost == if dies then pending else []
            else lost == [] && pending == Pending(frames[pos..], tx.Value(), layout, buffered, tests + 1, [])
    decreases |frames| - start
  {
    hide OneByOne, Step, LayoutOk, OnTrack, Pending;
    ghost var pending := Pending(frames[start..], tx.Value(), layout, buffered, test0, [first]);
    var pipeline := [first];
    out, pos, tests := out0, start, test0;
    while buffered(tests)
      invariant start <= pos <= |frames|
      invariant pipeline != [] && OnTrack(out, pipeline, frames[pos..], tx.Value(), layout, all)
      invariant Pending(frames[pos..], tx.Value(), layout, buffered, tests, pipeline) == pending
      decreases |frames| - pos
    {
      if pos == |frames| {
        assert frames[pos..] == [];
        PendingEnd(tx.Value(), layout, buffered, tests, pipeline);
        if dies {
          return out, pos, tests, true, pipeline;
        }
        TrackPipeline(out, pipeline, frames[pos..], tx.Value(), layout, all);
        out := out + [PipelineEmit(pipeline)];
        TrackFlush(out, [], frames[pos..], tx.Value(), layout, all);
        return out + [Flush], pos, tests, true, [];
      }
      var f := frames[pos];
      ghost var rest, t := frames[pos..], tx.Value();
      assert rest[0] == f && rest[1..] == frames[pos + 1..];
      TrackBoth(out, pipeline, rest, t, layout, all);
      PendingNext(rest, t, layout, buffered, tests, pipeline);
      tests := tests + 1;
      pos := pos + 1;
      if f.Malformed? {
        return out + [PipelineEmit(pipeline)] + [WriteError(f.error)], pos, tests, false, [];
      }
      TrackQueue(out, pipeline, rest, t, layout, all);
      var action := tx.Handle(f.cmd, layout);
      if action != Passthrough {
        return out + [PipelineEmit(pipeline)] + [EmitFor(f.cmd, action)], pos, tests, false, [];
      }
      pipeline := pipeline + [f.cmd];
    }
    PendingSent(frames[pos..], tx.Value(), layout, buffered, tests, pipeline);
    tests := tests + 1;
    TrackPipeline(out, pipeline, frames[pos..], tx.Value(), layout, all);
    return out + [PipelineEmit(pipeline)], pos, tests, false, [];
  }
}
