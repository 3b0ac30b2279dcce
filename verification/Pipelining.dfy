/**
 Pipelining is invisible: running what the connection loop emits gives the bytes and the store
 transitions of some run of the loop that never looks ahead.

 The worker's effect on the store is an arbitrary function. Other connections may change the store
 arbitrarily before each request of this one; taking a pipeline apart gives them further chances,
 which the matching run leaves unused.
 */
module Pipelining {
  import opened Numeral
  import opened Layout
  import opened Commands
  import opened Transaction
  import opened Connection

  /** The worker: one command, or one transaction, as a transition of the store with its reply. */
  datatype Server<!S> = Server(
    dispatch: (S, Command) -> (S, string),
    batch: (S, seq<Command>) -> (S, string),
    text: TxReply -> string)

  /** A store transition made for this connection. */
  datatype Transition<S> = Ran(cmd: Command, before: S, after: S) | RanBatch(cmds: seq<Command>, before: S, after: S)

  /** The store after a run, the bytes handed to the writer and the transitions in order. */
  datatype Outcome<S> = Outcome(store: S, written: string, trace: seq<Transition<S>>)

  /** An outcome followed by another. */
  function Then<S>(a: Outcome<S>, b: Outcome<S>): Outcome<S> {
    Outcome(b.store, a.written + b.written, a.trace + b.trace)
  }

  lemma ThenAssociates<S>(a: Outcome<S>, b: Outcome<S>, c: Outcome<S>)
    ensures Then(Then(a, b), c) == Then(a, Then(b, c))
  {}

  function RunOne<S>(srv: Server<S>, s: S, cmd: Command): Outcome<S> {
    var (s', reply) := srv.dispatch(s, cmd);
    Outcome(s', reply, [Ran(cmd, s, s')])
  }

  /** A pipeline request: the commands in order, their replies back to back. */
  function RunPipe<S>(srv: Server<S>, s: S, cmds: seq<Command>): Outcome<S> {
    if cmds == [] then Outcome(s, "", [])
    else
      var first := RunOne(srv, s, cmds[0]);
      Then(first, RunPipe(srv, first.store, cmds[1..]))
  }

  /** The worker's loop over a pipeline. */
  method DispatchPipeline<S>(srv: Server<S>, s: S, cmds: seq<Command>) returns (s': S, reply: string)
    ensures s' == RunPipe(srv, s, cmds).store && reply == RunPipe(srv, s, cmds).written
  {
    s', reply := s, "";
    ghost var all := RunPipe(srv, s, cmds);
    assert cmds[0..] == cmds;
    for i := 0 to |cmds|
      invariant all.store == RunPipe(srv, s', cmds[i..]).store
      invariant all.written == reply + RunPipe(srv, s', cmds[i..]).written
    {
      assert cmds[i..][1..] == cmds[i + 1..];
      var (next, r) := srv.dispatch(s', cmds[i]);
      s', reply := next, reply + r;
    }
  }

  type Interference<!S> = seq<S -> S>

  /** One emitted step on store `s`, after the others have done `other` to it if it is a request. */
  function RunEmit<S>(srv: Server<S>, e: Emit, other: S -> S, s: S): Outcome<S> {
    match e
    case Single(cmd) => RunOne(srv, other(s), cmd)
    case Pipe(cmds) => RunPipe(srv, other(s), cmds)
    case Batch(cmds) =>
      var (s', reply) := srv.batch(other(s), cmds);
      Outcome(s', reply, [RanBatch(cmds, other(s), s')])
    case WriteReply(reply) => Outcome(s, srv.text(reply), [])
    case WriteError(_) => Outcome(s, "", [])
    case Flush => Outcome(s, "", [])
  }

  /** A run of emitted steps; `others[i]` is what happens to the store before step `i`. */
  function Execute<S>(srv: Server<S>, out: seq<Emit>, others: Interference<S>, s: S): Outcome<S>
    requires |others| == |out|
    decreases |out|
  {
    if out == [] then Outcome(s, "", [])
    else
      var first := RunEmit(srv, out[0], others[0], s);
      Then(first, Execute(srv, out[1..], others[1..], first.store))
  }

  lemma {:induction false} ExecuteConcat<S>(srv: Server<S>, a: seq<Emit>, oa: Interference<S>, b: seq<Emit>, ob: Interference<S>, s: S)
    requires |oa| == |a| && |ob| == |b|
    ensures var first := Execute(srv, a, oa, s);
            Execute(srv, a + b, oa + ob, s) == Then(first, Execute(srv, b, ob, first.store))
    decreases |a|
  {
    hide RunEmit;
    if a == [] {
      assert a + b == b && oa + ob == ob;
    } else {
      assert (a + b)[1..] == a[1..] + b && (oa + ob)[1..] == oa[1..] + ob;
      var first := RunEmit(srv, a[0], oa[0], s);
      ExecuteConcat(srv, a[1..], oa[1..], b, ob, first.store);
      var rest := Execute(srv, a[1..], oa[1..], first.store);
      ThenAssociates(first, rest, Execute(srv, b, ob, rest.store));
    }
  }

  function Same<S>(s: S): S {
    s
  }

  /** Nothing happens in between. */
  ghost function Quiet<S>(n: nat): (o: Interference<S>)
    ensures |o| == n && forall i :: 0 <= i < n ==> o[i] == Same
  {
    seq(n, _ => Same)
  }

  lemma {:induction false} SinglesRunPipe<S>(srv: Server<S>, cmds: seq<Command>, s: S)
    ensures Execute(srv, Singles(cmds), Quiet(|cmds|), s) == RunPipe(srv, s, cmds)
    decreases |cmds|
  {
    if cmds != [] {
      assert Singles(cmds)[1..] == Singles(cmds[1..]);
      assert Quiet<S>(|cmds|)[1..] == Quiet<S>(|cmds| - 1);
      SinglesRunPipe(srv, cmds[1..], RunOne(srv, s, cmds[0]).store);
    }
  }

  /** A pipeline, with others before it, is its commands one by one, with others before the first only. */
  lemma PipeIsSingles<S>(srv: Server<S>, cmds: seq<Command>, other: S -> S, s: S)
    requires cmds != []
    ensures Execute(srv, Singles(cmds), [other] + Quiet(|cmds| - 1), s) == RunPipe(srv, other(s), cmds)
  {
    var o := [other] + Quiet(|cmds| - 1);
    assert o[1..] == Quiet(|cmds| - 1);
    assert Singles(cmds)[1..] == Singles(cmds[1..]);
    SinglesRunPipe(srv, cmds[1..], RunOne(srv, other(s), cmds[0]).store);
  }

  /** What others do in the matching run: the same before each request, nothing inside a pipeline. */
  ghost function UnpackOthers<S>(out: seq<Emit>, others: Interference<S>): (o: Interference<S>)
    requires |others| == |out| && NonEmptyPipes(out)
    ensures |o| == |Unpack(out)|
  {
    if out == [] then []
    else
      var n := |out| - 1;
      UnpackOthers(out[..n], others[..n])
      + match out[n]
        case Pipe(cmds) => [others[n]] + Quiet(|cmds| - 1)
        case Flush => []
        case _ => [others[n]]
  }

  lemma UnpackOneRun<S>(srv: Server<S>, e: Emit, other: S -> S, s: S, o: Interference<S>)
    requires |o| == |UnpackOne(e)| && (e.Pipe? ==> e.cmds != [] && o == [other] + Quiet(|e.cmds| - 1))
    requires !e.Pipe? && !e.Flush? ==> o == [other]
    ensures Execute(srv, UnpackOne(e), o, s) == RunEmit(srv, e, other, s)
  {
    if e.Pipe? {
      PipeIsSingles(srv, e.cmds, other, s);
    } else if !e.Flush? {
      ExecuteOne(srv, e, other, s);
    }
  }

  lemma ExecuteOne<S>(srv: Server<S>, e: Emit, other: S -> S, s: S)
    ensures Execute(srv, [e], [other], s) == RunEmit(srv, e, other, s)
  {
    hide RunEmit;
    var first := RunEmit(srv, e, other, s);
    assert Execute(srv, [e][1..], [other][1..], first.store) == Outcome(first.store, "", []);
    assert first.written + "" == first.written && first.trace + [] == first.trace;
  }

  /** Running with pipelines and running them taken apart have the same outcome. */
  lemma {:induction false} UnpackPreserves<S>(srv: Server<S>, out: seq<Emit>, others: Interference<S>, s: S)
    requires |others| == |out| && NonEmptyPipes(out)
    ensures Execute(srv, Unpack(out), UnpackOthers(out, others), s) == Execute(srv, out, others, s)
    decreases |out|
  {
    hide RunEmit, Execute, UnpackOne;
    if out == [] {
    } else {
      var n := |out| - 1;
      var init, e := Execute(srv, out[..n], others[..n], s), out[n];
      UnpackPreserves(srv, out[..n], others[..n], s);
      var o := UnpackOthers(out, others)[|UnpackOthers(out[..n], others[..n])|..];
      assert UnpackOthers(out, others) == UnpackOthers(out[..n], others[..n]) + o;
      LastOthers(e, others[n], o, out, others);
      UnpackOneRun(srv, e, others[n], init.store, o);
      ExecuteConcat(srv, Unpack(out[..n]), UnpackOthers(out[..n], others[..n]), UnpackOne(e), o, s);
      ExecuteConcat(srv, out[..n], others[..n], [e], [others[n]], s);
      ExecuteOne(srv, e, others[n], init.store);
      assert out == out[..n] + [e] && others == others[..n] + [others[n]];
    }
  }

  lemma LastOthers<S>(e: Emit, other: S -> S, o: Interference<S>, out: seq<Emit>, others: Interference<S>)
    requires |others| == |out| > 0 && NonEmptyPipes(out) && e == out[|out| - 1] && other == others[|out| - 1]
    requires var n := |out| - 1; UnpackOthers(out, others) == UnpackOthers(out[..n], others[..n]) + o
    ensures |o| == |UnpackOne(e)| && (e.Pipe? ==> o == [other] + Quiet(|e.cmds| - 1))
    ensures !e.Pipe? && !e.Flush? ==> o == [other]
  {
    var n := |out| - 1;
    var all, front := UnpackOthers(out, others), UnpackOthers(out[..n], others[..n]);
    assert all[|front|..] == o;
  }

  /**
   For every stream of frames and every outcome of the tests for buffered input, what the loop
   emitted runs exactly as the loop that never batches would under some behaviour of the others:
   same bytes to the writer, same store transitions in the same order, same store. If the process died
   with commands unsent, it runs as that loop stopped before them.
   */
  lemma PipeliningInvisible<S>(srv: Server<S>, frames: seq<Frame>, layout: Option<Layout>, out: seq<Emit>, lost: seq<Command>,
                               others: Interference<S>, s: S)
    requires LayoutOk(layout) && Unpack(out) + Singles(lost) == OneByOne(frames, IDLE, layout) && NonEmptyPipes(out)
    requires |others| == |out|
    ensures exists o: Interference<S> :: |o| == |OneByOne(frames, IDLE, layout)| - |lost|
              && Execute(srv, OneByOne(frames, IDLE, layout)[..|o|], o, s) == Execute(srv, out, others, s)
  {
    hide Execute, Unpack, OneByOne, LayoutOk;
    UnpackPreserves(srv, out, others, s);
    var o := UnpackOthers(out, others);
    assert OneByOne(frames, IDLE, layout)[..|o|] == Unpack(out);
  }
}
