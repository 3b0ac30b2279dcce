/**
 The MULTI/EXEC state of one connection. It decides what to do with each command without looking at
 the data: answer at once, pass it on, or release the queued commands as one batch.
 */
module Transaction {
  import opened Numeral
  import opened Layout
  import opened Commands
  import opened Route

  datatype TxReply =
    | OkReply
    | QueuedReply
    | NestedMulti
    | DiscardWithoutMulti
    | ExecWithoutMulti
    | ExecAbort
    | UnknownCommand(name: string)
    | Redirected(v: Verdict)

  datatype Action = Passthrough | Answer(reply: TxReply) | Exec(batch: seq<Command>)

  datatype Tx = Tx(isMulti: bool, queued: seq<Command>, dirty: bool)

  const IDLE := Tx(false, [], false)

  predicate IsControl(cmd: Command) {
    cmd.name == "MULTI" || cmd.name == "DISCARD" || cmd.name == "EXEC"
  }

  ghost predicate LayoutOk(layout: Option<Layout>) {
    layout.Some? ==> WellFormed(layout.value)
  }

  /** A command that may be queued: registered, and its keys are served here. */
  ghost predicate Queueable(cmd: Command, layout: Option<Layout>)
    requires LayoutOk(layout)
  {
    IsKnown(cmd.name) && CheckCommand(layout, cmd) == Serve
  }

  class TxState {
    var isMulti: bool
    var queued: seq<Command>
    var dirty: bool

    constructor ()
      ensures Value() == IDLE
    {
      isMulti, queued, dirty := false, [], false;
    }

    function Value(): Tx
      reads this
    {
      Tx(isMulti, queued, dirty)
    }

    method Reset()
      modifies this
      ensures Value() == IDLE
    {
      isMulti, queued, dirty := false, [], false;
    }

    method Handle(cmd: Command, layout: Option<Layout>) returns (action: Action)
      requires LayoutOk(layout)
      modifies this
      ensures (Value(), action) == Step(old(Value()), cmd, layout)
    {
      hide IsKnown, CheckCommand, WellFormed;
      if cmd.name == "MULTI" {
        if isMulti {
          return Answer(NestedMulti);
        }
        isMulti := true;
        return Answer(OkReply);
      } else if cmd.name == "DISCARD" {
        if !isMulti {
          return Answer(DiscardWithoutMulti);
        }
        Reset();
        return Answer(OkReply);
      } else if cmd.name == "EXEC" {
        if !isMulti {
          return Answer(ExecWithoutMulti);
        }
        if dirty {
          Reset();
          return Answer(ExecAbort);
        }
        var batch := queued;
        Reset();
        return Exec(batch);
      }
      if !isMulti {
        return Passthrough;
      }
      if !IsKnown(cmd.name) {
        dirty := true;
        return Answer(UnknownCommand(cmd.name));
      }
      var v := CheckOne(cmd, layout);
      if v != Serve {
        dirty := true;
        return Answer(Redirected(v));
      }
      queued := queued + [cmd];
      return Answer(QueuedReply);
    }
  }

  /** The same decisions on values. */
  ghost function Step(t: Tx, cmd: Command, layout: Option<Layout>): (Tx, Action)
    requires LayoutOk(layout)
  {
    if cmd.name == "MULTI" then
      if t.isMulti then (t, Answer(NestedMulti)) else (t.(isMulti := true), Answer(OkReply))
    else if cmd.name == "DISCARD" then
      if !t.isMulti then (t, Answer(DiscardWithoutMulti)) else (IDLE, Answer(OkReply))
    else if cmd.name == "EXEC" then
      if !t.isMulti then (t, Answer(ExecWithoutMulti))
      else if t.dirty then (IDLE, Answer(ExecAbort))
      else (IDLE, Exec(t.queued))
    else if !t.isMulti then (t, Passthrough)
    else if !IsKnown(cmd.name) then (t.(dirty := true), Answer(UnknownCommand(cmd.name)))
    else if CheckCommand(layout, cmd) != Serve then
      (t.(dirty := true), Answer(Redirected(CheckCommand(layout, cmd))))
    else (t.(queued := t.queued + [cmd]), Answer(QueuedReply))
  }

  // Whole histories

  /** The state after a history of commands. */
  ghost function After(h: seq<Command>, layout: Option<Layout>): Tx
    requires LayoutOk(layout)
  {
    if h == [] then IDLE else Step(After(h[..|h| - 1], layout), h[|h| - 1], layout).0
  }

  /** Whether a history ends inside a transaction, from the names of its commands alone. */
  ghost predicate Open(h: seq<Command>) {
    if h == [] then false
    else if h[|h| - 1].name == "MULTI" then true
    else if h[|h| - 1].name == "EXEC" || h[|h| - 1].name == "DISCARD" then false
    else Open(h[..|h| - 1])
  }

  /** The commands after the MULTI that opened the current transaction; nested MULTIs do not count. */
  ghost function Body(h: seq<Command>): seq<Command> {
    if !Open(h) then []
    else
      var init, last := h[..|h| - 1], h[|h| - 1];
      if last.name == "MULTI" then Body(init) else Body(init) + [last]
  }

  ghost predicate AllQueueable(cmds: seq<Command>, layout: Option<Layout>)
    requires LayoutOk(layout)
  {
    forall i :: 0 <= i < |cmds| ==> Queueable(cmds[i], layout)
  }

  /** The commands of a list that may be queued, in order. */
  ghost function Accepted(cmds: seq<Command>, layout: Option<Layout>): seq<Command>
    requires LayoutOk(layout)
  {
    if cmds == [] then []
    else
      var init, last := Accepted(cmds[..|cmds| - 1], layout), cmds[|cmds| - 1];
      if Queueable(last, layout) then init + [last] else init
  }

  lemma {:induction false} AcceptedAll(cmds: seq<Command>, layout: Option<Layout>)
    requires LayoutOk(layout) && AllQueueable(cmds, layout)
    ensures Accepted(cmds, layout) == cmds
  {
    hide Queueable, LayoutOk;
    if cmds != [] {
      AcceptedAll(cmds[..|cmds| - 1], layout);
    }
  }

  ghost function StateFor(open: bool, body: seq<Command>, layout: Option<Layout>): Tx
    requires LayoutOk(layout)
  {
    Tx(open, Accepted(body, layout), !AllQueueable(body, layout))
  }

  /** The state after any history is given by its open transaction alone. */
  lemma {:induction false} StateOfHistory(h: seq<Command>, layout: Option<Layout>)
    requires LayoutOk(layout)
    ensures After(h, layout) == StateFor(Open(h), Body(h), layout)
  {
    hide Queueable, LayoutOk, IsKnown, CheckCommand, StateFor, Step;
    NoBody(layout);
    if h != [] {
      var init, last := h[..|h| - 1], h[|h| - 1];
      StateOfHistory(init, layout);
      StepState(Open(init), Body(init), last, layout);
    }
  }

  lemma NoBody(layout: Option<Layout>)
    requires LayoutOk(layout)
    ensures StateFor(false, [], layout) == IDLE
  {}

  lemma StepState(open: bool, body: seq<Command>, last: Command, layout: Option<Layout>)
    requires LayoutOk(layout) && (!open ==> body == [])
    ensures var after := Step(StateFor(open, body, layout), last, layout).0;
            && (last.name == "MULTI" ==> after == StateFor(true, body, layout))
            && (last.name == "EXEC" || last.name == "DISCARD" ==> after == StateFor(false, [], layout))
            && (!IsControl(last) && open ==> after == StateFor(true, body + [last], layout))
            && (!IsControl(last) && !open ==> after == StateFor(false, [], layout))
  {
    hide Queueable, LayoutOk, IsKnown, CheckCommand, Accepted, AllQueueable;
    NoBody(layout);
    BodyGrows(body, last, layout);
    QueueableDef(last, layout);
  }

  lemma QueueableDef(cmd: Command, layout: Option<Layout>)
    requires LayoutOk(layout)
    ensures Queueable(cmd, layout) == (IsKnown(cmd.name) && CheckCommand(layout, cmd) == Serve)
  {}

  lemma BodyGrows(body: seq<Command>, last: Command, layout: Option<Layout>)
    requires LayoutOk(layout)
    ensures Accepted(body + [last], layout)
         == (if Queueable(last, layout) then Accepted(body, layout) + [last] else Accepted(body, layout))
    ensures AllQueueable(body + [last], layout) <==> AllQueueable(body, layout) && Queueable(last, layout)
  {
    hide Queueable, LayoutOk;
    var more := body + [last];
    assert more[..|more| - 1] == body && more[|body|] == last;
    assert forall i :: 0 <= i < |body| ==> more[i] == body[i];
  }

  /**
   EXEC after any history: a batch is released exactly if a transaction is open and none of its
   commands was rejected, and the batch is then exactly those commands in order.
   */
  lemma ExecReleases(h: seq<Command>, exec: Command, layout: Option<Layout>)
    requires LayoutOk(layout) && exec.name == "EXEC"
    ensures var action := Step(After(h, layout), exec, layout).1;
            && (action.Exec? <==> Open(h) && AllQueueable(Body(h), layout))
            && (action.Exec? ==> action.batch == Body(h))
            && (Open(h) && !AllQueueable(Body(h), layout) <==> action == Answer(ExecAbort))
  {
    hide Queueable, LayoutOk, After, Accepted, AllQueueable, Body, Open;
    StateOfHistory(h, layout);
    if AllQueueable(Body(h), layout) {
      AcceptedAll(Body(h), layout);
    }
  }

  /** Outside a transaction every ordinary command is passed on, and nothing else ever is. */
  lemma PassesThrough(h: seq<Command>, cmd: Command, layout: Option<Layout>)
    requires LayoutOk(layout)
    ensures Step(After(h, layout), cmd, layout).1 == Passthrough <==> !Open(h) && !IsControl(cmd)
  {
    hide Queueable, LayoutOk, After, Accepted, AllQueueable, Body, Open;
    StateOfHistory(h, layout);
  }

  /** No released command is a control command, so batches cannot nest. */
  lemma {:induction false} BodyPlain(h: seq<Command>)
    ensures forall i :: 0 <= i < |Body(h)| ==> !IsControl(Body(h)[i])
  {
    if Open(h) {
      BodyPlain(h[..|h| - 1]);
    }
  }
}
