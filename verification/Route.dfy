/**
 Routing: whether this node may run a command, given the slots of its keys.
 */
module Route {
  import opened Numeral
  import opened Slot
  import opened KeySlot
  import opened Layout
  import opened Commands

  datatype Verdict = Serve | CrossSlot | ClusterDown | Moved(slot: nat, addr: string)

  ghost predicate SameSlot(keys: seq<string>, slot: nat) {
    forall i :: 0 <= i < |keys| ==> SlotOf(keys[i]) == slot
  }

  /** The rule for a list of keys; no layout means cluster mode is off. */
  method CheckKeys(layout: Option<Layout>, keys: seq<string>) returns (v: Verdict)
    requires layout.Some? ==> WellFormed(layout.value)
    ensures v == Check(layout, keys)
  {
    hide SlotOf, WellFormed;
    if layout.None? || keys == [] {
      return Serve;
    }
    var l := layout.value;
    var slot := SlotOf(keys[0]);
    for i := 1 to |keys|
      invariant SameSlot(keys[..i], slot)
    {
      if SlotOf(keys[i]) != slot {
        return CrossSlot;
      }
    }
    assert keys[..|keys|] == keys;
    OwnerInRange(l, slot);
    if l.owner[slot] == -1 {
      return ClusterDown;
    }
    if l.owner[slot] != l.self {
      return Moved(slot, l.nodes[l.owner[slot]].addr);
    }
    return Serve;
  }

  /** An owned slot points at a node of the layout. */
  lemma OwnerInRange(l: Layout, slot: nat)
    requires WellFormed(l) && slot < NUM_SLOTS
    ensures |l.owner| == NUM_SLOTS && -1 <= l.owner[slot] < |l.nodes|
  {
    hide Claims, Disjoint;
    if l.owner[slot] != -1 {
      var k :| 0 <= k < |Claims(l.nodes)| && InRange(Claims(l.nodes)[k].range, slot) && Claims(l.nodes)[k].who == l.owner[slot];
      ClaimOrigin(l.nodes, k);
    }
  }

  ghost function Check(layout: Option<Layout>, keys: seq<string>): Verdict
    requires layout.Some? ==> WellFormed(layout.value)
  {
    if layout.None? || keys == [] then Serve
    else if !SameSlot(keys, SlotOf(keys[0])) then CrossSlot
    else
      OwnerInRange(layout.value, SlotOf(keys[0]));
      var l, who := layout.value, layout.value.owner[SlotOf(keys[0])];
      if who == -1 then ClusterDown
      else if who != l.self then Moved(SlotOf(keys[0]), l.nodes[who].addr)
      else Serve
  }

  /** This node serves keys exactly when it owns the slot of every one of them, and it is one slot. */
  lemma ServedKeys(l: Layout, keys: seq<string>)
    requires WellFormed(l)
    ensures Check(Some(l), keys) == Serve
       <==> keys == [] || (SameSlot(keys, SlotOf(keys[0])) && l.owner[SlotOf(keys[0])] == l.self)
    ensures Check(Some(l), keys) == Serve ==>
              forall i :: 0 <= i < |keys| ==> SlotOf(keys[i]) < |l.owner| && l.owner[SlotOf(keys[i])] == l.self
  {
    hide SlotOf, WellFormed;
    if keys != [] {
      OwnerInRange(l, SlotOf(keys[0]));
    }
  }

  ghost function CheckCommand(layout: Option<Layout>, cmd: Command): Verdict
    requires layout.Some? ==> WellFormed(layout.value)
  {
    Check(layout, Keys(cmd))
  }

  method CheckOne(cmd: Command, layout: Option<Layout>) returns (v: Verdict)
    requires layout.Some? ==> WellFormed(layout.value)
    ensures v == CheckCommand(layout, cmd)
  {
    hide Check, Keys, WellFormed;
    var keys, _ := KeysOf(cmd);
    v := CheckKeys(layout, keys);
  }

  /** All keys of a list of commands, in order. */
  ghost function BatchKeys(cmds: seq<Command>): seq<string> {
    if cmds == [] then [] else BatchKeys(cmds[..|cmds| - 1]) + Keys(cmds[|cmds| - 1])
  }

  method CheckBatch(layout: Option<Layout>, cmds: seq<Command>) returns (v: Verdict)
    requires layout.Some? ==> WellFormed(layout.value)
    ensures v == Check(layout, BatchKeys(cmds))
  {
    hide Check, Keys;
    var keys := [];
    for i := 0 to |cmds|
      invariant keys == BatchKeys(cmds[..i])
    {
      var k, _ := KeysOf(cmds[i]);
      assert cmds[..i + 1][..i] == cmds[..i];
      keys := keys + k;
    }
    assert cmds[..|cmds|] == cmds;
    v := CheckKeys(layout, keys);
  }

  lemma {:induction false} MemberKeys(cmds: seq<Command>, i: nat, k: nat)
    requires i < |cmds| && k < |Keys(cmds[i])|
    ensures Keys(cmds[i])[k] in BatchKeys(cmds)
  {
    hide Keys;
    if i < |cmds| - 1 {
      MemberKeys(cmds[..|cmds| - 1], i, k);
    }
  }

  /** Keys among served keys are served. */
  lemma ServedPart(l: Layout, keys: seq<string>, all: seq<string>)
    requires WellFormed(l) && Check(Some(l), all) == Serve
    requires forall k :: 0 <= k < |keys| ==> keys[k] in all
    ensures Check(Some(l), keys) == Serve
  {
    hide SlotOf, WellFormed, Check;
    ServedKeys(l, keys);
    ServedKeys(l, all);
    if keys != [] {
      assert keys[0] in all;
      assert forall x :: x in all ==> SlotOf(x) == SlotOf(all[0]);
    }
  }

  /** A batch that passes the combined check has every member pass its own. */
  lemma BatchServesMembers(layout: Option<Layout>, cmds: seq<Command>, i: nat)
    requires layout.Some? ==> WellFormed(layout.value)
    requires i < |cmds| && Check(layout, BatchKeys(cmds)) == Serve
    ensures CheckCommand(layout, cmds[i]) == Serve
  {
    hide SlotOf, WellFormed, Keys, Check, BatchKeys;
    forall k | 0 <= k < |Keys(cmds[i])|
      ensures Keys(cmds[i])[k] in BatchKeys(cmds)
    {
      MemberKeys(cmds, i, k);
    }
    if layout.None? {
      CheckOff(Keys(cmds[i]));
    } else {
      ServedPart(layout.value, Keys(cmds[i]), BatchKeys(cmds));
    }
  }

  lemma CheckOff(keys: seq<string>)
    ensures Check(None, keys) == Serve
  {}
}
