/** Every send is possible, and every message that is sent can arrive, from every state the network can be in. */
module Progress {
  import opened Sequences
  import opened Types
  import opened Topology
  import opened Network
  import opened Delivery

  /** Whatever goes on in the network, a home may send to any receiver. */
  lemma SendAlwaysPossible(c: Config, s: Net, id: byte, receiver: byte)
    requires Proper(c) && Reachable(c, s) && id in c.home
    ensures CanStep(c, s, Send(id, receiver))
  {
    hide Tree, Reachable, TablesSound;
    ReachableInv(c, s);
    HaveTables(c, s, c.home[id]);
  }

  lemma RunOn(c: Config, steps: seq<Step>, states: seq<Net>, step: Step)
    requires Run(c, steps, states) && CanStep(c, states[|steps|], step)
    ensures var states' := states + [Network.Next(c, states[|steps|], step)];
            Run(c, steps + [step], states') && Sends(steps + [step]) == Sends(steps) + if step.Send? then 1 else 0
  {
    hide Start, CanStep, Network.Next;
    var steps', states' := steps + [step], states + [Network.Next(c, states[|steps|], step)];
    Append(steps, step);
    forall i | 0 <= i < |steps'|
      ensures CanStep(c, states'[i], steps'[i]) && states'[i + 1] == Network.Next(c, states'[i], steps'[i])
    {
      if i < |steps| {
        assert states'[i] == states[i] && states'[i + 1] == states[i + 1] && steps'[i] == steps[i];
      }
    }
  }

  lemma EndOfRun(c: Config, steps: seq<Step>, states: seq<Net>)
    requires Run(c, steps, states)
    ensures |states| == |steps| + 1 && Reachable(c, states[|steps|])
  {
    hide Start, CanStep, Network.Next;
  }

  lemma DeliverySendsNothing(c: Config, s: Net, f: Flight)
    requires CanStep(c, s, Deliver(f))
    ensures Network.Next(c, s, Deliver(f)).sent == s.sent
  {
    hide Out, Copies, Taught;
  }

  /** Without further sends the network falls silent, whichever copy arrives next. */
  lemma {:induction false} DiesOut(c: Config, steps: seq<Step>, states: seq<Net>) returns (steps': seq<Step>, states': seq<Net>)
    requires Proper(c) && Run(c, steps, states)
    ensures Run(c, steps', states') && steps <= steps' && states <= states'
    ensures forall i | |steps| <= i < |steps'| :: steps'[i].Deliver?
    ensures |states'| == |steps'| + 1 && |states| == |steps| + 1
    ensures states'[|steps'|].flights == multiset{} && states'[|steps'|].sent == states[|steps|].sent
    decreases |c.graph.sites| * Sends(steps) - |steps|
  {
    hide Proper, Run, CanStep, Sends, Reachable, Network.Next;
    EndOfRun(c, steps, states);
    var s := states[|steps|];
    if s.flights == multiset{} {
      steps', states' := steps, states;
    } else {
      var f :| f in s.flights;
      ArrivalAlwaysPossible(c, s, f);
      RunOn(c, steps, states, Deliver(f));
      DeliverySendsNothing(c, s, f);
      var longer, more := steps + [Deliver(f)], states + [Network.Next(c, s, Deliver(f))];
      FloodsEnd(c, longer, more);
      steps', states' := DiesOut(c, longer, more);
    }
  }

  /**
   From every state that any run ends in, any home may send anything to anybody, and then, by
   arrivals alone, the message reaches its receiver's home exactly once, or every site exactly once
   if it is for everybody.
   */
  lemma EveryMessageArrives(c: Config, steps: seq<Step>, states: seq<Net>, id: byte, receiver: byte)
    returns (steps': seq<Step>, states': seq<Net>)
    requires Proper(c) && Run(c, steps, states) && id in c.home
    ensures Run(c, steps', states') && steps + [Send(id, receiver)] <= steps' && states <= states'
    ensures forall i | |steps| < i < |steps'| :: steps'[i].Deliver?
    ensures |states'| == |steps'| + 1 && |states| == |steps| + 1
    ensures var p, s' := Packet(|states[|steps|].sent|, id, receiver), states'[|steps'|];
            && s'.flights == multiset{}
            && (receiver in c.home ==> s'.handled[(c.home[receiver], p)] == 1)
            && (receiver !in c.home ==> forall b | b in c.graph.sites :: s'.handled[(b, p)] == 1)
  {
    hide Proper, Run, CanStep, Sends, Reachable, Network.Next;
    EndOfRun(c, steps, states);
    var s := states[|steps|];
    SendAlwaysPossible(c, s, id, receiver);
    RunOn(c, steps, states, Send(id, receiver));
    SendIsNoted(c, s, id, receiver);
    var longer, more := steps + [Send(id, receiver)], states + [Network.Next(c, s, Send(id, receiver))];
    steps', states' := DiesOut(c, longer, more);
    EndOfRun(c, steps', states');
    var p, s' := Packet(|s.sent|, id, receiver), states'[|steps'|];
    if receiver in c.home {
      UnicastExactlyOnce(c, s', p);
    } else {
      forall b | b in c.graph.sites ensures s'.handled[(b, p)] == 1 {
        BroadcastExactlyOnce(c, s', p, b);
      }
    }
  }

  lemma SendIsNoted(c: Config, s: Net, id: byte, receiver: byte)
    requires CanStep(c, s, Send(id, receiver))
    ensures Network.Next(c, s, Send(id, receiver)).sent == s.sent + [Packet(|s.sent|, id, receiver)]
  {
    hide Out, Copies, Taught;
  }
}
