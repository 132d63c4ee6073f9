/** Which packets the pipeline takes in, and which of them each AddRemotes call works on,
    read off the actions alone. */
module Packets {
  import opened Types
  import opened PoolModel
  import opened Batches
  import opened Relay
  import Admission

  /** How many connections were opened. */
  function Opened(actions: seq<Action>): nat {
    if actions == [] then 0
    else Opened(actions[..|actions| - 1]) + if actions[|actions| - 1].Connect? then 1 else 0
  }

  predicate Complete(txs: seq<Option<Transaction>>) {
    forall tx :: tx in txs ==> tx.Some?
  }

  function Content(txs: seq<Option<Transaction>>): seq<Transaction>
    requires Complete(txs)
  {
    seq(|txs|, i requires 0 <= i < |txs| => txs[i].value)
  }

  /** The complete transaction packets that arrived on some connection, in order. */
  function Arrived(actions: seq<Action>): seq<seq<Transaction>> {
    if actions == [] then []
    else
      var before := actions[..|actions| - 1];
      match actions[|actions| - 1]
      case TxsArrive(p, txs) =>
        Arrived(before) + if p < Opened(before) && Complete(txs) then [Content(txs)] else []
      case _ => Arrived(before)
  }

  /** The packets named by the submissions of packets that had arrived, in order. */
  function Submitted(actions: seq<Action>): seq<seq<Transaction>> {
    if actions == [] then []
    else
      var before := actions[..|actions| - 1];
      match actions[|actions| - 1]
      case Submit(i) => Submitted(before) + if i < |Arrived(before)| then [Arrived(before)[i]] else []
      case _ => Submitted(before)
  }

  function BatchesOf(calls: seq<Admission.Call>): seq<seq<Transaction>> {
    seq(|calls|, i requires 0 <= i < |calls| => calls[i].batch)
  }

  /** A packet is delivered whole exactly if no transaction in it is nil. */
  lemma CompleteIsWhole(txs: seq<Option<Transaction>>)
    ensures |BeforeNil(txs)| == |txs| <==> Complete(txs)
    ensures Complete(txs) ==> BeforeNil(txs) == Content(txs)
  {
    var n := |BeforeNil(txs)|;
    BeforeNilMeaning(txs);
    assert n < |txs| ==> txs[n] in txs;
  }

  /** The machine's state agrees with what the actions say. */
  ghost predicate Agrees(s: State, count: nat, arrived: seq<seq<Transaction>>, submitted: seq<seq<Transaction>>) {
    |s.conns| == count && s.inbox == arrived && BatchesOf(s.pool.calls) == submitted
  }

  /** No step of a running call starts one or changes what another works on. */
  lemma CallsKeepBatches(p: Admission.State, cap: Capacity, step: Admission.Action)
    requires p.caches.Shaped()
    ensures BatchesOf(Admission.Step(p, cap, step).calls)
            == BatchesOf(p.calls) + if step.Begin? then [step.batch] else []
  {
  }

  lemma StepAgrees(s: State, cap: Capacity, a: Action, arrived: seq<seq<Transaction>>, submitted: seq<seq<Transaction>>)
    requires s.pool.caches.Shaped() && Agrees(s, |s.conns|, arrived, submitted)
    ensures var whole := a.TxsArrive? && a.conn < |s.conns| && Complete(a.txs);
            var begun := a.Submit? && a.packet < |arrived|;
            Agrees(Step(s, cap, a), |s.conns| + if a.Connect? then 1 else 0,
                   arrived + if whole then [Content(a.txs)] else [],
                   submitted + if begun then [arrived[a.packet]] else [])
  {
    if a.TxsArrive? {
      CompleteIsWhole(a.txs);
    } else if a.Submit? && a.packet < |s.inbox| {
      CallsKeepBatches(s.pool, cap, Admission.Begin(s.inbox[a.packet]));
    } else if a.InCall? {
      CallsKeepBatches(s.pool, cap, a.step);
    }
  }

  /** In every run the packets waiting to be submitted are the complete ones that arrived, in
      order, and the calls work, in the order they began, on just the packets submitted. */
  lemma {:induction false} CallsWorkOnPackets(cap: Capacity, actions: seq<Action>)
    ensures var s := Run(cap, actions);
            && |s.conns| == Opened(actions) && s.inbox == Arrived(actions)
            && BatchesOf(s.pool.calls) == Submitted(actions)
    decreases |actions|
  {
    if actions != [] {
      var before := actions[..|actions| - 1];
      CallsWorkOnPackets(cap, before);
      StepAgrees(Run(cap, before), cap, actions[|actions| - 1], Arrived(before), Submitted(before));
    }
  }
}
