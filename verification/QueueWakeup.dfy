/**
  Two more facts about every interleaving: the halves of a pair stay together, and an
  edge-triggered notification is enough for `add` and `sub` sleepers.
 */
module QueueWakeup {
  import opened QueueProtocol
  import opened QueueSafety

  // ----- pairs stay adjacent

  predicate PairOpen(pc: Pc) {
    pc.Writing? && pc.index == 1
  }

  ghost predicate Pairs(s: State) {
    && (forall i :: 0 <= i < |s.h.enq| ==> Paired(s.h.enq, i, Locker(s), s.h.orphans))
    && (PairOpen(Locker(s)) ==>
          && 0 < |s.h.enq|
          && s.h.enq[|s.h.enq| - 1].role == First
          && s.h.enq[|s.h.enq| - 1].id == Locker(s).call.id)
  }

  lemma PairsPublish(s: State, t: ThreadId)
    requires Here(s, t) && s.threads[t].Writing? && s.threads[t].wstage.TailStored? && Pairs(s)
    ensures Pairs(ApplyPublish(s, t, s.threads[t]))
  {
    var s' := ApplyPublish(s, t, s.threads[t]);
    var enq, enq' := s.h.enq, s'.h.enq;
    forall i | 0 <= i < |enq'| ensures Paired(enq', i, Locker(s'), s'.h.orphans) {
      if i < |enq| {
        assert enq'[i] == enq[i] && Paired(enq, i, Locker(s), s.h.orphans);
      }
    }
  }

  lemma PairsDie(s: State, t: ThreadId)
    requires Here(s, t) && Pairs(s)
    ensures Pairs(ApplyDie(s, t, s.threads[t]))
  {
    var s' := ApplyDie(s, t, s.threads[t]);
    forall i | 0 <= i < |s.h.enq| ensures Paired(s'.h.enq, i, Locker(s'), s'.h.orphans) {
      assert Paired(s.h.enq, i, Locker(s), s.h.orphans);
    }
  }

  predicate SamePair(s: State, s': State) {
    && s'.h.enq == s.h.enq && s'.h.orphans == s.h.orphans
    && (PairOpen(Locker(s')) <==> PairOpen(Locker(s)))
    && (PairOpen(Locker(s)) ==> Locker(s').call == Locker(s).call)
  }

  lemma PairsSame(s: State, s': State)
    requires Pairs(s)
    requires SamePair(s, s')
    ensures Pairs(s')
  {
    forall i | 0 <= i < |s.h.enq| ensures Paired(s'.h.enq, i, Locker(s'), s'.h.orphans) {
      assert Paired(s.h.enq, i, Locker(s), s.h.orphans);
    }
  }

  predicate Outside(step: Step) {
    step.Invoke? || step.Lock? || step.LockFails? || step.Wake? || step.Relock? || step.RelockFails?
  }

  /** The lock holder's pair, if it has written one half, is untouched by all other steps. */
  lemma SamePairOutside(s: State, step: Step)
    requires Enabled(s, step) && Outside(step) && Here(s, step.t)
    ensures SamePair(s, Apply(s, step))
  {
  }

  lemma SamePairInside(s: State, step: Step)
    requires Enabled(s, step) && !step.SetEventFds? && !Outside(step) && Here(s, step.t) && !step.Publish? && !step.Die?
    ensures SamePair(s, Apply(s, step))
  {
  }

  lemma PairsStep(s: State, step: Step)
    requires Safe(s) && Pairs(s) && Enabled(s, step)
    ensures Pairs(Apply(s, step))
  {
    if step.SetEventFds? {
      PairsSame(s, Apply(s, step));
    } else {
      assert Here(s, step.t);
      if step.Publish? {
        PairsPublish(s, step.t);
      } else if step.Die? {
        PairsDie(s, step.t);
      } else {
        if Outside(step) { SamePairOutside(s, step); } else { SamePairInside(s, step); }
        PairsSame(s, Apply(s, step));
      }
    }
  }

  // ----- no lost wake-up

  ghost predicate Alert(s: State) {
    s.h.missed || forall t :: t in s.threads ==> SleeperOk(s.threads[t], Locker(s), s.ring)
  }

  /** Nothing a sleeper watches got worse. */
  predicate NoWorse(s: State, s': State) {
    && s'.ring.cursize == s.ring.cursize && s'.ring.maxsize == s.ring.maxsize
    && (OwesConsumers(Locker(s)) ==> OwesConsumers(Locker(s')) || s.ring.cursize == 0)
    && (OwesProducers(Locker(s)) ==> OwesProducers(Locker(s')))
  }

  lemma AlertNoWorse(s: State, s': State, t: ThreadId)
    requires Alert(s) && NoWorse(s, s') && (s.h.missed ==> s'.h.missed)
    requires t in s.threads && s'.threads.Keys == s.threads.Keys
    requires forall u :: u in s.threads && u != t ==> s'.threads[u] == s.threads[u]
    requires SleeperOk(s'.threads[t], Locker(s'), s'.ring)
    ensures Alert(s')
  {
    if !s'.h.missed {
      forall u | u in s'.threads ensures SleeperOk(s'.threads[u], Locker(s'), s'.ring) {
        assert SleeperOk(s.threads[u], Locker(s), s.ring);
      }
    }
  }

  lemma AlertPublish(s: State, t: ThreadId)
    requires Here(s, t) && s.threads[t].Writing? && s.threads[t].wstage.TailStored? && Alert(s)
    ensures Alert(ApplyPublish(s, t, s.threads[t]))
  {
    var s' := ApplyPublish(s, t, s.threads[t]);
    if !s.h.missed {
      forall u | u in s'.threads ensures SleeperOk(s'.threads[u], Locker(s'), s'.ring) {
        assert SleeperOk(s.threads[u], Locker(s), s.ring);
      }
    }
  }

  lemma AlertRetire(s: State, t: ThreadId)
    requires Here(s, t) && s.threads[t].Reading? && s.threads[t].rstage.HeadStored? && Alert(s)
    ensures Alert(ApplyRetire(s, t, s.threads[t]))
  {
    var s' := ApplyRetire(s, t, s.threads[t]);
    if !s.h.missed {
      forall u | u in s'.threads ensures SleeperOk(s'.threads[u], Locker(s'), s'.ring) {
        assert SleeperOk(s.threads[u], Locker(s), s.ring);
      }
    }
  }

  lemma AlertSignal(s: State, t: ThreadId, delivered: bool)
    requires Here(s, t) && s.threads[t].Signalling? && Alert(s)
    ensures Alert(ApplySignal(s, t, s.threads[t], delivered))
  {
    var s' := ApplySignal(s, t, s.threads[t], delivered);
    if !s'.h.missed {
      forall u | u in s'.threads ensures SleeperOk(s'.threads[u], Locker(s'), s'.ring) {
        assert SleeperOk(s.threads[u], Locker(s), s.ring);
      }
    }
  }

  lemma AlertDie(s: State, t: ThreadId)
    requires Here(s, t) && Alert(s)
    ensures Alert(ApplyDie(s, t, s.threads[t]))
  {
    var s' := ApplyDie(s, t, s.threads[t]);
    if !s'.h.missed {
      AlertNoWorse(s, s', t);
    }
  }

  lemma AlertTest(s: State, t: ThreadId)
    requires Here(s, t) && s.threads[t].Testing? && Alert(s)
    ensures Alert(ApplyTest(s, t, s.threads[t].call))
  {
    AlertNoWorse(s, ApplyTest(s, t, s.threads[t].call), t);
  }

  predicate Bystander(step: Step) {
    !(step.SetEventFds? || step.Publish? || step.Retire? || step.Signal? || step.Die? || step.Test?)
  }

  lemma BystanderNoWorse(s: State, step: Step)
    requires Enabled(s, step) && Bystander(step) && Here(s, step.t)
    ensures var s' := Apply(s, step); NoWorse(s, s') && s'.h.missed == s.h.missed && !s'.threads[step.t].Asleep?
  {
  }

  lemma BystanderThreads(s: State, step: Step)
    requires Enabled(s, step) && Bystander(step)
    ensures var s' := Apply(s, step);
            && s'.threads.Keys == s.threads.Keys
            && (forall u :: u in s.threads && u != step.t ==> s'.threads[u] == s.threads[u])
  {
  }

  lemma AlertStep(s: State, step: Step)
    requires Safe(s) && Alert(s) && Enabled(s, step)
    ensures Alert(Apply(s, step))
  {
    if !step.SetEventFds? {
      var t := step.t;
      assert Here(s, t);
      if Bystander(step) {
        BystanderNoWorse(s, step);
        BystanderThreads(s, step);
        AlertNoWorse(s, Apply(s, step), t);
      } else {
        match step
        case Publish(_) => AlertPublish(s, t);
        case Retire(_) => AlertRetire(s, t);
        case Signal(_, delivered) => AlertSignal(s, t, delivered);
        case Die(_) => AlertDie(s, t);
        case Test(_) => AlertTest(s, t);
      }
    }
  }

  // ----- who is sure to be told when room appears

  /** The queue is full, or the lock holder is about to tell everyone that it no longer is. */
  predicate Brimming(s: State) { s.ring.cursize == s.ring.maxsize || OwesProducers(Locker(s)) }

  predicate Dozing(s: State, t: ThreadId) { t in s.threads && s.threads[t].Asleep? && !s.threads[t].notified }

  lemma BrimmingRetire(s: State, u: ThreadId)
    requires Here(s, u) && s.threads[u].Reading? && s.threads[u].rstage.HeadStored? && Brimming(s)
    ensures Brimming(ApplyRetire(s, u, s.threads[u]))
  {
  }

  lemma BrimmingPublish(s: State, u: ThreadId)
    requires Here(s, u) && s.threads[u].Writing? && s.threads[u].wstage.TailStored?
    ensures !Brimming(s)
  {
  }

  lemma BrimmingSignal(s: State, u: ThreadId, delivered: bool, t: ThreadId)
    requires Here(s, u) && s.threads[u].Signalling? && Brimming(s) && Dozing(s, t)
    requires s.threads[u].edge ==> delivered && !(if Kind(s.threads[u].call.op).SubKind? then s.consumerFd else s.producerFd)
    requires Dozing(ApplySignal(s, u, s.threads[u], delivered), t)
    ensures Brimming(ApplySignal(s, u, s.threads[u], delivered))
  {
  }

  lemma BrimmingDie(s: State, u: ThreadId)
    requires Here(s, u) && Brimming(s) && !Owes(s.threads[u])
    ensures Brimming(ApplyDie(s, u, s.threads[u]))
  {
  }

  lemma BrimmingTest(s: State, u: ThreadId)
    requires Here(s, u) && s.threads[u].Testing? && Brimming(s)
    ensures Brimming(ApplyTest(s, u, s.threads[u].call))
  {
  }

  /** Every step keeps it so, as long as a sleeper goes untold and no due notification is lost. */
  lemma BrimmingStep(s: State, step: Step, t: ThreadId)
    requires Safe(s) && Brimming(s) && Enabled(s, step)
    requires Dozing(s, t) && Dozing(Apply(s, step), t)
    requires !step.SetEventFds? && step.Die? ==> !Owes(s.threads[step.t])
    requires !step.SetEventFds? && step.Signal? && s.threads[step.t].edge ==>
      step.delivered && !(if Kind(s.threads[step.t].call.op).SubKind? then s.consumerFd else s.producerFd)
    ensures Brimming(Apply(s, step))
  {
    if !step.SetEventFds? {
      var u := step.t;
      assert Here(s, u);
      if Bystander(step) {
        BystanderNoWorse(s, step);
      } else {
        match step
        case Publish(_) => BrimmingPublish(s, u);
        case Retire(_) => BrimmingRetire(s, u);
        case Signal(_, delivered) => BrimmingSignal(s, u, delivered, t);
        case Die(_) => BrimmingDie(s, u);
        case Test(_) => BrimmingTest(s, u);
      }
    }
  }
}
