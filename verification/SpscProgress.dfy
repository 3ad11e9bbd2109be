// No run of the queue is ever stuck in a loop that it cannot leave: from every state that is reached, the backup can
// still end, with everything popped.
module SpscProgress {
  import opened Bytes
  import opened SpscQueue

  // ---------------------------------------------------------------------------------------------
  // How far each thread is from changing what the queue holds
  // ---------------------------------------------------------------------------------------------

  // The blocks that size_approx has still to add up after this one.
  ghost function BlocksLeft<T>(c: Core<T>, first: nat, b: nat): nat {
    if first < |c.blocks| && b < |c.blocks| then |c.blocks| - 1 - Dist(first, b, |c.blocks|) else 0
  }

  // The consumer, while the queue holds something: its steps up to the release of a slot. Having found the front block
  // empty before the producer put something there, it fails once more.
  ghost function ToPop<T>(c: Core<T>, q: Consumer<T>): nat {
    var n := |c.blocks|;
    match q
    case CRelease(_, _, _) => 1
    case CTake(_, _) => 2
    case CAdvance(_, _) => 3
    case CNextTail(_, _) => 4
    case CNextFront(_) => 5
    case CNext(_) => 6
    case CReFront(_, _) => 7
    case CReTail(_) => 8
    case CReload => 9
    case CCheckTailBlock(_) => if c.frontTurn < c.tailTurn then 10 else 20 + 2 * n
    case CCheckTail(_, _) => 11
    case CFront(_) => 12
    case CStart => 13
    case CSizeTail(first, b, _, _) => 14 + 2 * BlocksLeft(c, first, b)
    case CSizeFront(first, b, _) => 15 + 2 * BlocksLeft(c, first, b)
    case CSizeStart => 16 + 2 * n
    case CTop => 17 + 2 * n
    case CReturn(_) => 18 + 2 * n
    case _ => 0
  }

  // The producer, while the queue is empty: its steps up to the one that enqueues, or to the end.
  ghost function ToPush<T>(c: Core<T>, p: Producer): nat {
    match p
    case PPublish(_, _) => 1
    case PWrite(_, _) => 2
    case PCheckFront(_, _) => 3
    case PIndices(_) => 4
    case PStart => 5
    case PReturn(_) => 6
    case PAdvance(_) => 1
    case PNextPublish(_, _) => 2
    case PNextWrite(_, _) => 3
    case PNextTail(_, _) => 4
    case PNextFront(_) => 5
    case PCheckNext(_) => 7
    case _ => 0
  }

  // The consumer, when nothing is left: its steps up to its exit.
  ghost function ToExit<T>(c: Core<T>, q: Consumer<T>): nat {
    var n := |c.blocks|;
    match q
    case CClear => 1
    case CSizeTail(first, b, _, _) => 2 + 2 * BlocksLeft(c, first, b)
    case CSizeFront(first, b, _) => 3 + 2 * BlocksLeft(c, first, b)
    case CSizeStart => 4 + 2 * n
    case CTop => 5 + 2 * n
    case CReturn(_) => 6 + 2 * n
    case CCheckTailBlock(_) => 7 + 2 * n
    case CCheckTail(_, _) => 8 + 2 * n
    case CFront(_) => 9 + 2 * n
    case CStart => 10 + 2 * n
    case _ => 0
  }

  // What is still to do, in order of weight: elements to push and the flag to set, elements to pop, and the steps
  // above.
  ghost function ToSend<T>(s: State<T>): nat {
    |s.todo| + if s.prod.PExit? then 0 else 1
  }

  ghost function ToTake<T>(s: State<T>): nat
    requires |s.core.items| >= 1
  {
    |Contents(s.core)|
  }

  ghost function ToGo<T>(s: State<T>): nat
    requires |s.core.items| >= 1
  {
    if Contents(s.core) != [] then ToPop(s.core, s.cons)
    else if !s.prod.PExit? then ToPush(s.core, s.prod)
    else ToExit(s.core, s.cons)
  }

  ghost predicate Nearer<T>(s: State<T>, s': State<T>)
    requires |s.core.items| >= 1 && |s'.core.items| >= 1
  {
    || ToSend(s') < ToSend(s)
    || (ToSend(s') == ToSend(s) && ToTake(s') < ToTake(s))
    || (ToSend(s') == ToSend(s) && ToTake(s') == ToTake(s) && ToGo(s') < ToGo(s))
  }

  lemma EmptyQueue<T>(c: Core<T>, ahead: bool)
    requires Good(c, ahead) && Contents(c) == []
    ensures c.frontTurn == c.tailTurn && c.items[c.frontBlock] == [] && c.frontBlock == c.tailBlock
  {
    hide At, BlockOk, Gather;
    GatherLast(c.items, c.frontTurn, c.tailTurn);
    if c.frontTurn == c.tailTurn {
      OneBlockContents(c);
    }
  }

  // ---------------------------------------------------------------------------------------------
  // One step
  // ---------------------------------------------------------------------------------------------

  lemma SizeNears<T>(c: Core<T>, q: Consumer<T>, sawEmpty: bool, ahead: bool)
    requires q.CSizeTail? && ConsumerReady(c, q, sawEmpty, true, ahead)
    ensures var q' := ConsumerCore(c, q).1;
            if q'.CSizeFront? then BlocksLeft(c, q'.first, q'.block) < BlocksLeft(c, q.first, q.block)
            else q' == if Contents(c) == [] then CClear else CStart
  {
    hide At, BlockOk, Contents, Ring;
    BlockDist(c.blocks[q.block], c.items[q.block], c.size);
    SizeSummed(c, q.first, q.block, q.sum);
  }

  lemma CheckTailNears<T>(c: Core<T>, q: Consumer<T>, sawEmpty: bool, quiet: bool, ahead: bool)
    requires q.CCheckTail? && ConsumerReady(c, q, sawEmpty, quiet, ahead)
    ensures var (c', q') := ConsumerCore(c, q);
            && c'.frontTurn == c.frontTurn && c'.tailTurn == c.tailTurn && (q'.CTake? || q'.CCheckTailBlock?)
            && (q'.CCheckTailBlock? && Contents(c) != [] ==> c.frontTurn < c.tailTurn)
            && (q'.CTake? ==> Contents(c) != [])
  {
    hide At, BlockOk, Gather, Contents, Ring;
    BlockDist(c.blocks[q.block], c.items[q.block], c.size);
    if c.frontTurn == c.tailTurn {
      OneBlockContents(c);
    } else if Contents(c) == [] {
      EmptyQueue(c, ahead);
    }
  }

  lemma CheckBlockNears<T>(c: Core<T>, q: Consumer<T>, sawEmpty: bool, quiet: bool, ahead: bool)
    requires q.CCheckTailBlock? && ConsumerReady(c, q, sawEmpty, quiet, ahead)
    ensures ConsumerCore(c, q) == (c, if c.frontTurn < c.tailTurn then CReload else CReturn(None))
  {
    hide At, BlockOk, Gather, Contents, Ring;
    if c.frontTurn < c.tailTurn {
      TurnsDiffer(c.frontTurn, c.tailTurn, |c.blocks|);
    }
  }

  // While the queue holds something, a step of the consumer takes an element or leads nearer to that.
  lemma PopNears<T>(c: Core<T>, q: Consumer<T>, sawEmpty: bool, quiet: bool, ahead: bool)
    requires Working(q) && ConsumerReady(c, q, sawEmpty, quiet, ahead) && Contents(c) != [] && !q.CRelease?
    ensures var (c', q') := ConsumerCore(c, q); ToPop(c', q') < ToPop(c, q)
  {
    hide At, BlockOk, Gather, Contents, Ring;
    if q.CSizeTail? {
      SizeNears(c, q, sawEmpty, ahead);
    } else if q.CCheckTail? {
      CheckTailNears(c, q, sawEmpty, quiet, ahead);
    } else if q.CCheckTailBlock? {
      CheckBlockNears(c, q, sawEmpty, quiet, ahead);
    }
  }

  // When it is empty for good, a step of the consumer leads nearer to its exit.
  lemma ExitNears<T>(c: Core<T>, q: Consumer<T>, sawEmpty: bool, ahead: bool)
    requires Working(q) && ConsumerReady(c, q, sawEmpty, true, ahead) && Contents(c) == []
    ensures var (c', q') := ConsumerCore(c, q); ToExit(c', q') < ToExit(c, q) && Contents(c') == []
  {
    hide At, BlockOk, Gather, Contents, Ring, ConsumerCore;
    ConsumerCoreSound(c, q, sawEmpty, true, ahead);
    EmptyQueue(c, ahead);
    ExitStep(c, q, sawEmpty, ahead);
  }

  lemma ExitStep<T>(c: Core<T>, q: Consumer<T>, sawEmpty: bool, ahead: bool)
    requires Working(q) && ConsumerReady(c, q, sawEmpty, true, ahead) && Contents(c) == []
    requires c.frontTurn == c.tailTurn && c.items[c.frontBlock] == []
    ensures var (c', q') := ConsumerCore(c, q); ToExit(c', q') < ToExit(c, q)
  {
    hide At, Gather, Contents, Ring;
    if q.CSizeTail? {
      SizeNears(c, q, sawEmpty, ahead);
    } else if q.CCheckTail? {
      CheckTailNears(c, q, sawEmpty, true, ahead);
    } else if q.CCheckTailBlock? {
      CheckBlockNears(c, q, sawEmpty, true, ahead);
    }
  }

  // While the queue is empty, a step of the producer enqueues or leads nearer to that.
  lemma PushNears<T>(c: Core<T>, p: Producer, x: T, mostHeld: nat)
    requires InCall(p) && Good(c, p.PAdvance?) && ProducerOk(c, p, x, mostHeld) && ProducerInRange(c, p)
    requires Contents(c) == [] && !Enqueues(p)
    ensures var (c', p') := ProducerCore(c, p, x); ToPush(c', p') < ToPush(c, p)
  {
    hide At, Gather, Contents, Ring;
    EmptyQueue(c, p.PAdvance?);
  }

  lemma IsReady<T>(s: State<T>)
    requires Inv(s) && !s.cons.CExit?
    ensures ConsumerEnabled(s) && Sized(s.core)
    ensures ConsumerReady(s.core, s.cons, s.sawEmpty, s.prod.PExit?, s.prod.PAdvance?) <==> true
  {
    hide At, BlockOk, Gather, Contents, Ring, ConsumerInRange;
    ConsumerIsInRange(s.core, s.cons, s.sawEmpty, s.prod.PExit?);
  }

  lemma WorkingNears<T>(s: State<T>)
    requires Inv(s) && Working(s.cons) && (Contents(s.core) != [] || s.prod.PExit?)
    requires ConsumerEnabled(s) && Sized(s.core)
    requires ConsumerReady(s.core, s.cons, s.sawEmpty, s.prod.PExit?, s.prod.PAdvance?)
    ensures Nearer(s, Observed(ConsumerStep(s)))
  {
    hide At, BlockOk, Gather, Contents, Ring, ConsumerCore, ConsumerInRange, ConsumerStep, Inv, ToPop, ToExit, Sized;
    hide ConsumerReady;
    var c, q := s.core, s.cons;
    WorkingStep(s);
    ConsumerCoreSound(c, q, s.sawEmpty, s.prod.PExit?, s.prod.PAdvance?);
    var (c', q') := ConsumerCore(c, q);
    if q.CRelease? {
      assert |Contents(c)| == 1 + |Contents(c')|;
    } else if Contents(c) != [] {
      assert [] + Contents(c') == Contents(c');
      PopNears(c, q, s.sawEmpty, s.prod.PExit?, s.prod.PAdvance?);
    } else {
      ExitNears(c, q, s.sawEmpty, s.prod.PAdvance?);
    }
  }

  lemma PassingNears<T>(s: State<T>)
    requires Inv(s) && !Working(s.cons) && !s.cons.CExit? && (Contents(s.core) != [] || s.prod.PExit?)
    requires ConsumerEnabled(s)
    ensures Nearer(s, Observed(ConsumerStep(s)))
  {
    hide At, BlockOk, Gather, Contents, Ring, ConsumerCore, ConsumerInRange;
  }

  // With something in the queue, or nothing more to come, a step of the consumer leads nearer to the end.
  lemma ConsumerStepNears<T>(s: State<T>)
    requires Inv(s) && !s.cons.CExit? && (Contents(s.core) != [] || s.prod.PExit?)
    ensures ConsumerEnabled(s) && Nearer(s, Observed(ConsumerStep(s)))
  {
    hide At, BlockOk, Gather, Contents, Ring, ConsumerCore, ConsumerInRange, ConsumerStep, Inv, Nearer, ConsumerReady;
    IsReady(s);
    if Working(s.cons) {
      WorkingNears(s);
    } else {
      PassingNears(s);
    }
  }

  lemma CallNears<T>(s: State<T>)
    requires Inv(s) && Contents(s.core) == [] && InCall(s.prod) && ProducerEnabled(s)
    ensures Nearer(s, Observed(ProducerStep(s)))
  {
    hide At, BlockOk, Gather, Contents, Ring, ProducerCore, ProducerInRange, ToPush, ToPop, ToExit;
    var c, p, x := s.core, s.prod, s.todo[0];
    ProducerCoreSound(c, p, x, s.mostHeld);
    var (c', p') := ProducerCore(c, p, x);
    ProducerGoesOn(c, p, x);
    if !Enqueues(p) {
      assert Contents(c) + [] == Contents(c);
      PushNears(c, p, x, s.mostHeld);
    }
  }

  // With an empty queue, so does a step of the producer.
  lemma ProducerStepNears<T>(s: State<T>)
    requires Inv(s) && Contents(s.core) == [] && !s.prod.PExit?
    ensures ProducerEnabled(s) && Nearer(s, Observed(ProducerStep(s)))
  {
    hide At, BlockOk, Gather, Contents, Ring, ProducerCore, ProducerInRange;
    if InCall(s.prod) {
      InRange(s.core, s.prod, s.todo[0], s.mostHeld);
      CallNears(s);
    } else {
      IdleInRange(s.core, s.prod);
    }
  }

  // ---------------------------------------------------------------------------------------------
  // All the way
  // ---------------------------------------------------------------------------------------------

  // One step nearer, by the consumer if it has something to do, else by the producer. It is one of the same backup.
  lemma StepOn<T>(s: State<T>) returns (s': State<T>)
    requires Inv(s) && !s.cons.CExit?
    ensures (Step(s, s') <==> true) && (Inv(s') <==> true) && s'.input == s.input
    ensures |s.core.items| >= 1 && |s'.core.items| >= 1 && (Nearer(s, s') <==> true)
  {
    hide At, BlockOk, Gather, Contents, Ring, ConsumerCore, ProducerCore, ConsumerInRange, ProducerInRange, Nearer;
    hide ToPop, ToPush, ToExit;
    if Contents(s.core) != [] || s.prod.PExit? {
      ConsumerStepNears(s);
      s' := Observed(ConsumerStep(s));
    } else {
      ProducerStepNears(s);
      s' := Observed(ProducerStep(s));
    }
    StepKeeps(s, s');
  }

  // A continuation: from the state s, step by step.
  ghost predicate Continues<T>(s: State<T>, tr: seq<State<T>>) {
    tr != [] && tr[0] == s && forall i :: 0 < i < |tr| ==> Step(tr[i - 1], tr[i])
  }

  lemma {:induction false} CanFinish<T>(s: State<T>) returns (tr: seq<State<T>>)
    requires Inv(s)
    ensures |s.core.items| >= 1 && (Continues(s, tr) <==> true)
    ensures tr[|tr| - 1].cons.CExit? && tr[|tr| - 1].input == s.input
    decreases ToSend(s), |Contents(s.core)|, ToGo(s)
  {
    hide Inv, Step, Contents, ToPop, ToPush, ToExit;
    HasBlocks(s);
    if s.cons.CExit? {
      return [s];
    }
    var s' := StepOn(s);
    var rest := CanFinish(s');
    tr := [s] + rest;
  }

  lemma HasBlocks<T>(s: State<T>)
    requires Inv(s)
    ensures |s.core.items| >= 1
  {
    hide At, BlockOk, Gather, Contents, Ring;
  }

  // From every state of every run, some interleaving goes on to the end of the backup.
  lemma RunCanFinish<T>(wanted: nat, tr: seq<State<T>>) returns (more: seq<State<T>>)
    requires wanted > 0 && Run(wanted, tr)
    ensures Run(wanted, tr + more) && var end := (tr + more)[|tr + more| - 1];
            end.cons.CExit? && end.input == tr[|tr| - 1].input && end.popped == end.input
  {
    hide Inv, Step, Start;
    var n := |tr| - 1;
    RunKeeps(wanted, tr, n);
    var all := CanFinish(tr[n]);
    more := all[1..];
    forall i | 0 < i < |tr + more| ensures Step((tr + more)[i - 1], (tr + more)[i]) {
      if i > n {
        assert (tr + more)[i] == all[i - n] && (tr + more)[i - 1] == all[i - n - 1];
      }
    }
    ExitMeansAllPopped(wanted, tr + more, |tr + more| - 1);
  }
}
