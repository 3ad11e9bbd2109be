// ReaderWriterQueue: a ring of ring buffers between one producer and one consumer, as a machine that makes one shared
// load or store at a time. Memory is sequentially consistent. Each thread owns one end and keeps a stale shadow of the
// other: the producer the front of a block (localFront), the consumer its tail (localTail).
module SpscQueue {
  import opened Bytes

  datatype Block<T> = Block(front: nat, localTail: nat, tail: nat, localFront: nat, data: seq<Option<T>>)

  // The shared structure. The source's fields are `size` (sizeMask + 1), the blocks in ring order, frontBlock and
  // tailBlock. Beside them, for the proof: the items of each block, and how often each end has moved to a next block.
  datatype Core<T> = Core(size: nat, blocks: seq<Block<T>>, frontBlock: nat, tailBlock: nat,
                          items: seq<seq<T>>, frontTurn: nat, tailTurn: nat)

  // inner_enqueue, load by load and store by store. The element is the first of those still to be pushed.
  datatype Producer =
    | PStart                                // about to load tailBlock
    | PIndices(block: nat)                  // about to load its tail
    | PCheckFront(block: nat, tail: nat)    // full by the shadow: about to load its front
    | PWrite(block: nat, tail: nat)         // about to construct the element
    | PPublish(block: nat, tail: nat)       // about to store its tail
    | PCheckNext(block: nat)                // full: about to compare the next block with frontBlock
    | PNextFront(next: nat)                 // about to load the front of the next block
    | PNextTail(next: nat, front: nat)      // about to load its tail
    | PNextWrite(next: nat, tail: nat)
    | PNextPublish(next: nat, tail: nat)
    | PAdvance(next: nat)                   // about to store tailBlock
    | PReturn(ok: bool)
    | PAssertFailed
    | PExit                                 // everything is pushed and the flag is set

  // The loop of ProcessTrace around try_dequeue: the flag, size_approx, then a dequeue.
  datatype Consumer<T> =
    | CTop                                                        // about to load done_
    | CSizeStart                                                  // size_approx: about to load frontBlock
    | CSizeFront(first: nat, block: nat, sum: nat)
    | CSizeTail(first: nat, block: nat, sum: nat, front: nat)
    | CClear                                                      // about to clear done_
    | CStart                                                      // try_dequeue: about to load frontBlock
    | CFront(block: nat)                                          // about to load its front
    | CCheckTail(block: nat, front: nat)                          // empty by the shadow: about to load its tail
    | CCheckTailBlock(block: nat)                                 // about to load tailBlock
    | CReload                                                     // it is another block: about to load frontBlock again
    | CReTail(block: nat)
    | CReFront(block: nat, tail: nat)
    | CNext(block: nat)                                           // empty: about to load its next
    | CNextFront(next: nat)
    | CNextTail(next: nat, front: nat)
    | CAdvance(next: nat, front: nat)                             // about to store frontBlock
    | CTake(block: nat, front: nat)                               // about to move the element out
    | CRelease(block: nat, front: nat, value: T)                  // about to store its front
    | CReturn(result: Option<T>)
    | CAssertFailed
    | CExit

  // sawEmpty and mostHeld record what the queue held at the instants of the current call of each thread.
  datatype State<T> = State(core: Core<T>, prod: Producer, cons: Consumer<T>, done: bool,
                            input: seq<T>, todo: seq<T>, pushed: seq<T>, popped: seq<T>,
                            sawEmpty: bool, mostHeld: nat)

  // ---------------------------------------------------------------------------------------------
  // The structure
  // ---------------------------------------------------------------------------------------------

  function Next(i: nat, n: nat): (r: nat)
    requires i < n
    ensures r < n
  {
    if i + 1 == n then 0 else i + 1
  }

  // How far b is ahead of a around a ring of n.
  function Dist(a: nat, b: nat, n: nat): (r: nat)
    requires a < n && b < n
    ensures r < n && (r == 0 <==> a == b) && (r == n - 1 <==> Next(b, n) == a)
  {
    if a <= b then b - a else b + n - a
  }

  // The slot k places after `front`.
  function Slot(front: nat, k: nat, n: nat): (r: nat)
    requires front < n && k < n
    ensures r < n && Dist(front, r, n) == k
  {
    if front + k < n then front + k else front + k - n
  }

  // The block whose turn it is, when n blocks take turns.
  function At(turn: nat, n: nat): (i: nat)
    requires n >= 1
    ensures i < n
  {
    if turn < n then turn else At(turn - n, n)
  }

  // The items of a block are what its slots hold from front to tail, and each shadow is a past value of its index.
  ghost predicate BlockOk<T>(b: Block<T>, items: seq<T>, n: nat) {
    && b.front < n && b.tail < n && b.localFront < n && b.localTail < n && |b.data| == n
    && |items| == Dist(b.front, b.tail, n)
    && Dist(b.localFront, b.tail, n) >= |items|
    && Dist(b.front, b.localTail, n) <= |items|
    && (forall k :: 0 <= k < |items| ==> b.data[Slot(b.front, k, n)] == Some(items[k]))
  }

  ghost predicate Sized<T>(c: Core<T>) {
    && c.size >= 2 && |c.blocks| == |c.items| >= 1
    && c.frontTurn <= c.tailTurn < c.frontTurn + |c.blocks|
    && c.frontBlock == At(c.frontTurn, |c.blocks|) && c.tailBlock == At(c.tailTurn, |c.blocks|)
    && (forall i :: 0 <= i < |c.blocks| ==> BlockOk(c.blocks[i], c.items[i], c.size))
  }

  // Blocks strictly between the ends are full; the tail block, once it is another than the front block, is not empty;
  // blocks outside are empty, except the one the producer has filled and is about to make the tail block.
  ghost predicate Ring<T>(c: Core<T>, ahead: bool)
    requires |c.blocks| == |c.items| >= 1
  {
    && (forall t :: c.frontTurn < t < c.tailTurn ==> |c.items[At(t, |c.items|)]| == c.size - 1)
    && (c.frontTurn < c.tailTurn ==> c.items[At(c.tailTurn, |c.items|)] != [])
    && (forall t :: c.tailTurn + (if ahead then 1 else 0) < t < c.frontTurn + |c.blocks| ==>
          c.items[At(t, |c.items|)] == [])
  }

  // The items of the blocks of the turns from `from` up to `end`, in order.
  function Gather<T>(items: seq<seq<T>>, from: nat, end: nat): seq<T>
    requires |items| >= 1
    decreases (end as int) - from
  {
    if from >= end then [] else items[At(from, |items|)] + Gather(items, from + 1, end)
  }

  // What the queue holds, in order.
  function Contents<T>(c: Core<T>): seq<T>
    requires |c.items| >= 1
  {
    Gather(c.items, c.frontTurn, c.tailTurn + 1)
  }

  // ---------------------------------------------------------------------------------------------
  // The producer: Push, by inner_enqueue without allocation
  // ---------------------------------------------------------------------------------------------

  // The block indices a thread holds are those of blocks, and its slot indices those of slots.
  predicate ProducerInRange<T>(c: Core<T>, p: Producer) {
    && |c.blocks| == |c.items| >= 1 && c.size >= 2 && c.frontBlock < |c.blocks| && c.tailBlock < |c.blocks|
    && (forall i :: 0 <= i < |c.blocks| ==>
          |c.blocks[i].data| == c.size && c.blocks[i].tail < c.size && c.blocks[i].front < c.size)
    && match p
       case PIndices(b) => b < |c.blocks|
       case PCheckFront(b, t) => b < |c.blocks| && t < c.size
       case PWrite(b, t) => b < |c.blocks| && t < c.size
       case PPublish(b, t) => b < |c.blocks| && t < c.size
       case PCheckNext(b) => b < |c.blocks|
       case PNextFront(n) => n < |c.blocks|
       case PNextTail(n, _) => n < |c.blocks|
       case PNextWrite(n, t) => n < |c.blocks| && t < c.size
       case PNextPublish(n, t) => n < |c.blocks| && t < c.size
       case PAdvance(n) => n < |c.blocks|
       case _ => true
  }

  function SetBlock<T>(c: Core<T>, i: nat, b: Block<T>): Core<T>
    requires i < |c.blocks|
  {
    c.(blocks := c.blocks[i := b])
  }

  function SetItems<T>(c: Core<T>, i: nat, its: seq<T>): Core<T>
    requires i < |c.items|
  {
    c.(items := c.items[i := its])
  }

  // One step on the shared structure, and where the producer goes next. x is the element being pushed.
  function ProducerCore<T>(c: Core<T>, p: Producer, x: T): (r: (Core<T>, Producer))
    requires ProducerInRange(c, p)
    ensures |r.0.items| == |c.items| && r.0.size == c.size && |r.0.blocks| == |c.blocks|
  {
    match p
    case PStart => (c, PIndices(c.tailBlock))
    case PIndices(b) =>
      var t := c.blocks[b].tail;
      (c, if Next(t, c.size) != c.blocks[b].localFront then PWrite(b, t) else PCheckFront(b, t))
    case PCheckFront(b, t) =>
      var f := c.blocks[b].front;
      (SetBlock(c, b, c.blocks[b].(localFront := f)), if Next(t, c.size) != f then PWrite(b, t) else PCheckNext(b))
    case PWrite(b, t) =>
      (SetBlock(c, b, c.blocks[b].(data := c.blocks[b].data[t := Some(x)])), PPublish(b, t))
    case PPublish(b, t) =>
      (SetItems(SetBlock(c, b, c.blocks[b].(tail := Next(t, c.size))), b, c.items[b] + [x]), PReturn(true))
    case PCheckNext(b) =>
      var n := Next(b, |c.blocks|);
      (c, if n != c.frontBlock then PNextFront(n) else PReturn(false))
    case PNextFront(n) =>
      var f := c.blocks[n].front;
      (SetBlock(c, n, c.blocks[n].(localFront := f)), PNextTail(n, f))
    case PNextTail(n, f) =>
      var t := c.blocks[n].tail;
      (c, if f == t then PNextWrite(n, t) else PAssertFailed)
    case PNextWrite(n, t) =>
      (SetBlock(c, n, c.blocks[n].(data := c.blocks[n].data[t := Some(x)])), PNextPublish(n, t))
    case PNextPublish(n, t) =>
      (SetItems(SetBlock(c, n, c.blocks[n].(tail := Next(t, c.size))), n, c.items[n] + [x]), PAdvance(n))
    case PAdvance(n) =>
      (c.(tailBlock := n, tailTurn := c.tailTurn + 1), PReturn(true))
    case _ => (c, p)
  }

  // The step at which the element becomes part of the queue.
  predicate Enqueues(p: Producer) {
    p.PPublish? || p.PAdvance?
  }

  predicate ProducerEnabled<T>(s: State<T>) {
    && ProducerInRange(s.core, s.prod)
    && !s.prod.PExit? && !s.prod.PAssertFailed?
    && (s.prod.PReturn? || s.prod.PStart? || s.todo != [])
  }

  // Push spins until try_enqueue succeeds; when everything is pushed the flag is set.
  function ProducerStep<T>(s: State<T>): (r: State<T>)
    requires ProducerEnabled(s)
    ensures |r.core.items| >= 1 && r.core.size == s.core.size && |r.core.blocks| == |s.core.blocks|
  {
    if s.prod.PReturn? then s.(prod := PStart)
    else if s.prod.PStart? then
      if s.todo == [] then s.(prod := PExit, done := true)
      else s.(prod := PIndices(s.core.tailBlock), mostHeld := 0)
    else
      var (c, p) := ProducerCore(s.core, s.prod, s.todo[0]);
      if Enqueues(s.prod) then s.(core := c, prod := p, todo := s.todo[1..], pushed := s.pushed + [s.todo[0]])
      else s.(core := c, prod := p)
  }

  // ---------------------------------------------------------------------------------------------
  // The consumer: the flag, size_approx and try_dequeue
  // ---------------------------------------------------------------------------------------------

  predicate ConsumerInRange<T>(c: Core<T>, q: Consumer<T>) {
    && |c.blocks| == |c.items| >= 1 && c.size >= 2 && c.frontBlock < |c.blocks| && c.tailBlock < |c.blocks|
    && (forall i :: 0 <= i < |c.blocks| ==>
          |c.blocks[i].data| == c.size && c.blocks[i].tail < c.size && c.blocks[i].front < c.size)
    && match q
       case CSizeFront(_, b, _) => b < |c.blocks|
       case CSizeTail(_, b, _, f) => b < |c.blocks| && f < c.size
       case CFront(b) => b < |c.blocks|
       case CCheckTail(b, f) => b < |c.blocks| && f < c.size
       case CReTail(b) => b < |c.blocks|
       case CReFront(b, _) => b < |c.blocks|
       case CNext(b) => b < |c.blocks|
       case CNextFront(n) => n < |c.blocks|
       case CNextTail(n, f) => n < |c.blocks| && f < c.size
       case CAdvance(n, f) => n < |c.blocks| && f < c.size
       case CTake(b, f) => b < |c.blocks| && f < c.size && c.blocks[b].data[f].Some?
       case CRelease(b, f, _) => b < |c.blocks| && f < c.size && c.items[b] != []
       case _ => true
  }

  function ConsumerCore<T>(c: Core<T>, q: Consumer<T>): (r: (Core<T>, Consumer<T>))
    requires ConsumerInRange(c, q)
    ensures |r.0.items| == |c.items| && r.0.size == c.size && |r.0.blocks| == |c.blocks|
  {
    match q
    case CSizeStart => (c, CSizeFront(c.frontBlock, c.frontBlock, 0))
    case CSizeFront(first, b, sum) => (c, CSizeTail(first, b, sum, c.blocks[b].front))
    case CSizeTail(first, b, sum, f) =>
      var sum' := sum + Dist(f, c.blocks[b].tail, c.size);
      var n := Next(b, |c.blocks|);
      (c, if n != first then CSizeFront(first, n, sum') else if sum' == 0 then CClear else CStart)
    case CStart => (c, CFront(c.frontBlock))
    case CFront(b) =>
      var f := c.blocks[b].front;
      (c, if f != c.blocks[b].localTail then CTake(b, f) else CCheckTail(b, f))
    case CCheckTail(b, f) =>
      var t := c.blocks[b].tail;
      (SetBlock(c, b, c.blocks[b].(localTail := t)), if f != t then CTake(b, f) else CCheckTailBlock(b))
    case CCheckTailBlock(b) => (c, if b != c.tailBlock then CReload else CReturn(None))
    case CReload => (c, CReTail(c.frontBlock))
    case CReTail(b) =>
      var t := c.blocks[b].tail;
      (SetBlock(c, b, c.blocks[b].(localTail := t)), CReFront(b, t))
    case CReFront(b, t) =>
      var f := c.blocks[b].front;
      (c, if f != t then CTake(b, f) else CNext(b))
    case CNext(b) => (c, CNextFront(Next(b, |c.blocks|)))
    case CNextFront(n) => (c, CNextTail(n, c.blocks[n].front))
    case CNextTail(n, f) =>
      var t := c.blocks[n].tail;
      (SetBlock(c, n, c.blocks[n].(localTail := t)), if f != t then CAdvance(n, f) else CAssertFailed)
    case CAdvance(n, f) => (c.(frontBlock := n, frontTurn := c.frontTurn + 1), CTake(n, f))
    case CTake(b, f) => (c, CRelease(b, f, c.blocks[b].data[f].value))
    case CRelease(b, f, v) =>
      (SetItems(SetBlock(c, b, c.blocks[b].(front := Next(f, c.size))), b, c.items[b][1..]), CReturn(Some(v)))
    case _ => (c, q)
  }

  predicate ConsumerEnabled<T>(s: State<T>) {
    ConsumerInRange(s.core, s.cons) && !s.cons.CExit? && !s.cons.CAssertFailed?
  }

  function ConsumerStep<T>(s: State<T>): (r: State<T>)
    requires ConsumerEnabled(s)
    ensures |r.core.items| >= 1 && r.core.size == s.core.size && |r.core.blocks| == |s.core.blocks|
  {
    if s.cons.CReturn? then s.(cons := CTop)
    else if s.cons.CTop? then s.(cons := if s.done then CSizeStart else CStart)
    else if s.cons.CClear? then s.(cons := CExit, done := false)
    else if s.cons.CStart? then s.(cons := CFront(s.core.frontBlock), sawEmpty := false)
    else
      var (c, q) := ConsumerCore(s.core, s.cons);
      if s.cons.CRelease? then s.(core := c, cons := q, popped := s.popped + [s.cons.value])
      else s.(core := c, cons := q)
  }

  // ---------------------------------------------------------------------------------------------
  // Blocks
  // ---------------------------------------------------------------------------------------------

  lemma FrontRead<T>(b: Block<T>, items: seq<T>, n: nat)
    requires BlockOk(b, items, n)
    ensures BlockOk(b.(localFront := b.front), items, n)
  {
  }

  lemma TailRead<T>(b: Block<T>, items: seq<T>, n: nat)
    requires BlockOk(b, items, n)
    ensures BlockOk(b.(localTail := b.tail), items, n)
  {
  }

  // The slot at the tail is none of the items'.
  lemma SlotWritten<T>(b: Block<T>, items: seq<T>, n: nat, x: T)
    requires BlockOk(b, items, n)
    ensures BlockOk(b.(data := b.data[b.tail := Some(x)]), items, n)
  {
  }

  lemma Appended<T>(b: Block<T>, items: seq<T>, n: nat, x: T)
    requires BlockOk(b, items, n) && Dist(b.localFront, b.tail, n) < n - 1 && b.data[b.tail] == Some(x)
    ensures BlockOk(b.(tail := Next(b.tail, n)), items + [x], n)
  {
    assert Slot(b.front, |items|, n) == b.tail;
  }

  lemma Dropped<T>(b: Block<T>, items: seq<T>, n: nat)
    requires BlockOk(b, items, n) && Dist(b.front, b.localTail, n) >= 1
    ensures items != [] && b.data[b.front] == Some(items[0])
    ensures BlockOk(b.(front := Next(b.front, n)), items[1..], n)
  {
    assert Slot(b.front, 0, n) == b.front;
    forall k | 0 <= k < |items[1..]| ensures b.data[Slot(Next(b.front, n), k, n)] == Some(items[1..][k]) {
      assert Slot(Next(b.front, n), k, n) == Slot(b.front, k + 1, n);
    }
  }

  // ---------------------------------------------------------------------------------------------
  // Turns
  // ---------------------------------------------------------------------------------------------

  lemma {:induction false} AtShift(t: nat, k: nat, n: nat)
    requires k < n
    ensures At(t + k, n) == if At(t, n) + k < n then At(t, n) + k else At(t, n) + k - n
    decreases t
  {
    if t >= n {
      AtShift(t - n, k, n);
      assert At(t + k, n) == At(t - n + k, n);
    }
  }

  // Within one round, different turns are those of different blocks.
  lemma TurnsDiffer(t: nat, u: nat, n: nat)
    requires t < u < t + n
    ensures At(t, n) != At(u, n)
  {
    hide At;
    AtShift(t, u - t, n);
  }

  lemma NextTurn(t: nat, n: nat)
    requires n >= 1
    ensures At(t + 1, n) == Next(At(t, n), n)
  {
    if n > 1 {
      AtShift(t, 1, n);
    }
  }

  lemma {:induction false} GatherSplit<T>(items: seq<seq<T>>, from: nat, mid: nat, end: nat)
    requires |items| >= 1 && from <= mid <= end
    ensures Gather(items, from, end) == Gather(items, from, mid) + Gather(items, mid, end)
    decreases mid - from
  {
    hide At;
    if from < mid {
      GatherSplit(items, from + 1, mid, end);
    }
  }

  // Blocks whose turn is not among those gathered do not matter.
  lemma {:induction false} GatherFrame<T>(items: seq<seq<T>>, items': seq<seq<T>>, from: nat, end: nat)
    requires |items| == |items'| >= 1
    requires forall t :: from <= t < end ==> items[At(t, |items|)] == items'[At(t, |items|)]
    ensures Gather(items, from, end) == Gather(items', from, end)
    decreases end - from
  {
    hide At;
    if from < end {
      GatherFrame(items, items', from + 1, end);
    }
  }

  lemma {:induction false} GatherEmpty<T>(items: seq<seq<T>>, from: nat, end: nat)
    requires |items| >= 1
    requires forall t :: from <= t < end ==> items[At(t, |items|)] == []
    ensures Gather(items, from, end) == []
    decreases end - from
  {
    hide At;
    if from < end {
      GatherEmpty(items, from + 1, end);
    }
  }

  lemma {:induction false} GatherFull<T>(items: seq<seq<T>>, from: nat, end: nat, each: nat)
    requires |items| >= 1 && from <= end
    requires forall t :: from <= t < end ==> |items[At(t, |items|)]| == each
    ensures |Gather(items, from, end)| == (end - from) * each
    decreases end - from
  {
    hide At;
    if from < end {
      GatherFull(items, from + 1, end, each);
      assert (end - from) * each == each + (end - (from + 1)) * each;
    }
  }

  // ---------------------------------------------------------------------------------------------
  // What each thread knows
  // ---------------------------------------------------------------------------------------------

  // The number of elements that always fit: all slots of all blocks but one in each block, and but one block of
  // several.
  function Capacity<T>(c: Core<T>): int {
    if |c.blocks| == 1 then c.size - 1 else (|c.blocks| - 1) * (c.size - 1)
  }

  // Once the consumer is behind in another block, the tail block stays full.
  ghost predicate TailFull<T>(c: Core<T>)
    requires Sized(c)
  {
    c.frontTurn < c.tailTurn ==> |c.items[c.tailBlock]| == c.size - 1
  }

  // The block after a full tail block is free.
  ghost predicate NextFree<T>(c: Core<T>, n: nat)
    requires Sized(c)
  {
    n == At(c.tailTurn + 1, |c.blocks|) && c.tailTurn + 1 < c.frontTurn + |c.blocks| && TailFull(c)
  }

  // What the producer knows of the structure before each of its steps, whatever the consumer does meanwhile.
  ghost predicate ProducerOk<T>(c: Core<T>, p: Producer, x: T, mostHeld: nat)
    requires Sized(c)
  {
    match p
    case PIndices(b) => b == c.tailBlock
    case PCheckFront(b, t) => b == c.tailBlock && t == c.blocks[b].tail
    case PWrite(b, t) => b == c.tailBlock && t == c.blocks[b].tail && HasRoom(c.blocks[b], c.size)
    case PPublish(b, t) =>
      b == c.tailBlock && t == c.blocks[b].tail && HasRoom(c.blocks[b], c.size) && c.blocks[b].data[t] == Some(x)
    case PCheckNext(b) => b == c.tailBlock && TailFull(c) && (|c.blocks| == 1 ==> mostHeld >= c.size - 1)
    case PNextFront(n) => NextFree(c, n)
    case PNextTail(n, f) => NextFree(c, n) && f == c.blocks[n].front == c.blocks[n].localFront
    case PNextWrite(n, t) => NextFree(c, n) && t == c.blocks[n].tail == c.blocks[n].localFront
    case PNextPublish(n, t) =>
      NextFree(c, n) && t == c.blocks[n].tail == c.blocks[n].localFront && c.blocks[n].data[t] == Some(x)
    case PAdvance(n) => NextFree(c, n) && c.items[n] == [x]
    case PReturn(ok) => ok || mostHeld >= Capacity(c)
    case PAssertFailed => false
    case _ => true
  }

  ghost predicate HasRoom<T>(b: Block<T>, n: nat) {
    b.localFront < n && b.tail < n && Dist(b.localFront, b.tail, n) < n - 1
  }

  // By its shadow of the tail, the front block holds an item.
  ghost predicate HasItem<T>(b: Block<T>, n: nat) {
    b.front < n && b.localTail < n && b.front != b.localTail
  }

  // What the consumer knows. `quiet`: the producer has pushed everything and set the flag.
  ghost predicate ConsumerOk<T>(c: Core<T>, q: Consumer<T>, sawEmpty: bool, quiet: bool)
    requires Sized(c)
  {
    match q
    case CSizeStart => quiet
    case CSizeFront(first, b, sum) => quiet && Summed(c, first, b, sum)
    case CSizeTail(first, b, sum, f) => quiet && Summed(c, first, b, sum) && f == c.blocks[b].front
    case CClear => quiet && Contents(c) == []
    case CFront(b) => b == c.frontBlock
    case CCheckTail(b, f) => b == c.frontBlock && f == c.blocks[b].front
    case CCheckTailBlock(b) => b == c.frontBlock && (c.frontTurn == c.tailTurn ==> sawEmpty)
    case CReload => c.frontTurn < c.tailTurn
    case CReTail(b) => b == c.frontBlock && c.frontTurn < c.tailTurn
    case CReFront(b, t) => b == c.frontBlock && c.frontTurn < c.tailTurn
      && t == c.blocks[b].tail == c.blocks[b].localTail
    case CNext(b) => b == c.frontBlock && c.frontTurn < c.tailTurn && c.items[b] == []
    case CNextFront(n) => SecondBlock(c, n)
    case CNextTail(n, f) => SecondBlock(c, n) && f == c.blocks[n].front
    case CAdvance(n, f) => SecondBlock(c, n) && f == c.blocks[n].front && HasItem(c.blocks[n], c.size)
    case CTake(b, f) => b == c.frontBlock && f == c.blocks[b].front && HasItem(c.blocks[b], c.size)
    case CRelease(b, f, v) =>
      b == c.frontBlock && f == c.blocks[b].front && HasItem(c.blocks[b], c.size) && c.items[b] != []
        && c.items[b][0] == v
    case CReturn(r) => r == None ==> sawEmpty
    case CAssertFailed => false
    case CExit => quiet && Contents(c) == []
    case _ => true
  }

  // The front block is empty and n is the block after it.
  ghost predicate SecondBlock<T>(c: Core<T>, n: nat)
    requires Sized(c)
  {
    c.frontTurn < c.tailTurn && c.items[c.frontBlock] == [] && n == At(c.frontTurn + 1, |c.blocks|)
  }

  // size_approx has added up the blocks from the front block up to b.
  ghost predicate Summed<T>(c: Core<T>, first: nat, b: nat, sum: nat)
    requires Sized(c)
  {
    && first == c.frontBlock && b < |c.blocks|
    && sum == |Gather(c.items, c.frontTurn, c.frontTurn + Dist(first, b, |c.blocks|))|
  }

  ghost predicate Good<T>(c: Core<T>, ahead: bool) {
    Sized(c) && Ring(c, ahead)
  }

  lemma InRange<T>(c: Core<T>, p: Producer, x: T, mostHeld: nat)
    requires Sized(c) && ProducerOk(c, p, x, mostHeld)
    ensures ProducerInRange(c, p)
  {
  }

  lemma ConsumerIsInRange<T>(c: Core<T>, q: Consumer<T>, sawEmpty: bool, quiet: bool)
    requires Sized(c) && ConsumerOk(c, q, sawEmpty, quiet)
    ensures ConsumerInRange(c, q)
  {
    if q.CTake? {
      HeadSlot(c.blocks[c.frontBlock], c.items[c.frontBlock], c.size);
    }
  }

  lemma HeadSlot<T>(b: Block<T>, items: seq<T>, n: nat)
    requires BlockOk(b, items, n) && HasItem(b, n)
    ensures items != [] && b.data[b.front] == Some(items[0])
  {
    assert Slot(b.front, 0, n) == b.front;
  }

  // ---------------------------------------------------------------------------------------------
  // What a step of one thread leaves alone, and so the other still knows
  // ---------------------------------------------------------------------------------------------

  ghost predicate ProducerMoves<T>(c: Core<T>, c': Core<T>)
    requires Sized(c) && Sized(c')
  {
    && c'.size == c.size && |c'.blocks| == |c.blocks|
    && c'.frontTurn == c.frontTurn && c'.tailTurn >= c.tailTurn
    && (forall i :: 0 <= i < |c.blocks| ==>
          && c'.blocks[i].front == c.blocks[i].front && c'.blocks[i].localTail == c.blocks[i].localTail
          && c.items[i] <= c'.items[i])
    && (c.frontTurn < c.tailTurn ==>
          && c'.blocks[c.frontBlock].tail == c.blocks[c.frontBlock].tail
          && c'.items[c.frontBlock] == c.items[c.frontBlock])
  }

  lemma ConsumerKnowsStill<T>(c: Core<T>, c': Core<T>, q: Consumer<T>, sawEmpty: bool, sawEmpty': bool)
    requires Sized(c) && Sized(c') && ProducerMoves(c, c') && (sawEmpty ==> sawEmpty')
    requires ConsumerOk(c, q, sawEmpty, false)
    ensures ConsumerOk(c', q, sawEmpty', false)
  {
    hide At, BlockOk, Contents, Gather;
  }

  ghost predicate ConsumerMoves<T>(c: Core<T>, c': Core<T>)
    requires Sized(c) && Sized(c')
  {
    && c'.size == c.size && |c'.blocks| == |c.blocks|
    && c'.tailTurn == c.tailTurn && c'.frontTurn >= c.frontTurn
    && (forall i :: 0 <= i < |c.blocks| ==>
          && c'.blocks[i].tail == c.blocks[i].tail && c'.blocks[i].localFront == c.blocks[i].localFront
          && c'.blocks[i].data == c.blocks[i].data)
    && (forall i :: 0 <= i < |c.blocks| && i != c.frontBlock ==>
          c'.blocks[i].front == c.blocks[i].front && c'.items[i] == c.items[i])
  }

  lemma ProducerKnowsStill<T>(c: Core<T>, c': Core<T>, p: Producer, x: T, mostHeld: nat, mostHeld': nat)
    requires Sized(c) && Sized(c') && ConsumerMoves(c, c') && mostHeld <= mostHeld'
    requires ProducerOk(c, p, x, mostHeld)
    ensures ProducerOk(c', p, x, mostHeld')
  {
    hide At, BlockOk;
    if c.frontTurn < c.tailTurn {
      TurnsDiffer(c.frontTurn, c.tailTurn, |c.blocks|);
    }
    if c.tailTurn + 1 < c.frontTurn + |c.blocks| {
      TurnsDiffer(c.frontTurn, c.tailTurn + 1, |c.blocks|);
    }
  }

  // ---------------------------------------------------------------------------------------------
  // The changes the steps make to the structure
  // ---------------------------------------------------------------------------------------------

  // A block changed without changing what it holds.
  lemma Refreshed<T>(c: Core<T>, i: nat, b: Block<T>, ahead: bool)
    requires Good(c, ahead) && i < |c.blocks| && BlockOk(b, c.items[i], c.size)
    ensures Good(SetBlock(c, i, b), ahead) && Contents(SetBlock(c, i, b)) == Contents(c)
  {
    hide At, BlockOk, Gather;
  }

  function TailAppended<T>(c: Core<T>, x: T): Core<T>
    requires Sized(c)
  {
    var b := c.blocks[c.tailBlock];
    SetItems(SetBlock(c, c.tailBlock, b.(tail := Next(b.tail, c.size))), c.tailBlock, c.items[c.tailBlock] + [x])
  }

  lemma EnqueuedHere<T>(c: Core<T>, x: T)
    requires Good(c, false) && HasRoom(c.blocks[c.tailBlock], c.size)
    requires c.blocks[c.tailBlock].data[c.blocks[c.tailBlock].tail] == Some(x)
    ensures Good(TailAppended(c, x), false) && Contents(TailAppended(c, x)) == Contents(c) + [x]
  {
    hide At, Gather, BlockOk;
    var c' := TailAppended(c, x);
    Appended(c.blocks[c.tailBlock], c.items[c.tailBlock], c.size, x);
    forall t | c.frontTurn <= t < c.frontTurn + |c.blocks| && t != c.tailTurn
      ensures At(t, |c.blocks|) != c.tailBlock
    {
      TurnsDiffer(if t < c.tailTurn then t else c.tailTurn, if t < c.tailTurn then c.tailTurn else t, |c.blocks|);
    }
    GatherFrame(c.items, c'.items, c.frontTurn, c.tailTurn);
    GatherLast(c.items, c.frontTurn, c.tailTurn);
    GatherLast(c'.items, c.frontTurn, c.tailTurn);
  }

  lemma GatherLast<T>(items: seq<seq<T>>, from: nat, last: nat)
    requires |items| >= 1 && from <= last
    ensures Gather(items, from, last + 1) == Gather(items, from, last) + items[At(last, |items|)]
  {
    hide At;
    GatherSplit(items, from, last, last + 1);
    assert Gather(items, last, last + 1) == items[At(last, |items|)] + Gather(items, last + 1, last + 1);
  }

  function NextAppended<T>(c: Core<T>, n: nat, x: T): Core<T>
    requires Sized(c) && n < |c.blocks|
  {
    var b := c.blocks[n];
    SetItems(SetBlock(c, n, b.(tail := Next(b.tail, c.size))), n, c.items[n] + [x])
  }

  lemma EnqueuedAhead<T>(c: Core<T>, n: nat, x: T)
    requires Good(c, false) && NextFree(c, n)
    requires c.blocks[n].localFront == c.blocks[n].tail && c.blocks[n].data[c.blocks[n].tail] == Some(x)
    ensures c.items[n] == [] && n != c.frontBlock && n != c.tailBlock
    ensures Good(NextAppended(c, n, x), true) && Contents(NextAppended(c, n, x)) == Contents(c)
  {
    hide At, Gather, BlockOk;
    var c' := NextAppended(c, n, x);
    assert HasRoom(c.blocks[n], c.size) by { BlockBounds(c.blocks[n], c.items[n], c.size); }
    Appended(c.blocks[n], c.items[n], c.size, x);
    forall t | c.frontTurn <= t < c.frontTurn + |c.blocks| && t != c.tailTurn + 1
      ensures At(t, |c.blocks|) != n
    {
      TurnsDiffer(if t <= c.tailTurn then t else c.tailTurn + 1,
                  if t <= c.tailTurn then c.tailTurn + 1 else t, |c.blocks|);
    }
    GatherFrame(c.items, c'.items, c.frontTurn, c.tailTurn + 1);
  }

  lemma BlockBounds<T>(b: Block<T>, items: seq<T>, n: nat)
    requires BlockOk(b, items, n)
    ensures b.front < n && b.tail < n && b.localFront < n && b.localTail < n && |b.data| == n
    ensures b.front == b.tail <==> items == []
    ensures Next(b.tail, n) == b.front <==> |items| == n - 1
    ensures Next(b.tail, n) != b.localFront ==> HasRoom(b, n)
  {
  }

  function TailAdvanced<T>(c: Core<T>, n: nat): Core<T> {
    c.(tailBlock := n, tailTurn := c.tailTurn + 1)
  }

  lemma Advanced<T>(c: Core<T>, n: nat, x: T)
    requires Good(c, true) && NextFree(c, n) && c.items[n] == [x]
    ensures Good(TailAdvanced(c, n), false) && Contents(TailAdvanced(c, n)) == Contents(c) + [x]
  {
    hide At, Gather, BlockOk;
    GatherLast(c.items, c.frontTurn, c.tailTurn + 1);
  }

  function FrontReleased<T>(c: Core<T>): Core<T>
    requires Sized(c) && c.items[c.frontBlock] != []
  {
    var b := c.blocks[c.frontBlock];
    SetItems(SetBlock(c, c.frontBlock, b.(front := Next(b.front, c.size))), c.frontBlock, c.items[c.frontBlock][1..])
  }

  lemma Dequeued<T>(c: Core<T>, ahead: bool)
    requires Good(c, ahead) && HasItem(c.blocks[c.frontBlock], c.size)
    requires ahead ==> c.tailTurn + 1 < c.frontTurn + |c.blocks|
    ensures c.items[c.frontBlock] != [] && Good(FrontReleased(c), ahead)
    ensures Contents(c) == [c.items[c.frontBlock][0]] + Contents(FrontReleased(c))
  {
    hide At, Gather, BlockOk;
    HeadSlot(c.blocks[c.frontBlock], c.items[c.frontBlock], c.size);
    BlockBounds(c.blocks[c.frontBlock], c.items[c.frontBlock], c.size);
    Dropped(c.blocks[c.frontBlock], c.items[c.frontBlock], c.size);
    var c' := FrontReleased(c);
    forall t | c.frontTurn < t < c.frontTurn + |c.blocks| ensures At(t, |c.blocks|) != c.frontBlock {
      TurnsDiffer(c.frontTurn, t, |c.blocks|);
    }
    GatherFrame(c.items, c'.items, c.frontTurn + 1, c.tailTurn + 1);
    GatherFirst(c.items, c.frontTurn, c.tailTurn + 1);
    GatherFirst(c'.items, c.frontTurn, c.tailTurn + 1);
  }

  lemma GatherFirst<T>(items: seq<seq<T>>, from: nat, end: nat)
    requires |items| >= 1 && from < end
    ensures Gather(items, from, end) == items[At(from, |items|)] + Gather(items, from + 1, end)
  {
  }

  function FrontAdvanced<T>(c: Core<T>, n: nat): Core<T> {
    c.(frontBlock := n, frontTurn := c.frontTurn + 1)
  }

  lemma FrontMoved<T>(c: Core<T>, n: nat, ahead: bool)
    requires Good(c, ahead) && SecondBlock(c, n)
    requires ahead ==> c.tailTurn + 1 < c.frontTurn + |c.blocks|
    ensures Good(FrontAdvanced(c, n), ahead) && Contents(FrontAdvanced(c, n)) == Contents(c)
  {
    hide At, Gather, BlockOk;
    RoundTurn(c.frontTurn, |c.blocks|);
    GatherFirst(c.items, c.frontTurn, c.tailTurn + 1);
  }

  // A full round later it is the same block's turn.
  lemma RoundTurn(t: nat, n: nat)
    requires n >= 1
    ensures At(t + n, n) == At(t, n)
  {
  }

  // The second block holds an item: it is a full one between the ends, or the tail block.
  lemma SecondHolds<T>(c: Core<T>, n: nat, ahead: bool)
    requires Good(c, ahead) && SecondBlock(c, n)
    ensures c.items[n] != [] && n != c.frontBlock
  {
    hide At, BlockOk;
    TurnsDiffer(c.frontTurn, c.frontTurn + 1, |c.blocks|);
  }

  // The block after the tail block is the front block exactly when the ends are a whole round apart.
  lemma TailMeetsFront<T>(c: Core<T>)
    requires Sized(c)
    ensures Next(c.tailBlock, |c.blocks|) == At(c.tailTurn + 1, |c.blocks|)
    ensures Next(c.tailBlock, |c.blocks|) == c.frontBlock <==> c.tailTurn + 1 == c.frontTurn + |c.blocks|
  {
    hide At, BlockOk;
    NextTurn(c.tailTurn, |c.blocks|);
    RoundTurn(c.frontTurn, |c.blocks|);
    if c.tailTurn + 1 < c.frontTurn + |c.blocks| {
      TurnsDiffer(c.frontTurn, c.tailTurn + 1, |c.blocks|);
    }
  }

  // With the ends a whole round apart and the tail block full, the queue holds its capacity.
  lemma HoldsCapacity<T>(c: Core<T>)
    requires Good(c, false) && TailFull(c) && c.tailTurn + 1 == c.frontTurn + |c.blocks| && |c.blocks| > 1
    ensures |Contents(c)| >= Capacity(c)
  {
    hide At, Gather, BlockOk;
    GatherFull(c.items, c.frontTurn + 1, c.tailTurn + 1, c.size - 1);
    GatherFirst(c.items, c.frontTurn, c.tailTurn + 1);
  }

  lemma OneBlockContents<T>(c: Core<T>)
    requires Sized(c) && c.frontTurn == c.tailTurn
    ensures Contents(c) == c.items[c.frontBlock]
  {
    hide At, BlockOk;
    GatherLast(c.items, c.frontTurn, c.frontTurn);
  }

  // ---------------------------------------------------------------------------------------------
  // Every step keeps what the threads rely on
  // ---------------------------------------------------------------------------------------------

  function Max(a: nat, b: nat): nat {
    if a >= b then a else b
  }

  // The producer's step from (c, p) to (c', p') is sound: the structure stays good, the queue gains exactly what the
  // step enqueues, the consumer's knowledge survives, and the producer knows what its next step needs.
  ghost predicate ProducerSound<T>(c: Core<T>, p: Producer, x: T, mostHeld: nat, c': Core<T>, p': Producer)
    requires Sized(c)
  {
    && Good(c', p'.PAdvance?) && ProducerMoves(c, c')
    && Contents(c') == Contents(c) + (if Enqueues(p) then [x] else [])
    && ProducerOk(c', p', x, Max(mostHeld, |Contents(c')|))
  }

  lemma ProducerIndices<T>(c: Core<T>, p: Producer, x: T, mostHeld: nat)
    requires p.PIndices? && Good(c, false) && ProducerOk(c, p, x, mostHeld) && ProducerInRange(c, p)
    ensures var r := ProducerCore(c, p, x); ProducerSound(c, p, x, mostHeld, r.0, r.1)
  {
    hide At, BlockOk, Gather, Contents, Ring;
    BlockBounds(c.blocks[c.tailBlock], c.items[c.tailBlock], c.size);
  }

  lemma ProducerChecksFront<T>(c: Core<T>, p: Producer, x: T, mostHeld: nat)
    requires p.PCheckFront? && Good(c, false) && ProducerOk(c, p, x, mostHeld) && ProducerInRange(c, p)
    ensures var r := ProducerCore(c, p, x); ProducerSound(c, p, x, mostHeld, r.0, r.1)
  {
    hide At, BlockOk, Gather, Contents, Ring;
    var b := c.blocks[c.tailBlock];
    BlockBounds(b, c.items[c.tailBlock], c.size);
    FrontRead(b, c.items[c.tailBlock], c.size);
    BlockBounds(b.(localFront := b.front), c.items[c.tailBlock], c.size);
    Refreshed(c, c.tailBlock, b.(localFront := b.front), false);
    if |c.blocks| == 1 {
      OneBlockContents(c);
    }
  }

  lemma ProducerWrites<T>(c: Core<T>, p: Producer, x: T, mostHeld: nat)
    requires p.PWrite? && Good(c, false) && ProducerOk(c, p, x, mostHeld) && ProducerInRange(c, p)
    ensures var r := ProducerCore(c, p, x); ProducerSound(c, p, x, mostHeld, r.0, r.1)
  {
    hide At, BlockOk, Gather, Contents, Ring;
    var b := c.blocks[c.tailBlock];
    SlotWritten(b, c.items[c.tailBlock], c.size, x);
    Refreshed(c, c.tailBlock, b.(data := b.data[b.tail := Some(x)]), false);
  }

  lemma ProducerPublishes<T>(c: Core<T>, p: Producer, x: T, mostHeld: nat)
    requires p.PPublish? && Good(c, false) && ProducerOk(c, p, x, mostHeld) && ProducerInRange(c, p)
    ensures var r := ProducerCore(c, p, x); ProducerSound(c, p, x, mostHeld, r.0, r.1)
  {
    hide At, BlockOk, Gather, Contents, Ring;
    EnqueuedHere(c, x);
    if c.frontTurn < c.tailTurn {
      TurnsDiffer(c.frontTurn, c.tailTurn, |c.blocks|);
    }
  }

  lemma ProducerChecksNext<T>(c: Core<T>, p: Producer, x: T, mostHeld: nat)
    requires p.PCheckNext? && Good(c, false) && ProducerOk(c, p, x, mostHeld) && ProducerInRange(c, p)
    ensures var r := ProducerCore(c, p, x); ProducerSound(c, p, x, mostHeld, r.0, r.1)
  {
    hide At, BlockOk, Gather, Contents, Ring;
    TailMeetsFront(c);
    if Next(c.tailBlock, |c.blocks|) == c.frontBlock && |c.blocks| > 1 {
      HoldsCapacity(c);
    }
  }

  lemma ProducerLooksNext<T>(c: Core<T>, p: Producer, x: T, mostHeld: nat)
    requires (p.PNextFront? || p.PNextTail?) && Good(c, false) && ProducerOk(c, p, x, mostHeld) && ProducerInRange(c, p)
    ensures var r := ProducerCore(c, p, x); ProducerSound(c, p, x, mostHeld, r.0, r.1)
  {
    hide At, BlockOk, Gather, Contents;
    var b := c.blocks[p.next];
    BlockBounds(b, c.items[p.next], c.size);
    FrontRead(b, c.items[p.next], c.size);
    Refreshed(c, p.next, b.(localFront := b.front), false);
  }

  lemma ProducerWritesNext<T>(c: Core<T>, p: Producer, x: T, mostHeld: nat)
    requires p.PNextWrite? && Good(c, false) && ProducerOk(c, p, x, mostHeld) && ProducerInRange(c, p)
    ensures var r := ProducerCore(c, p, x); ProducerSound(c, p, x, mostHeld, r.0, r.1)
  {
    hide At, BlockOk, Gather, Contents, Ring;
    var b := c.blocks[p.next];
    SlotWritten(b, c.items[p.next], c.size, x);
    Refreshed(c, p.next, b.(data := b.data[b.tail := Some(x)]), false);
  }

  lemma ProducerPublishesNext<T>(c: Core<T>, p: Producer, x: T, mostHeld: nat)
    requires p.PNextPublish? && Good(c, false) && ProducerOk(c, p, x, mostHeld) && ProducerInRange(c, p)
    ensures var r := ProducerCore(c, p, x); ProducerSound(c, p, x, mostHeld, r.0, r.1)
  {
    hide At, BlockOk, Gather, Contents, Ring;
    EnqueuedAhead(c, p.next, x);
  }

  lemma ProducerAdvances<T>(c: Core<T>, p: Producer, x: T, mostHeld: nat)
    requires p.PAdvance? && Good(c, true) && ProducerOk(c, p, x, mostHeld) && ProducerInRange(c, p)
    ensures var r := ProducerCore(c, p, x); ProducerSound(c, p, x, mostHeld, r.0, r.1)
  {
    hide At, BlockOk, Gather, Contents, Ring;
    Advanced(c, p.next, x);
  }

  predicate InCall(p: Producer) {
    !p.PStart? && !p.PReturn? && !p.PAssertFailed? && !p.PExit?
  }

  lemma ProducerCoreSound<T>(c: Core<T>, p: Producer, x: T, mostHeld: nat)
    requires InCall(p) && Good(c, p.PAdvance?) && ProducerOk(c, p, x, mostHeld)
    ensures ProducerInRange(c, p)
    ensures var r := ProducerCore(c, p, x); ProducerSound(c, p, x, mostHeld, r.0, r.1) <==> true
  {
    hide At, BlockOk, Gather, Contents, Ring, ProducerCore, ProducerSound, ProducerInRange, ProducerOk;
    InRange(c, p, x, mostHeld);
    match p {
      case PIndices(_) => ProducerIndices(c, p, x, mostHeld);
      case PCheckFront(_, _) => ProducerChecksFront(c, p, x, mostHeld);
      case PWrite(_, _) => ProducerWrites(c, p, x, mostHeld);
      case PPublish(_, _) => ProducerPublishes(c, p, x, mostHeld);
      case PCheckNext(_) => ProducerChecksNext(c, p, x, mostHeld);
      case PNextFront(_) => ProducerLooksNext(c, p, x, mostHeld);
      case PNextTail(_, _) => ProducerLooksNext(c, p, x, mostHeld);
      case PNextWrite(_, _) => ProducerWritesNext(c, p, x, mostHeld);
      case PNextPublish(_, _) => ProducerPublishesNext(c, p, x, mostHeld);
      case PAdvance(_) => ProducerAdvances(c, p, x, mostHeld);
    }
  }

  ghost predicate ConsumerSound<T>(c: Core<T>, q: Consumer<T>, sawEmpty: bool, quiet: bool, ahead: bool,
                                   c': Core<T>, q': Consumer<T>)
    requires Sized(c)
  {
    && Good(c', ahead) && ConsumerMoves(c, c')
    && Contents(c) == (if q.CRelease? then [q.value] else []) + Contents(c')
    && ConsumerOk(c', q', sawEmpty || Contents(c') == [], quiet)
  }

  ghost predicate ConsumerReady<T>(c: Core<T>, q: Consumer<T>, sawEmpty: bool, quiet: bool, ahead: bool) {
    && Good(c, ahead) && (ahead ==> c.tailTurn + 1 < c.frontTurn + |c.blocks|) && (quiet ==> !ahead)
    && ConsumerOk(c, q, sawEmpty, quiet) && ConsumerInRange(c, q)
  }

  // size_approx has counted block b too; when b is the last one the sum is exact, because the producer is quiet.
  lemma SizeSummed<T>(c: Core<T>, first: nat, b: nat, sum: nat)
    requires Good(c, false) && Summed(c, first, b, sum)
    ensures var sum' := sum + |c.items[b]|;
            var n := Next(b, |c.blocks|);
            if n != first then Summed(c, first, n, sum') else sum' == |Contents(c)|
  {
    hide At, BlockOk, Gather;
    var k := Dist(first, b, |c.blocks|);
    AtShift(c.frontTurn, k, |c.blocks|);
    GatherLast(c.items, c.frontTurn, c.frontTurn + k);
    if Next(b, |c.blocks|) == first {
      GatherSplit(c.items, c.frontTurn, c.tailTurn + 1, c.frontTurn + k + 1);
      GatherEmpty(c.items, c.tailTurn + 1, c.frontTurn + k + 1);
    } else {
      assert Dist(first, Next(b, |c.blocks|), |c.blocks|) == k + 1;
    }
  }

  lemma ConsumerSizes<T>(c: Core<T>, q: Consumer<T>, sawEmpty: bool, quiet: bool, ahead: bool)
    requires (q.CSizeStart? || q.CSizeFront? || q.CSizeTail?) && ConsumerReady(c, q, sawEmpty, quiet, ahead)
    ensures var r := ConsumerCore(c, q); ConsumerSound(c, q, sawEmpty, quiet, ahead, r.0, r.1)
  {
    hide At, BlockOk, Contents, Ring;
    if q.CSizeTail? {
      BlockDist(c.blocks[q.block], c.items[q.block], c.size);
      SizeSummed(c, q.first, q.block, q.sum);
    }
  }

  lemma BlockDist<T>(b: Block<T>, items: seq<T>, n: nat)
    requires BlockOk(b, items, n)
    ensures b.front < n && b.tail < n && |items| == Dist(b.front, b.tail, n)
  {
  }

  lemma ConsumerFront<T>(c: Core<T>, q: Consumer<T>, sawEmpty: bool, quiet: bool, ahead: bool)
    requires q.CFront? && ConsumerReady(c, q, sawEmpty, quiet, ahead)
    ensures var r := ConsumerCore(c, q); ConsumerSound(c, q, sawEmpty, quiet, ahead, r.0, r.1)
  {
    hide At, BlockOk, Gather, Contents, Ring;
    BlockBounds(c.blocks[q.block], c.items[q.block], c.size);
  }

  lemma ConsumerChecksTail<T>(c: Core<T>, q: Consumer<T>, sawEmpty: bool, quiet: bool, ahead: bool)
    requires q.CCheckTail? && ConsumerReady(c, q, sawEmpty, quiet, ahead)
    ensures var r := ConsumerCore(c, q); ConsumerSound(c, q, sawEmpty, quiet, ahead, r.0, r.1)
  {
    hide At, BlockOk, Gather, Contents, Ring;
    var b := c.blocks[q.block];
    BlockBounds(b, c.items[q.block], c.size);
    TailRead(b, c.items[q.block], c.size);
    Refreshed(c, q.block, b.(localTail := b.tail), ahead);
    if c.frontTurn == c.tailTurn {
      OneBlockContents(c);
    }
  }

  lemma ConsumerChecksTailBlock<T>(c: Core<T>, q: Consumer<T>, sawEmpty: bool, quiet: bool, ahead: bool)
    requires (q.CCheckTailBlock? || q.CReload?) && ConsumerReady(c, q, sawEmpty, quiet, ahead)
    ensures var r := ConsumerCore(c, q); ConsumerSound(c, q, sawEmpty, quiet, ahead, r.0, r.1)
  {
    hide At, BlockOk, Gather, Contents, Ring;
    if c.frontTurn < c.tailTurn {
      TurnsDiffer(c.frontTurn, c.tailTurn, |c.blocks|);
    }
  }

  lemma ConsumerRereads<T>(c: Core<T>, q: Consumer<T>, sawEmpty: bool, quiet: bool, ahead: bool)
    requires (q.CReTail? || q.CReFront?) && ConsumerReady(c, q, sawEmpty, quiet, ahead)
    ensures var r := ConsumerCore(c, q); ConsumerSound(c, q, sawEmpty, quiet, ahead, r.0, r.1)
  {
    hide At, BlockOk, Gather, Contents, Ring;
    var b := c.blocks[q.block];
    BlockBounds(b, c.items[q.block], c.size);
    TailRead(b, c.items[q.block], c.size);
    Refreshed(c, q.block, b.(localTail := b.tail), ahead);
  }

  lemma ConsumerNexts<T>(c: Core<T>, q: Consumer<T>, sawEmpty: bool, quiet: bool, ahead: bool)
    requires (q.CNext? || q.CNextFront?) && ConsumerReady(c, q, sawEmpty, quiet, ahead)
    ensures var r := ConsumerCore(c, q); ConsumerSound(c, q, sawEmpty, quiet, ahead, r.0, r.1)
  {
    hide At, BlockOk, Gather, Contents, Ring;
    NextTurn(c.frontTurn, |c.blocks|);
  }

  lemma ConsumerNextTail<T>(c: Core<T>, q: Consumer<T>, sawEmpty: bool, quiet: bool, ahead: bool)
    requires q.CNextTail? && ConsumerReady(c, q, sawEmpty, quiet, ahead)
    ensures var r := ConsumerCore(c, q); ConsumerSound(c, q, sawEmpty, quiet, ahead, r.0, r.1)
  {
    hide At, BlockOk, Gather, Contents, Ring;
    var b := c.blocks[q.next];
    SecondHolds(c, q.next, ahead);
    BlockBounds(b, c.items[q.next], c.size);
    TailRead(b, c.items[q.next], c.size);
    Refreshed(c, q.next, b.(localTail := b.tail), ahead);
  }

  lemma ConsumerAdvances<T>(c: Core<T>, q: Consumer<T>, sawEmpty: bool, quiet: bool, ahead: bool)
    requires q.CAdvance? && ConsumerReady(c, q, sawEmpty, quiet, ahead)
    ensures var r := ConsumerCore(c, q); ConsumerSound(c, q, sawEmpty, quiet, ahead, r.0, r.1)
  {
    hide At, BlockOk, Gather, Contents, Ring;
    FrontMoved(c, q.next, ahead);
  }

  lemma ConsumerTakes<T>(c: Core<T>, q: Consumer<T>, sawEmpty: bool, quiet: bool, ahead: bool)
    requires q.CTake? && ConsumerReady(c, q, sawEmpty, quiet, ahead)
    ensures var r := ConsumerCore(c, q); ConsumerSound(c, q, sawEmpty, quiet, ahead, r.0, r.1)
  {
    hide At, BlockOk, Gather, Contents, Ring;
    HeadSlot(c.blocks[q.block], c.items[q.block], c.size);
  }

  lemma ConsumerReleases<T>(c: Core<T>, q: Consumer<T>, sawEmpty: bool, quiet: bool, ahead: bool)
    requires q.CRelease? && ConsumerReady(c, q, sawEmpty, quiet, ahead)
    ensures var r := ConsumerCore(c, q); ConsumerSound(c, q, sawEmpty, quiet, ahead, r.0, r.1)
  {
    hide At, BlockOk, Gather, Contents, Ring;
    Dequeued(c, ahead);
  }

  predicate Working<T>(q: Consumer<T>) {
    !q.CTop? && !q.CClear? && !q.CStart? && !q.CReturn? && !q.CAssertFailed? && !q.CExit?
  }

  lemma ConsumerCoreSound<T>(c: Core<T>, q: Consumer<T>, sawEmpty: bool, quiet: bool, ahead: bool)
    requires Working(q) && ConsumerReady(c, q, sawEmpty, quiet, ahead)
    ensures Sized(c) && ConsumerInRange(c, q)
    ensures var r := ConsumerCore(c, q); ConsumerSound(c, q, sawEmpty, quiet, ahead, r.0, r.1) <==> true
  {
    hide At, BlockOk, Gather, Contents, Ring, ConsumerCore, ConsumerSound, ConsumerInRange, ConsumerOk, Sized;
    match q {
      case CSizeStart => ConsumerSizes(c, q, sawEmpty, quiet, ahead);
      case CSizeFront(_, _, _) => ConsumerSizes(c, q, sawEmpty, quiet, ahead);
      case CSizeTail(_, _, _, _) => ConsumerSizes(c, q, sawEmpty, quiet, ahead);
      case CFront(_) => ConsumerFront(c, q, sawEmpty, quiet, ahead);
      case CCheckTail(_, _) => ConsumerChecksTail(c, q, sawEmpty, quiet, ahead);
      case CCheckTailBlock(_) => ConsumerChecksTailBlock(c, q, sawEmpty, quiet, ahead);
      case CReload => ConsumerChecksTailBlock(c, q, sawEmpty, quiet, ahead);
      case CReTail(_) => ConsumerRereads(c, q, sawEmpty, quiet, ahead);
      case CReFront(_, _) => ConsumerRereads(c, q, sawEmpty, quiet, ahead);
      case CNext(_) => ConsumerNexts(c, q, sawEmpty, quiet, ahead);
      case CNextFront(_) => ConsumerNexts(c, q, sawEmpty, quiet, ahead);
      case CNextTail(_, _) => ConsumerNextTail(c, q, sawEmpty, quiet, ahead);
      case CAdvance(_, _) => ConsumerAdvances(c, q, sawEmpty, quiet, ahead);
      case CTake(_, _) => ConsumerTakes(c, q, sawEmpty, quiet, ahead);
      case CRelease(_, _, _) => ConsumerReleases(c, q, sawEmpty, quiet, ahead);
    }
  }

  // ---------------------------------------------------------------------------------------------
  // The constructor
  // ---------------------------------------------------------------------------------------------

  const MAX_BLOCK_SIZE: nat := 512

  ghost predicate PowerOfTwo(x: nat) {
    x == 1 || (x > 0 && x % 2 == 0 && PowerOfTwo(x / 2))
  }

  // The smallest power of two that is at least x.
  function CeilToPow2(x: nat): (r: nat)
    requires x >= 1
    ensures PowerOfTwo(r) && x <= r < 2 * x
  {
    if x == 1 then 1 else 2 * CeilToPow2((x + 1) / 2)
  }

  function EmptyBlock<T>(size: nat): Block<T> {
    Block(0, 0, 0, 0, seq(size, _ => None))
  }

  function Ringed<T>(size: nat, count: nat): Core<T> {
    Core(size, seq(count, _ => EmptyBlock(size)), 0, 0, seq(count, _ => []), 0, 0)
  }

  // A queue for `wanted` elements: one block when that takes at most twice the maximum, otherwise several of the
  // maximum.
  function Created<T>(wanted: nat): Core<T> {
    var largest := CeilToPow2(wanted + 1);
    if largest > MAX_BLOCK_SIZE * 2 then
      Ringed(MAX_BLOCK_SIZE, (wanted + MAX_BLOCK_SIZE * 2 - 3) / (MAX_BLOCK_SIZE - 1))
    else
      Ringed(largest, 1)
  }

  // A new queue is empty, and has room for what it was built for. One for no elements has a block of one slot, which
  // no element ever fits.
  lemma CreatedFits<T>(wanted: nat)
    ensures Capacity(Created<T>(wanted)) >= wanted
    ensures wanted > 0 ==> Good(Created<T>(wanted), false) && Contents(Created<T>(wanted)) == []
  {
    var c := Created<T>(wanted);
    if |c.blocks| > 1 {
      assert c.size == 512 && |c.blocks| == (wanted + 1021) / 511;
    }
    if wanted > 0 {
      assert c.size >= 2;
      assert At(0, |c.blocks|) == 0;
      forall i | 0 <= i < |c.blocks| ensures BlockOk(c.blocks[i], c.items[i], c.size) {
      }
      GatherEmpty(c.items, 0, 1);
    }
  }

  // ---------------------------------------------------------------------------------------------
  // Runs
  // ---------------------------------------------------------------------------------------------

  // What both threads' current calls have seen at this instant.
  function Observed<T>(s: State<T>): State<T>
    requires |s.core.items| >= 1
  {
    s.(sawEmpty := s.sawEmpty || Contents(s.core) == [], mostHeld := Max(s.mostHeld, |Contents(s.core)|))
  }

  function Start<T>(wanted: nat, input: seq<T>): State<T> {
    State(Created(wanted), PStart, CTop, false, input, input, [], [], false, 0)
  }

  // Both threads are joined and started again on the next backup; the queue and its flag are as they were left.
  function NextBackup<T>(s: State<T>, more: seq<T>): State<T> {
    State(s.core, PStart, CTop, s.done, more, more, [], [], false, 0)
  }

  ghost predicate Step<T>(s: State<T>, s': State<T>) {
    || (ProducerEnabled(s) && s' == Observed(ProducerStep(s)))
    || (ConsumerEnabled(s) && s' == Observed(ConsumerStep(s)))
    || (s.prod.PExit? && s.cons.CExit? && s' == NextBackup(s, s'.input))
  }

  // The states of a run, under any interleaving of the threads and over any number of backups.
  ghost predicate Run<T>(wanted: nat, tr: seq<State<T>>) {
    && |tr| > 0 && tr[0] == Start(wanted, tr[0].input)
    && (forall i :: 0 < i < |tr| ==> Step(tr[i - 1], tr[i]))
  }

  ghost predicate Inv<T>(s: State<T>) {
    && Good(s.core, s.prod.PAdvance?)
    && s.pushed + s.todo == s.input && s.pushed == s.popped + Contents(s.core)
    && (s.prod.PExit? ==> s.todo == [])
    && (s.done <==> s.prod.PExit? && !s.cons.CExit?)
    && !s.prod.PAssertFailed? && (s.prod == PReturn(false) ==> s.mostHeld >= Capacity(s.core))
    && (InCall(s.prod) ==> s.todo != [] && ProducerOk(s.core, s.prod, s.todo[0], s.mostHeld))
    && ConsumerOk(s.core, s.cons, s.sawEmpty, s.prod.PExit?)
  }

  lemma {:induction false} StartIsGood<T>(wanted: nat, input: seq<T>)
    requires wanted > 0
    ensures Inv(Start(wanted, input))
  {
    CreatedFits<T>(wanted);
  }

  lemma ProducerKeeps<T>(s: State<T>)
    requires Inv(s) && ProducerEnabled(s)
    ensures Inv(Observed(ProducerStep(s))) <==> true
  {
    hide At, BlockOk, Gather, Contents, Ring, ProducerCore, ProducerInRange, Inv, ProducerStep;
    if InCall(s.prod) {
      ProducerWorks(s);
    } else {
      ProducerPasses(s);
    }
  }

  lemma ProducerWorks<T>(s: State<T>)
    requires Inv(s) && ProducerEnabled(s) && InCall(s.prod)
    ensures Inv(Observed(ProducerStep(s))) <==> true
  {
    hide At, BlockOk, Gather, Contents, Ring, ProducerCore, ProducerInRange;
    var x := s.todo[0];
    ProducerCoreSound(s.core, s.prod, x, s.mostHeld);
    var (c, p) := ProducerCore(s.core, s.prod, x);
    ConsumerKnowsStill(s.core, c, s.cons, s.sawEmpty, s.sawEmpty || Contents(c) == []);
    ProducerGoesOn(s.core, s.prod, x);
    if Enqueues(s.prod) {
      assert s.pushed + s.todo == (s.pushed + [x]) + s.todo[1..];
    }
  }

  lemma ProducerPasses<T>(s: State<T>)
    requires Inv(s) && ProducerEnabled(s) && !InCall(s.prod)
    ensures Inv(Observed(ProducerStep(s))) <==> true
  {
    hide At, BlockOk, Gather, Contents, Ring, ProducerCore, ProducerInRange;
    ConsumerKnowsMore(s.core, s.cons, s.sawEmpty, s.sawEmpty || Contents(s.core) == [], s.prod.PExit?);
  }

  // After a step inside a call the producer is still inside it, unless the step enqueued or the queue was full.
  lemma ProducerGoesOn<T>(c: Core<T>, p: Producer, x: T)
    requires InCall(p) && ProducerInRange(c, p)
    ensures var p' := ProducerCore(c, p, x).1;
            !p'.PStart? && !p'.PExit? && (Enqueues(p) ==> p' == PReturn(true) || p'.PAssertFailed?)
              && (InCall(p') ==> !Enqueues(p))
  {
  }

  lemma ConsumerKnowsMore<T>(c: Core<T>, q: Consumer<T>, sawEmpty: bool, sawEmpty': bool, quiet: bool)
    requires Sized(c) && ConsumerOk(c, q, sawEmpty, quiet) && (sawEmpty ==> sawEmpty')
    ensures ConsumerOk(c, q, sawEmpty', quiet) && ConsumerOk(c, q, sawEmpty', true)
  {
  }

  lemma ConsumerKeeps<T>(s: State<T>)
    requires Inv(s) && ConsumerEnabled(s)
    ensures Inv(Observed(ConsumerStep(s))) <==> true
  {
    hide At, BlockOk, Gather, Contents, Ring, ConsumerCore, ConsumerInRange, Inv, ConsumerStep;
    if Working(s.cons) {
      ConsumerWorks(s);
    } else {
      ConsumerPasses(s);
    }
  }

  lemma ConsumerWorks<T>(s: State<T>)
    requires Inv(s) && ConsumerEnabled(s) && Working(s.cons)
    ensures Inv(Observed(ConsumerStep(s))) <==> true
  {
    hide At, BlockOk, Gather, Contents, Ring, ConsumerCore, ConsumerInRange, ConsumerStep, Sized;
    WorkingStep(s);
    ConsumerCoreSound(s.core, s.cons, s.sawEmpty, s.prod.PExit?, s.prod.PAdvance?);
    var (c, q) := ConsumerCore(s.core, s.cons);
    ConsumerGoesOn(s.core, s.cons);
    if InCall(s.prod) {
      ProducerKnowsStill(s.core, c, s.prod, s.todo[0], s.mostHeld, Max(s.mostHeld, |Contents(c)|));
    }
  }

  lemma WorkingStep<T>(s: State<T>)
    requires ConsumerEnabled(s) && Working(s.cons)
    ensures var (c, q) := ConsumerCore(s.core, s.cons);
            var got := if s.cons.CRelease? then [s.cons.value] else [];
            ConsumerStep(s) == s.(core := c, cons := q, popped := s.popped + got)
  {
    hide ConsumerCore, ConsumerInRange;
    assert s.popped + [] == s.popped;
  }

  lemma ConsumerPasses<T>(s: State<T>)
    requires Inv(s) && ConsumerEnabled(s) && !Working(s.cons)
    ensures Inv(Observed(ConsumerStep(s))) <==> true
  {
    hide At, BlockOk, Gather, Contents, Ring, ConsumerCore, ConsumerInRange;
    if InCall(s.prod) {
      ProducerKnowsMore(s.core, s.prod, s.todo[0], s.mostHeld, Max(s.mostHeld, |Contents(s.core)|));
    }
  }

  lemma ConsumerGoesOn<T>(c: Core<T>, q: Consumer<T>)
    requires Working(q) && ConsumerInRange(c, q)
    ensures !ConsumerCore(c, q).1.CExit?
  {
  }

  lemma ProducerKnowsMore<T>(c: Core<T>, p: Producer, x: T, mostHeld: nat, mostHeld': nat)
    requires Sized(c) && ProducerOk(c, p, x, mostHeld) && mostHeld <= mostHeld'
    ensures ProducerOk(c, p, x, mostHeld')
  {
  }

  lemma NextBackupKeeps<T>(s: State<T>, more: seq<T>)
    requires Inv(s) && s.prod.PExit? && s.cons.CExit?
    ensures Inv(NextBackup(s, more))
  {
    hide At, BlockOk, Gather, Contents, Ring;
  }

  lemma StepKeeps<T>(s: State<T>, s': State<T>)
    requires Inv(s) && Step(s, s')
    ensures Inv(s') <==> true
  {
    hide Inv, ProducerStep, ConsumerStep, ProducerInRange, ConsumerInRange, Observed, Contents;
    if ProducerEnabled(s) && s' == Observed(ProducerStep(s)) {
      ProducerKeeps(s);
    } else if ConsumerEnabled(s) && s' == Observed(ConsumerStep(s)) {
      ConsumerKeeps(s);
    } else {
      NextBackupKeeps(s, s'.input);
    }
  }

  lemma {:induction false} RunKeeps<T>(wanted: nat, tr: seq<State<T>>, i: nat)
    requires wanted > 0 && Run(wanted, tr) && i < |tr|
    ensures Inv(tr[i]) <==> true
  {
    hide Inv, Step, Start;
    if i == 0 {
      StartIsGood(wanted, tr[0].input);
    } else {
      RunKeeps(wanted, tr, i - 1);
      StepKeeps(tr[i - 1], tr[i]);
    }
  }

  // ---------------------------------------------------------------------------------------------
  // What every run keeps
  // ---------------------------------------------------------------------------------------------

  // Nothing is lost, duplicated or reordered: at every instant the elements popped, then those in the queue, then those
  // still to push are the producer's input.
  lemma Fifo<T>(wanted: nat, tr: seq<State<T>>, i: nat)
    requires wanted > 0 && Run(wanted, tr) && i < |tr|
    ensures |tr[i].core.items| >= 1
    ensures tr[i].pushed == tr[i].popped + Contents(tr[i].core)
    ensures tr[i].input == tr[i].popped + Contents(tr[i].core) + tr[i].todo
    ensures tr[i].popped <= tr[i].pushed <= tr[i].input
  {
    hide Run, Contents, Ring, BlockOk;
    RunKeeps(wanted, tr, i);
  }

  // Neither of the two internal asserts ever fails, and no thread is ever stuck before it is done.
  lemma AssertsHold<T>(wanted: nat, tr: seq<State<T>>, i: nat)
    requires wanted > 0 && Run(wanted, tr) && i < |tr|
    ensures !tr[i].prod.PAssertFailed? && !tr[i].cons.CAssertFailed?
    ensures ProducerEnabled(tr[i]) <==> !tr[i].prod.PExit?
    ensures ConsumerEnabled(tr[i]) <==> !tr[i].cons.CExit?
  {
    hide Run, Contents, Ring, BlockOk, ProducerInRange, ConsumerInRange, At;
    RunKeeps(wanted, tr, i);
    var s := tr[i];
    ConsumerIsInRange(s.core, s.cons, s.sawEmpty, s.prod.PExit?);
    if InCall(s.prod) {
      InRange(s.core, s.prod, s.todo[0], s.mostHeld);
    } else {
      IdleInRange(s.core, s.prod);
    }
  }

  lemma IdleInRange<T>(c: Core<T>, p: Producer)
    requires Sized(c) && !InCall(p)
    ensures ProducerInRange(c, p)
  {
  }

  // The slot a thread is about to write or has just written, and the one the other is about to move out of.
  predicate Writing(p: Producer, block: nat, slot: nat) {
    p == PWrite(block, slot) || p == PPublish(block, slot) || p == PNextWrite(block, slot)
      || p == PNextPublish(block, slot)
  }

  predicate Taking<T(==)>(q: Consumer<T>, block: nat, slot: nat) {
    q == CTake(block, slot) || (q.CRelease? && q.block == block && q.front == slot)
  }

  // The threads never meet in a slot.
  lemma NoSlotIsShared<T>(wanted: nat, tr: seq<State<T>>, i: nat, block: nat, slot: nat)
    requires wanted > 0 && Run(wanted, tr) && i < |tr|
    ensures !(Writing(tr[i].prod, block, slot) && Taking(tr[i].cons, block, slot))
  {
    hide Run, Contents, Ring, At, BlockOk;
    RunKeeps(wanted, tr, i);
    var c := tr[i].core;
    if Writing(tr[i].prod, block, slot) && Taking(tr[i].cons, block, slot) {
      BlockBounds(c.blocks[block], c.items[block], c.size);
      HeadSlot(c.blocks[block], c.items[block], c.size);
    }
  }

  // When ProcessTrace leaves its loop it has popped what was pushed for the backup, all of it and in order, the queue
  // is empty and the flag is cleared: the next backup starts as the first one did.
  lemma ExitMeansAllPopped<T>(wanted: nat, tr: seq<State<T>>, i: nat)
    requires wanted > 0 && Run(wanted, tr) && i < |tr| && tr[i].cons.CExit?
    ensures tr[i].popped == tr[i].input && tr[i].todo == []
    ensures |tr[i].core.items| >= 1 && Contents(tr[i].core) == [] && !tr[i].done && tr[i].prod.PExit?
  {
    hide Run, Contents, Ring, BlockOk, At;
    RunKeeps(wanted, tr, i);
  }

  // ---------------------------------------------------------------------------------------------
  // Failed calls
  // ---------------------------------------------------------------------------------------------

  // From instant i to instant j the consumer is inside one call of try_dequeue.
  ghost predicate OneDequeue<T>(tr: seq<State<T>>, i: nat, j: nat)
    requires i <= j < |tr|
  {
    forall k :: i <= k <= j ==> !tr[k].cons.CStart? && !tr[k].cons.CTop?
  }

  ghost predicate OneEnqueue<T>(tr: seq<State<T>>, i: nat, j: nat)
    requires i <= j < |tr|
  {
    forall k :: i <= k <= j ==> !tr[k].prod.PStart? && !tr[k].prod.PExit?
  }

  predicate Dequeuing<T>(q: Consumer<T>) {
    !q.CTop? && !q.CSizeStart? && !q.CSizeFront? && !q.CSizeTail? && !q.CClear? && !q.CStart? && !q.CExit?
  }

  lemma RunStep<T>(wanted: nat, tr: seq<State<T>>, j: nat)
    requires Run(wanted, tr) && 0 < j < |tr|
    ensures Step(tr[j - 1], tr[j]) <==> true
  {
    hide Step, Created;
  }

  lemma RunStart<T>(wanted: nat, tr: seq<State<T>>)
    requires Run(wanted, tr)
    ensures tr[0].core == Created(wanted) && tr[0].prod == PStart && tr[0].cons == CTop
  {
    hide Step, Created;
  }

  lemma RunHasItems<T>(wanted: nat, tr: seq<State<T>>, j: nat)
    requires wanted > 0 && Run(wanted, tr) && j < |tr|
    ensures |tr[j].core.items| >= 1
  {
    hide Run, Ring, BlockOk, At, Contents;
    RunKeeps(wanted, tr, j);
  }

  lemma SeenBefore<T>(s: State<T>, s': State<T>)
    requires Step(s, s') && Dequeuing(s'.cons) && s'.sawEmpty && |s'.core.items| >= 1 && Contents(s'.core) != []
    ensures Dequeuing(s.cons) && s.sawEmpty
  {
    hide Contents, ProducerInRange, ConsumerInRange;
  }

  // A call that has seen the queue empty saw it at an instant of that very call.
  lemma {:induction false} SeenEmpty<T>(wanted: nat, tr: seq<State<T>>, j: nat) returns (i: nat)
    requires wanted > 0 && Run(wanted, tr) && j < |tr| && Dequeuing(tr[j].cons) && tr[j].sawEmpty
    ensures i <= j && OneDequeue(tr, i, j) && |tr[i].core.items| >= 1 && Contents(tr[i].core) == []
  {
    hide Contents, Run, Step;
    RunHasItems(wanted, tr, j);
    if Contents(tr[j].core) == [] {
      i := j;
    } else {
      RunStart(wanted, tr);
      RunStep(wanted, tr, j);
      SeenBefore(tr[j - 1], tr[j]);
      i := SeenEmpty(wanted, tr, j - 1);
    }
  }

  // try_dequeue fails only if the queue was empty at some instant of the call.
  lemma FailedDequeue<T>(wanted: nat, tr: seq<State<T>>, j: nat)
    requires wanted > 0 && Run(wanted, tr) && j < |tr| && tr[j].cons == CReturn(None)
    ensures exists i :: 0 <= i <= j && OneDequeue(tr, i, j) && |tr[i].core.items| >= 1 && Contents(tr[i].core) == []
  {
    hide Contents, Ring, BlockOk, At, Run;
    RunKeeps(wanted, tr, j);
    var i := SeenEmpty(wanted, tr, j);
  }

  predicate Enqueuing(p: Producer) {
    InCall(p) || p.PReturn?
  }

  lemma HeldBefore<T>(s: State<T>, s': State<T>)
    requires Step(s, s') && Enqueuing(s'.prod) && |s'.core.items| >= 1 && |Contents(s'.core)| != s'.mostHeld
    ensures Enqueuing(s.prod) && s.mostHeld == s'.mostHeld
  {
    hide Contents, ProducerInRange, ConsumerInRange, ProducerStep, ConsumerStep;
    if ProducerEnabled(s) {
      MostHeldBefore(s);
    }
    if ConsumerEnabled(s) {
      ConsumerLeavesProducer(s);
    }
  }

  lemma MostHeldBefore<T>(s: State<T>)
    requires ProducerEnabled(s)
    ensures var s' := ProducerStep(s);
            Enqueuing(s'.prod) ==> s'.mostHeld == 0 || (Enqueuing(s.prod) && s'.mostHeld == s.mostHeld)
  {
    hide ProducerInRange, ProducerCore;
  }

  lemma ConsumerLeavesProducer<T>(s: State<T>)
    requires ConsumerEnabled(s)
    ensures ConsumerStep(s).prod == s.prod && ConsumerStep(s).mostHeld == s.mostHeld
  {
    hide ConsumerInRange, ConsumerCore;
  }

  lemma {:induction false} SeenHeld<T>(wanted: nat, tr: seq<State<T>>, j: nat) returns (i: nat)
    requires wanted > 0 && Run(wanted, tr) && j < |tr| && Enqueuing(tr[j].prod)
    ensures i <= j && OneEnqueue(tr, i, j) && |tr[i].core.items| >= 1 && |Contents(tr[i].core)| == tr[j].mostHeld
  {
    hide Contents, Run, Step;
    RunHasItems(wanted, tr, j);
    if |Contents(tr[j].core)| == tr[j].mostHeld {
      i := j;
    } else {
      RunStart(wanted, tr);
      RunStep(wanted, tr, j);
      HeldBefore(tr[j - 1], tr[j]);
      i := SeenHeld(wanted, tr, j - 1);
    }
  }

  // try_enqueue refuses only if the queue, built for `wanted` elements, held at least as many at some instant of the
  // call.
  lemma RefusedEnqueue<T>(wanted: nat, tr: seq<State<T>>, j: nat)
    requires wanted > 0 && Run(wanted, tr) && j < |tr| && tr[j].prod == PReturn(false)
    ensures exists i ::
              0 <= i <= j && OneEnqueue(tr, i, j) && |tr[i].core.items| >= 1 && |Contents(tr[i].core)| >= wanted
  {
    hide Contents, Ring, BlockOk, At, Run, Created, Capacity;
    RunKeeps(wanted, tr, j);
    CapacityStays(wanted, tr, j);
    CreatedFits<T>(wanted);
    var i := SeenHeld(wanted, tr, j);
  }

  lemma {:induction false} CapacityStays<T>(wanted: nat, tr: seq<State<T>>, j: nat)
    requires Run(wanted, tr) && j < |tr|
    ensures Capacity(tr[j].core) == Capacity(Created<T>(wanted))
  {
    hide Created, Contents, Run, Step;
    if j == 0 {
      RunStart(wanted, tr);
    } else {
      CapacityStays(wanted, tr, j - 1);
      RunStep(wanted, tr, j);
      StepCapacity(tr[j - 1], tr[j]);
    }
  }

  lemma StepCapacity<T>(s: State<T>, s': State<T>)
    requires Step(s, s')
    ensures s'.core.size == s.core.size && |s'.core.blocks| == |s.core.blocks|
  {
    hide Contents, ProducerInRange, ConsumerInRange, ProducerCore, ConsumerCore, ProducerStep, ConsumerStep;
  }
}
