/**
 * base/mpsc_queue.h as a step relation: any number of producers and one consumer, interleaved at every atomic access,
 * over a sequentially consistent memory.
 */
module MpscQueue {
  import opened Basics

  /** Where a producer stands in TryEnqueue(item). */
  datatype Producer<T> =
    | Outside
    | HasTail(item: T, tail: int)               // current_tail loaded
    | HasHead(item: T, tail: int, head: int)    // current_head loaded, the ring not full by it
    | Claimed(item: T, ticket: int, head: int)  // the CAS succeeded
    | Built(item: T, ticket: int, head: int)    // item constructed in the cell
  {
    predicate Pending() { Claimed? || Built? }
  }

  /** Where the consumer stands in Dequeue. */
  datatype Consumer = Resting | HasLoaded(at: int) | SawReady(at: int) | MovedOut(at: int) | ClearedReady(at: int) {
    predicate Past() { MovedOut? || ClearedReady? }
  }

  datatype State<T> = State(
    tail: int, head: int, ready: seq<bool>, storage: seq<Option<T>>,
    producers: seq<Producer<T>>, consumer: Consumer,
    // History: the items in ticket order, who still owes each ticket's publication, and the items handed out.
    enqueued: seq<T>, owner: seq<Option<nat>>, dequeued: seq<T>)

  datatype Step<T> =
    | LoadTail(p: nat, item: T)
    | LoadHead(p: nat)
    | CompareExchange(p: nat)
    | FailSpuriously(p: nat)
    | Construct(p: nat)
    | Publish(p: nat)
    | ConsumerLoad
    | ConsumerTest
    | ConsumerMove
    | ConsumerClear
    | ConsumerAdvance

  function Cell(ticket: int, capacity: int): (r: nat)
    requires capacity > 0
    ensures r < capacity
  {
    ticket % capacity
  }

  predicate Shaped<T>(s: State<T>) {
    |s.ready| == |s.storage| > 0
  }

  /** TryEnqueue gives up: at this moment the ring looks full to the producer. */
  predicate LooksFull<T>(s: State<T>, p: nat)
    requires p < |s.producers| && s.producers[p].HasTail?
  {
    s.producers[p].tail - s.head >= |s.ready|
  }

  predicate Enabled<T>(s: State<T>, step: Step<T>) {
    match step
    case LoadTail(p, _) => p < |s.producers| && s.producers[p].Outside?
    case LoadHead(p) => p < |s.producers| && s.producers[p].HasTail?
    case CompareExchange(p) => p < |s.producers| && s.producers[p].HasHead?
    case FailSpuriously(p) => p < |s.producers| && s.producers[p].HasHead?
    case Construct(p) => p < |s.producers| && s.producers[p].Claimed?
    case Publish(p) =>
      p < |s.producers| && s.producers[p].Built? && 0 <= s.producers[p].ticket < |s.owner|
    case ConsumerLoad => s.consumer.Resting?
    case ConsumerTest => s.consumer.HasLoaded?
    case ConsumerMove => s.consumer.SawReady? && Shaped(s) && s.storage[Cell(s.consumer.at, |s.ready|)].Some?
    case ConsumerClear => s.consumer.MovedOut?
    case ConsumerAdvance => s.consumer.ClearedReady?
  }

  function Apply<T>(s: State<T>, step: Step<T>): State<T>
    requires Shaped(s) && Enabled(s, step)
  {
    match step
    case LoadTail(p, item) => s.(producers := s.producers[p := HasTail(item, s.tail)])
    case LoadHead(p) =>
      var me := s.producers[p];
      s.(producers := s.producers[p := if LooksFull(s, p) then Outside else HasHead(me.item, me.tail, s.head)])
    case CompareExchange(p) =>
      var me := s.producers[p];
      if s.tail == me.tail then
        s.(tail := s.tail + 1, producers := s.producers[p := Claimed(me.item, me.tail, me.head)],
           enqueued := s.enqueued + [me.item], owner := s.owner + [Some(p)])
      else s.(producers := s.producers[p := HasTail(me.item, s.tail)])
    case FailSpuriously(p) => s.(producers := s.producers[p := HasTail(s.producers[p].item, s.tail)])
    case Construct(p) =>
      var me := s.producers[p];
      s.(storage := s.storage[Cell(me.ticket, |s.ready|) := Some(me.item)],
         producers := s.producers[p := Built(me.item, me.ticket, me.head)])
    case Publish(p) =>
      var me := s.producers[p];
      s.(ready := s.ready[Cell(me.ticket, |s.ready|) := true], producers := s.producers[p := Outside],
         owner := s.owner[me.ticket := None])
    case ConsumerLoad => s.(consumer := HasLoaded(s.head))
    case ConsumerTest =>
      s.(consumer := if s.ready[Cell(s.consumer.at, |s.ready|)] then SawReady(s.consumer.at) else Resting)
    case ConsumerMove =>
      var cell := Cell(s.consumer.at, |s.ready|);
      s.(storage := s.storage[cell := None], dequeued := s.dequeued + [s.storage[cell].value],
         consumer := MovedOut(s.consumer.at))
    case ConsumerClear =>
      s.(ready := s.ready[Cell(s.consumer.at, |s.ready|) := false], consumer := ClearedReady(s.consumer.at))
    case ConsumerAdvance => s.(head := s.consumer.at + 1, consumer := Resting)
  }

  ghost predicate Initial<T>(s: State<T>) {
    && Shaped(s)
    && s.tail == s.head == 0 && s.consumer.Resting?
    && s.enqueued == s.dequeued == [] && s.owner == []
    && (forall i :: 0 <= i < |s.ready| ==> !s.ready[i] && s.storage[i].None?)
    && (forall p :: 0 <= p < |s.producers| ==> s.producers[p].Outside?)
  }

  // ---- The invariant ----

  ghost predicate ProducerOk<T>(s: State<T>, p: nat)
    requires p < |s.producers|
  {
    match s.producers[p]
    case Outside => true
    case HasTail(_, t) => t <= s.tail
    case HasHead(_, t, h) => t <= s.tail && h <= s.head && t - h < |s.ready|
    case Claimed(item, t, h) => Owns(s, p, t, h, item)
    case Built(item, t, h) => Owns(s, p, t, h, item)
  }

  ghost predicate Owns<T>(s: State<T>, p: nat, t: int, h: int, item: T) {
    && 0 <= s.head <= t < s.tail == |s.enqueued| == |s.owner|
    && h <= s.head && t - h < |s.ready|
    && s.owner[t] == Some(p) && s.enqueued[t] == item
  }

  /** What the cell of a ticket in [head, head + Capacity) contains. */
  ghost predicate CellOk<T>(s: State<T>, t: int)
    requires Shaped(s) && |s.enqueued| == |s.owner| == s.tail && 0 <= s.head
  {
    var cell := Cell(t, |s.ready|);
    if t == s.head && s.consumer.Past() then
      s.storage[cell].None? && s.ready[cell] == s.consumer.MovedOut? && t < s.tail && s.owner[t].None?
    else if t < s.head || t >= s.tail then
      !s.ready[cell] && s.storage[cell].None?
    else if s.owner[t].None? then
      s.ready[cell] && s.storage[cell] == Some(s.enqueued[t])
    else
      var p := s.owner[t].value;
      && p < |s.producers| && s.producers[p].Pending() && s.producers[p].ticket == t
      && !s.ready[cell]
      && s.storage[cell] == if s.producers[p].Built? then Some(s.producers[p].item) else None
  }

  ghost predicate ConsumerOk<T>(s: State<T>) {
    && (!s.consumer.Resting? ==> s.consumer.at == s.head)
    && (s.consumer.SawReady? ==> 0 <= s.head < s.tail == |s.owner| && s.owner[s.head].None?)
    && 0 <= s.head <= |s.enqueued|
    && (s.consumer.Past() ==> s.head < |s.enqueued|)
    && s.dequeued == s.enqueued[..if s.consumer.Past() then s.head + 1 else s.head]
  }

  ghost predicate Inv<T>(s: State<T>) {
    && Shaped(s)
    && 0 <= s.head <= s.tail <= s.head + |s.ready|
    && |s.enqueued| == |s.owner| == s.tail
    && ConsumerOk(s)
    && (forall p :: 0 <= p < |s.producers| ==> ProducerOk(s, p))
    && (forall t :: s.head <= t < s.head + |s.ready| ==> CellOk(s, t))
  }

  /** Tickets less than Capacity apart never share a cell. */
  lemma CellsDiffer(t: int, u: int, capacity: int)
    requires capacity > 0 && t < u < t + capacity
    ensures Cell(t, capacity) != Cell(u, capacity)
  {
    var blocks := u / capacity - t / capacity;
    assert u - t == blocks * capacity + Cell(u, capacity) - Cell(t, capacity);
    WholeBlocks(blocks, capacity);
  }

  lemma CellsDifferFrom(h: int, t: int, capacity: int)
    requires capacity > 0 && h <= t < h + capacity
    ensures forall u :: h <= u < h + capacity && u != t ==> Cell(u, capacity) != Cell(t, capacity)
  {
    forall u | h <= u < h + capacity && u != t ensures Cell(u, capacity) != Cell(t, capacity) {
      if u < t {
        CellsDiffer(u, t, capacity);
      } else {
        CellsDiffer(t, u, capacity);
      }
    }
  }

  lemma InitialInv<T>(s: State<T>)
    requires Initial(s)
    ensures Inv(s)
  {
  }

  lemma CellPreserved<T>(s: State<T>, step: Step<T>, t: int)
    requires Inv(s) && Enabled(s, step)
    requires var next := Apply(s, step);
             && Shaped(next) && |next.enqueued| == |next.owner| == next.tail && 0 <= next.head
             && next.head <= t < next.head + |s.ready|
    ensures CellOk(Apply(s, step), t)
  {
    hide Cell;
    var n := |s.ready|;
    assert CellOk(s, s.head);
    if t == s.head + n {
      assert step == ConsumerAdvance;
      LastCell(s, Apply(s, step));
    } else {
      assert CellOk(s, t);
      match step {
        case Construct(p) =>
          assert ProducerOk(s, p);
          CellsDifferFrom(s.head, s.producers[p].ticket, n);
        case Publish(p) =>
          assert ProducerOk(s, p);
          CellsDifferFrom(s.head, s.producers[p].ticket, n);
        case ConsumerMove => CellsDifferFrom(s.head, s.head, n);
        case ConsumerClear => CellsDifferFrom(s.head, s.head, n);
        case _ =>
      }
    }
  }

  lemma ProducerPreserved<T>(s: State<T>, step: Step<T>, p: nat)
    requires Inv(s) && Enabled(s, step) && p < |Apply(s, step).producers|
    ensures ProducerOk(Apply(s, step), p)
  {
    hide Cell;
    assert ProducerOk(s, p);
    assert CellOk(s, s.head);
    match step
    case Publish(q) => assert ProducerOk(s, q);
    case _ =>
  }

  lemma Preserved<T>(s: State<T>, step: Step<T>)
    requires Inv(s) && Enabled(s, step)
    ensures Inv(Apply(s, step))
  {
    hide Cell, CellOk, ProducerOk;
    var next := Apply(s, step);
    CountersPreserved(s, step);
    forall t | next.head <= t < next.head + |next.ready| ensures CellOk(next, t) {
      CellPreserved(s, step, t);
    }
    forall p | 0 <= p < |next.producers| ensures ProducerOk(next, p) {
      ProducerPreserved(s, step, p);
    }
  }

  lemma CountersPreserved<T>(s: State<T>, step: Step<T>)
    requires Inv(s) && Enabled(s, step)
    ensures var next := Apply(s, step);
            && |next.ready| == |next.storage| == |s.ready|
            && 0 <= next.head <= next.tail <= next.head + |s.ready|
            && |next.enqueued| == |next.owner| == next.tail
            && ConsumerOk(next)
  {
    hide Cell;
    assert CellOk(s, s.head);
    match step
    case CompareExchange(p) => assert ProducerOk(s, p);
    case Publish(p) => assert ProducerOk(s, p);
    case _ =>
  }

  /** The cell the consumer gives back becomes the cell of the ticket one lap later. */
  lemma LastCell<T>(s: State<T>, next: State<T>)
    requires Inv(s) && s.consumer.ClearedReady? && next == Apply(s, ConsumerAdvance)
    ensures CellOk(next, s.head + |s.ready|)
  {
    assert CellOk(s, s.head);
    CellWraps(s.head, |s.ready|);
    hide Cell;
  }

  lemma CellWraps(t: int, capacity: int)
    requires capacity > 0
    ensures Cell(t + capacity, capacity) == Cell(t, capacity)
  {
    var q := t / capacity;
    assert t + capacity == (q + 1) * capacity + t % capacity;
    var q', r' := (t + capacity) / capacity, (t + capacity) % capacity;
    assert (q + 1 - q') * capacity == r' - t % capacity;
    WholeBlocks(q + 1 - q', capacity);
  }

  // ---- Whole runs ----

  /** s' is reached from s by the given steps, each enabled when taken. */
  ghost predicate Run<T>(s: State<T>, steps: seq<Step<T>>, s': State<T>)
    decreases |steps|
  {
    if steps == [] then s' == s
    else Shaped(s) && Enabled(s, steps[0]) && Run(Apply(s, steps[0]), steps[1..], s')
  }

  lemma {:induction false} RunKeepsInv<T>(s: State<T>, steps: seq<Step<T>>, s': State<T>)
    requires Inv(s) && Run(s, steps, s')
    ensures Inv(s')
    decreases |steps|
  {
    hide Inv, Apply, Enabled;
    if steps != [] {
      Preserved(s, steps[0]);
      RunKeepsInv(Apply(s, steps[0]), steps[1..], s');
    }
  }

  /**
   * On every run of any number of producers: what the consumer has got is a prefix of the items in ticket order,
   * the ring never overtakes itself, and no item is lost between the two.
   */
  lemma FirstInFirstOut<T>(init: State<T>, steps: seq<Step<T>>, s: State<T>)
    requires Initial(init) && Run(init, steps, s)
    ensures 0 <= s.head <= s.tail <= s.head + |s.ready|
    ensures |s.enqueued| == |s.owner| == s.tail && s.dequeued <= s.enqueued && Shaped(s)
    ensures s.head <= |s.dequeued| <= s.head + 1
    ensures forall t :: |s.dequeued| <= t < s.tail && s.owner[t].None? ==>
              s.ready[Cell(t, |s.ready|)] && s.storage[Cell(t, |s.ready|)] == Some(s.enqueued[t])
  {
    InitialInv(init);
    RunKeepsInv(init, steps, s);
    hide Cell;
    forall t | |s.dequeued| <= t < s.tail && s.owner[t].None?
      ensures s.ready[Cell(t, |s.ready|)] && s.storage[Cell(t, |s.ready|)] == Some(s.enqueued[t])
    {
      assert CellOk(s, t);
    }
  }

  /** An item is constructed only in an empty cell that nobody reads, and moved out only of a published one. */
  lemma CellsAreExclusive<T>(s: State<T>)
    requires Inv(s)
    ensures forall p :: 0 <= p < |s.producers| && s.producers[p].Pending() ==>
              && (s.producers[p].Claimed? ==> s.storage[Cell(s.producers[p].ticket, |s.ready|)].None?)
              && !s.ready[Cell(s.producers[p].ticket, |s.ready|)]
              && (!s.consumer.Resting? && !s.consumer.HasLoaded? ==>
                    Cell(s.producers[p].ticket, |s.ready|) != Cell(s.consumer.at, |s.ready|))
    ensures forall p, q :: 0 <= p < q < |s.producers| && s.producers[p].Pending() && s.producers[q].Pending() ==>
              Cell(s.producers[p].ticket, |s.ready|) != Cell(s.producers[q].ticket, |s.ready|)
    ensures s.consumer.SawReady? ==>
              s.storage[Cell(s.consumer.at, |s.ready|)] == Some(s.enqueued[s.head]) && Enabled(s, ConsumerMove)
  {
    hide Cell;
    CellsDifferFrom(s.head, s.head, |s.ready|);
    assert CellOk(s, s.head);
    forall p | 0 <= p < |s.producers| && s.producers[p].Pending()
      ensures s.head <= s.producers[p].ticket < s.tail && s.owner[s.producers[p].ticket] == Some(p)
      ensures CellOk(s, s.producers[p].ticket)
    {
      assert ProducerOk(s, p);
    }
    forall p, q | 0 <= p < q < |s.producers| && s.producers[p].Pending() && s.producers[q].Pending()
      ensures Cell(s.producers[p].ticket, |s.ready|) != Cell(s.producers[q].ticket, |s.ready|)
    {
      CellsDifferFrom(s.head, s.producers[p].ticket, |s.ready|);
    }
  }

  /**
   * TryEnqueue returns false only when Capacity tickets were outstanding at the moment it loaded head; where the tail it
   * had loaded is still the tail, exactly then. Otherwise it goes on to the compare-exchange with what it has loaded.
   */
  lemma FalseMeansFull<T>(s: State<T>, p: nat)
    requires Inv(s) && Enabled(s, LoadHead(p))
    ensures var next := Apply(s, LoadHead(p)).producers[p];
      && (next.Outside? ==> s.tail - s.head == |s.ready|)
      && (s.producers[p].tail == s.tail ==> (next.Outside? <==> s.tail - s.head == |s.ready|))
      && (!next.Outside? ==> next == HasHead(s.producers[p].item, s.producers[p].tail, s.head))
    ensures forall q :: 0 <= q < |s.producers| && q != p ==> Apply(s, LoadHead(p)).producers[q] == s.producers[q]
  {
    assert ProducerOk(s, p);
  }

  /** The compare-exchange claims the ticket it loaded, exactly if that is still the tail; otherwise it reloads the tail. */
  lemma CasClaims<T>(s: State<T>, p: nat)
    requires Inv(s) && Enabled(s, CompareExchange(p))
    ensures var me, next := s.producers[p], Apply(s, CompareExchange(p));
      if me.tail == s.tail then
        && next.producers[p] == Claimed(me.item, s.tail, me.head)
        && next.tail == s.tail + 1 && next.enqueued == s.enqueued + [me.item] && next.owner == s.owner + [Some(p)]
      else next == s.(producers := s.producers[p := HasTail(me.item, s.tail)])
    ensures Apply(s, FailSpuriously(p)) == s.(producers := s.producers[p := HasTail(s.producers[p].item, s.tail)])
  {
  }

  lemma StepAt<T>(s: State<T>, steps: seq<Step<T>>, k: nat, s': State<T>)
    requires k < |steps| && Shaped(s) && Enabled(s, steps[k]) && Run(Apply(s, steps[k]), steps[k + 1..], s')
    ensures Run(s, steps[k..], s')
  {
    assert steps[k..][1..] == steps[k + 1..];
  }

  /** TryEnqueue on its own, on a ring with room: the item gets the next ticket, and its cell holds it and is ready. */
  lemma EnqueueAlone<T>(s: State<T>, p: nat, item: T) returns (s': State<T>)
    requires Inv(s) && p < |s.producers| && s.producers[p].Outside? && s.tail - s.head < |s.ready|
    ensures Run(s, [LoadTail(p, item), LoadHead(p), CompareExchange(p), Construct(p), Publish(p)], s')
    ensures s'.enqueued == s.enqueued + [item] && s'.tail == s.tail + 1 && s'.head == s.head && s'.dequeued == s.dequeued
    ensures s'.producers == s.producers && s'.consumer == s.consumer && |s'.ready| == |s'.storage| == |s.ready|
    ensures |s'.owner| == s'.tail && s'.owner[s.tail].None?
    ensures s'.ready[Cell(s.tail, |s.ready|)] && s'.storage[Cell(s.tail, |s.ready|)] == Some(item)
  {
    hide Cell;
    var s1 := Apply(s, LoadTail(p, item));
    var s2 := Apply(s1, LoadHead(p));
    var s3 := Apply(s2, CompareExchange(p));
    var s4 := Apply(s3, Construct(p));
    s' := Apply(s4, Publish(p));
    assert s'.producers == s.producers;
    hide Apply;
    var steps := [LoadTail(p, item), LoadHead(p), CompareExchange(p), Construct(p), Publish(p)];
    assert steps[5..] == [] && steps[0..] == steps;
    StepAt(s4, steps, 4, s');
    StepAt(s3, steps, 3, s');
    StepAt(s2, steps, 2, s');
    StepAt(s1, steps, 1, s');
    StepAt(s, steps, 0, s');
  }

  /** On a full ring it gives up, and nothing has changed. */
  lemma EnqueueOnFull<T>(s: State<T>, p: nat, item: T)
    requires Inv(s) && p < |s.producers| && s.producers[p].Outside? && s.tail - s.head == |s.ready|
    ensures Run(s, [LoadTail(p, item), LoadHead(p)], s)
  {
    var s1 := Apply(s, LoadTail(p, item));
    assert Apply(s1, LoadHead(p)) == s;
    var steps := [LoadTail(p, item), LoadHead(p)];
    assert steps[2..] == [] && steps[0..] == steps;
    StepAt(s1, steps, 1, s);
    StepAt(s, steps, 0, s);
  }

  /** Dequeue on its own, with the head ticket published: it hands out that ticket's item, and the cell is free again. */
  lemma DequeueAlone<T>(s: State<T>) returns (s': State<T>)
    requires Inv(s) && s.consumer.Resting? && s.head < s.tail && s.owner[s.head].None?
    ensures Run(s, [ConsumerLoad, ConsumerTest, ConsumerMove, ConsumerClear, ConsumerAdvance], s')
    ensures s'.dequeued == s.dequeued + [s.enqueued[s.head]] && s'.head == s.head + 1 && s'.consumer.Resting?
    ensures s'.enqueued == s.enqueued && s'.tail == s.tail && s'.producers == s.producers
    ensures |s'.ready| == |s'.storage| == |s.ready|
    ensures !s'.ready[Cell(s.head, |s.ready|)] && s'.storage[Cell(s.head, |s.ready|)].None?
  {
    hide Cell;
    assert CellOk(s, s.head);
    var s1 := Apply(s, ConsumerLoad);
    var s2 := Apply(s1, ConsumerTest);
    var s3 := Apply(s2, ConsumerMove);
    var s4 := Apply(s3, ConsumerClear);
    s' := Apply(s4, ConsumerAdvance);
    hide Apply;
    var steps := [ConsumerLoad, ConsumerTest, ConsumerMove, ConsumerClear, ConsumerAdvance];
    assert steps[5..] == [] && steps[0..] == steps;
    StepAt(s4, steps, 4, s');
    StepAt(s3, steps, 3, s');
    StepAt(s2, steps, 2, s');
    StepAt(s1, steps, 1, s');
    StepAt(s, steps, 0, s');
  }

  /** With nothing there, or the head ticket not yet published, it changes nothing. */
  lemma DequeueNothing<T>(s: State<T>)
    requires Inv(s) && s.consumer.Resting? && (s.head == s.tail || s.owner[s.head].Some?)
    ensures Run(s, [ConsumerLoad, ConsumerTest], s)
  {
    hide Cell;
    assert CellOk(s, s.head);
    var s1 := Apply(s, ConsumerLoad);
    assert Apply(s1, ConsumerTest) == s;
    var steps := [ConsumerLoad, ConsumerTest];
    assert steps[2..] == [] && steps[0..] == steps;
    StepAt(s1, steps, 1, s);
    StepAt(s, steps, 0, s);
  }

  /** The occupancy a producer will report: its ticket's successor less the head it had loaded. */
  function Reported<T>(me: Producer<T>): int
    requires me.Pending()
  {
    me.ticket + 1 - me.head
  }

  /** A successful CAS: the reported occupancy is between the true one at that moment and Capacity. */
  lemma OccupancyBounds<T>(s: State<T>, p: nat)
    requires Inv(s) && Enabled(s, CompareExchange(p)) && Apply(s, CompareExchange(p)).producers[p].Claimed?
    ensures var s' := Apply(s, CompareExchange(p));
            0 < s'.tail - s'.head <= Reported(s'.producers[p]) <= |s.ready|
    ensures s.producers[p].head == s.head ==>
            Reported(Apply(s, CompareExchange(p)).producers[p]) == s.tail + 1 - s.head
  {
    assert ProducerOk(s, p);
  }

  /** ... and it is what the producer still holds when it publishes, whatever happened in between. */
  lemma {:induction false} ReportedStays<T>(s: State<T>, step: Step<T>, p: nat)
    requires Inv(s) && Enabled(s, step) && p < |s.producers| && s.producers[p].Pending()
    requires step != Publish(p)
    ensures var s' := Apply(s, step);
            p < |s'.producers| && s'.producers[p].Pending() && Reported(s'.producers[p]) == Reported(s.producers[p])
  {
  }

  /** Dequeue returns false exactly when the ring is empty or the head ticket is claimed but not yet published. */
  lemma FalseMeansNothingReady<T>(s: State<T>)
    requires Inv(s) && Enabled(s, ConsumerTest)
    ensures Apply(s, ConsumerTest).consumer.Resting? <==> s.head == s.tail || s.owner[s.head].Some?
  {
    assert CellOk(s, s.head);
  }

  /** When every producer is done and Dequeue finds nothing, every enqueued item has been dequeued, in order. */
  lemma Drained<T>(s: State<T>)
    requires Inv(s) && Enabled(s, ConsumerTest) && Apply(s, ConsumerTest).consumer.Resting?
    requires forall p :: 0 <= p < |s.producers| ==> s.producers[p].Outside?
    ensures s.dequeued == s.enqueued
  {
    FalseMeansNothingReady(s);
    assert CellOk(s, s.head);
    assert s.enqueued[..|s.enqueued|] == s.enqueued;
  }
}
