/** Producers, the closer and the consumer of one writer, interleaved. */
module WriterRuns {
  import opened Options
  import opened TelemetryWriter

  datatype Phase<+E> =
    | Idle
    | Got(first: E)                                // `get` returned an event
    | Busy(batch: seq<E>, stopping: bool)          // the batch is being handled
    | Stopped

  datatype Batch<+E> = Batch(events: seq<E>, succeeded: bool)

  /** `submitted`, `accepted`, `batches` and `due` are history; `due` is what had been accepted when
      the first sentinel was enqueued. */
  datatype State<+E> = State(
    maxsize: int,
    batchSize: nat,
    queue: seq<Item<E>>,
    dropped: nat,
    phase: Phase<E>,
    submitted: seq<E>,
    accepted: seq<E>,
    batches: seq<Batch<E>>,
    due: Option<seq<E>>)

  datatype Step<+E> =
    | Submit(event: E)
    | PutSentinel
    | Timeout
    | Get
    | Fill(k: nat, stop: bool)
    | Handle(succeeded: bool)

  predicate Consumes<E>(step: Step<E>) {
    step.Get? || step.Fill? || step.Handle?
  }

  predicate Enabled<E>(s: State<E>, step: Step<E>) {
    match step
    case Submit(_) => true
    case PutSentinel => HasRoom(s.queue, s.maxsize)
    case Timeout => s.phase.Idle?
    case Get => s.phase.Idle? && s.queue != []
    case Fill(k, stop) => s.phase.Got? && s.batchSize >= 1 && Fills(s.queue, s.batchSize - 1, k, stop)
    case Handle(_) => s.phase.Busy?
  }

  function Apply<E>(s: State<E>, step: Step<E>): State<E>
    requires Enabled(s, step)
  {
    match step
    case Submit(event) =>
      if HasRoom(s.queue, s.maxsize) then
        s.(queue := s.queue + [Event(event)], submitted := s.submitted + [event], accepted := s.accepted + [event])
      else
        s.(dropped := s.dropped + 1, submitted := s.submitted + [event])
    case PutSentinel =>
      s.(queue := s.queue + [Sentinel], due := if s.due.None? then Some(s.accepted) else s.due)
    case Timeout => s
    case Get =>
      s.(queue := s.queue[1..], phase := if s.queue[0].Event? then Got(s.queue[0].event) else Stopped)
    case Fill(k, stop) =>
      s.(queue := Left(s.queue, k, stop), phase := Busy([s.phase.first] + Events(s.queue[..k]), stop))
    case Handle(succeeded) =>
      s.(phase := if s.phase.stopping then Stopped else Idle, batches := s.batches + [Batch(s.phase.batch, succeeded)])
  }

  ghost predicate Init<E>(s: State<E>) {
    && s.queue == [] && s.dropped == 0 && s.phase.Idle? && s.batchSize >= 1
    && s.submitted == [] && s.accepted == [] && s.batches == [] && s.due == None
  }

  ghost predicate ValidRun<E>(s: State<E>, steps: seq<Step<E>>)
    decreases |steps|
  {
    steps == [] || (Enabled(s, steps[0]) && ValidRun(Apply(s, steps[0]), steps[1..]))
  }

  ghost function Run<E>(s: State<E>, steps: seq<Step<E>>): State<E>
    requires ValidRun(s, steps)
    decreases |steps|
  {
    if steps == [] then s else Run(Apply(s, steps[0]), steps[1..])
  }

  /** A new writer of any size starts a run: nothing queued, handled or dropped, and batches of at least one. */
  lemma NewWritersAreInitial<E>(maxsize: int, batchSize: int)
    ensures Init<E>(State(maxsize, if batchSize < 1 then 1 else batchSize, [], 0, Idle, [], [], [], None))
  {
  }

  // ----- where every event is --------------------------------------------

  /** The events of all finished batches, in the order they were handled, failed ones included. */
  function Handled<E>(batches: seq<Batch<E>>): seq<E> {
    if batches == [] then [] else Handled(batches[..|batches| - 1]) + batches[|batches| - 1].events
  }

  function InFlight<E>(phase: Phase<E>): seq<E> {
    match phase
    case Got(first) => [first]
    case Busy(batch, _) => batch
    case _ => []
  }

  function Count<E>(batches: seq<Batch<E>>, succeeded: bool): nat {
    if batches == [] then 0
    else
      var last := batches[|batches| - 1];
      Count(batches[..|batches| - 1], succeeded) + (if last.succeeded == succeeded then |last.events| else 0)
  }

  /** The queue up to its first sentinel. */
  function Head<E>(queue: seq<Item<E>>): seq<Item<E>> {
    if queue == [] || queue[0].Sentinel? then [] else [queue[0]] + Head(queue[1..])
  }

  predicate Closing<E>(queue: seq<Item<E>>) {
    exists i :: 0 <= i < |queue| && queue[i].Sentinel?
  }

  ghost predicate BatchesOk<E>(batches: seq<Batch<E>>, batchSize: nat) {
    forall i :: 0 <= i < |batches| ==> 1 <= |batches[i].events| <= batchSize
  }

  /** Everything accepted is handled, in hand or queued, in that order. */
  ghost predicate FlowOk<E>(s: State<E>) {
    s.accepted == Handled(s.batches) + InFlight(s.phase) + Events(s.queue)
  }

  predicate Ending<E>(phase: Phase<E>) {
    phase.Stopped? || (phase.Busy? && phase.stopping)
  }

  /** What was accepted before the first sentinel is what is handled, in hand or queued before it. */
  ghost predicate DueOk<E>(s: State<E>) {
    && (s.due.None? ==> !Closing(s.queue) && !Ending(s.phase))
    && (s.due.Some? && Ending(s.phase) ==> s.due.value == Handled(s.batches) + InFlight(s.phase))
    && (s.due.Some? && !Ending(s.phase) ==>
          Closing(s.queue) && s.due.value == Handled(s.batches) + InFlight(s.phase) + Events(Head(s.queue)))
  }

  ghost predicate SizesOk<E>(s: State<E>) {
    && s.batchSize >= 1
    && |s.submitted| == |s.accepted| + s.dropped
    && BatchesOk(s.batches, s.batchSize)
    && (s.phase.Busy? ==> 1 <= |s.phase.batch| <= s.batchSize)
  }

  ghost predicate Inv<E>(s: State<E>) {
    SizesOk(s) && FlowOk(s) && DueOk(s)
  }

  lemma {:induction false} HeadOf<E>(queue: seq<Item<E>>)
    ensures AllEvents(Head(queue))
    ensures Head(queue) <= queue
    ensures Closing(queue) <==> |Head(queue)| < |queue|
    ensures |Head(queue)| < |queue| ==> queue[|Head(queue)|].Sentinel?
  {
    if queue != [] && queue[0].Event? {
      HeadOf(queue[1..]);
      if Closing(queue) {
        var i :| 0 <= i < |queue| && queue[i].Sentinel?;
        assert queue[1..][i - 1].Sentinel?;
      }
      if Closing(queue[1..]) {
        var i :| 0 <= i < |queue[1..]| && queue[1..][i].Sentinel?;
        assert queue[i + 1].Sentinel?;
      }
    }
  }

  /** Events taken from the front leave the rest of the head in front. */
  lemma {:induction false} HeadAfter<E>(queue: seq<Item<E>>, k: nat)
    requires k <= |queue| && AllEvents(queue[..k])
    ensures Head(queue) == queue[..k] + Head(queue[k..])
    ensures Closing(queue[k..]) <==> Closing(queue)
  {
    if k > 0 {
      assert queue[0] == queue[..k][0];
      assert queue[1..][..k - 1] == queue[..k][1..];
      HeadAfter(queue[1..], k - 1);
      assert queue[1..][k - 1..] == queue[k..];
      assert queue[..k] == [queue[0]] + queue[1..][..k - 1];
      if Closing(queue) {
        var i :| 0 <= i < |queue| && queue[i].Sentinel?;
        assert queue[1..][i - 1].Sentinel?;
      }
      if Closing(queue[1..]) {
        var i :| 0 <= i < |queue[1..]| && queue[1..][i].Sentinel?;
        assert queue[i + 1].Sentinel?;
      }
    } else {
      assert queue[0..] == queue;
    }
  }

  /** Something appended behind a sentinel, or the first sentinel itself, leaves the head alone. */
  lemma {:induction false} HeadAppend<E>(queue: seq<Item<E>>, item: Item<E>)
    ensures Closing(queue) ==> Head(queue + [item]) == Head(queue) && Closing(queue + [item])
    ensures !Closing(queue) ==> Head(queue) == queue
    ensures !Closing(queue) && item.Sentinel? ==> Head(queue + [item]) == queue && Closing(queue + [item])
    ensures !Closing(queue) && item.Event? ==> !Closing(queue + [item])
  {
    if queue == [] {
      assert [item][0] == item && [] + [item] == [item];
    } else if queue[0].Event? {
      HeadAppend(queue[1..], item);
      assert (queue + [item])[1..] == queue[1..] + [item];
      assert queue == [queue[0]] + queue[1..];
      HeadAfter(queue, 1);
      HeadAfter(queue + [item], 1);
    } else {
      assert (queue + [item])[0].Sentinel?;
    }
  }

  // ----- the steps -------------------------------------------------------

  /** An item put behind the queue adds its event at the end of the flow. */
  lemma PutKeepsFlow<E>(done: seq<E>, inFlight: seq<E>, queue: seq<Item<E>>, item: Item<E>)
    ensures done + inFlight + Events(queue + [item]) ==
            done + inFlight + Events(queue) + (if item.Event? then [item.event] else [])
  {
    hide Events;
    EventsSnoc(queue, item);
    Append3(done, inFlight, Events(queue), if item.Event? then [item.event] else []);
  }

  lemma SubmitKeepsInv<E>(s: State<E>, event: E)
    requires Inv(s)
    ensures Inv(Apply(s, Submit(event)))
  {
    hide Handled, Events, Head, InFlight, Closing, BatchesOk;
    HeadAppend(s.queue, Event(event));
    PutKeepsFlow(Handled(s.batches), InFlight(s.phase), s.queue, Event(event));
  }

  lemma SentinelKeepsInv<E>(s: State<E>)
    requires Inv(s) && Enabled(s, PutSentinel)
    ensures Inv(Apply(s, PutSentinel))
  {
    hide Handled, Events, Head, InFlight, Closing, BatchesOk;
    HeadAppend<E>(s.queue, Sentinel);
    PutKeepsFlow(Handled(s.batches), InFlight(s.phase), s.queue, Sentinel);
    Append3(Handled(s.batches), InFlight(s.phase), Events(s.queue), []);
  }

  lemma Append3<E>(a: seq<E>, b: seq<E>, c: seq<E>, d: seq<E>)
    ensures a + b + (c + d) == a + b + c + d
    ensures c + [] == c
  {
  }

  /** Taking `k` events off the front splits the queue's events, and those of its head, in two. */
  lemma TakeEvents<E>(queue: seq<Item<E>>, k: nat)
    requires k <= |queue| && AllEvents(queue[..k])
    ensures Events(queue) == Events(queue[..k]) + Events(queue[k..])
    ensures Events(Head(queue)) == Events(queue[..k]) + Events(Head(queue[k..]))
    ensures Closing(queue[k..]) <==> Closing(queue)
    ensures |Events(queue[..k])| == k
  {
    HeadAfter(queue, k);
    EventsConcat(queue[..k], queue[k..]);
    assert queue == queue[..k] + queue[k..];
    EventsConcat(queue[..k], Head(queue[k..]));
    EventsCount(queue[..k]);
  }

  lemma SentinelFirst<E>(queue: seq<Item<E>>)
    requires queue != [] && queue[0].Sentinel?
    ensures Events(queue) == Events(queue[1..]) && Head(queue) == [] && Closing(queue)
  {
    assert queue == [queue[0]] + queue[1..];
    EventsConcat([queue[0]], queue[1..]);
    assert [queue[0]][..0] == [];
    assert Events([queue[0]]) == [];
  }

  lemma HandOver<E>(done: seq<E>, e: E, rest: seq<E>)
    ensures done + [] + ([e] + rest) == done + [e] + rest
  {
  }

  lemma GetKeepsInv<E>(s: State<E>)
    requires Inv(s) && Enabled(s, Get)
    ensures Inv(Apply(s, Get))
  {
    var rest := s.queue[1..];
    if s.queue[0].Event? {
      var e := s.queue[0].event;
      TakeEvents(s.queue, 1);
      assert s.queue[..1] == [s.queue[0]] && [s.queue[0]][..0] == [];
      assert Events(s.queue[..1]) == [e];
      HandOver(Handled(s.batches), e, Events(rest));
      HandOver(Handled(s.batches), e, Events(Head(rest)));
    } else {
      SentinelFirst(s.queue);
    }
  }

  lemma {:induction false} EventsCount<E>(items: seq<Item<E>>)
    requires AllEvents(items)
    ensures |Events(items)| == |items|
  {
    if items != [] {
      EventsCount(items[..|items| - 1]);
    }
  }

  lemma Regroup<E>(done: seq<E>, first: E, taken: seq<E>, rest: seq<E>)
    ensures done + [first] + (taken + rest) == done + ([first] + taken) + rest
  {
  }

  lemma FillKeepsFlow<E>(s: State<E>, k: nat, stop: bool)
    requires Inv(s) && Enabled(s, Fill(k, stop))
    ensures SizesOk(Apply(s, Fill(k, stop))) && FlowOk(Apply(s, Fill(k, stop)))
  {
    var rest := s.queue[k..];
    TakeEvents(s.queue, k);
    Regroup(Handled(s.batches), s.phase.first, Events(s.queue[..k]), Events(rest));
    if stop {
      SentinelFirst(rest);
      assert rest[1..] == s.queue[k + 1..];
    }
  }

  /** A batch is closed only when it is full, when nothing is queued, or at a sentinel. */
  lemma FillsUp<E>(s: State<E>, k: nat, stop: bool)
    requires Inv(s) && Enabled(s, Fill(k, stop))
    ensures var s' := Apply(s, Fill(k, stop));
            && s'.phase.Busy? && s'.phase.stopping == stop
            && (stop ==> k < |s.queue| && s.queue[k] == Sentinel && |s'.phase.batch| < s.batchSize)
            && (!stop ==> |s'.phase.batch| == s.batchSize || s'.queue == [])
            && |s'.phase.batch| == 1 + k
            && forall i :: 0 <= i < k ==> s.queue[i] == Event(s'.phase.batch[1 + i])
  {
    EventsOfAll(s.queue[..k]);
  }

  lemma {:induction false} EventsOfAll<E>(items: seq<Item<E>>)
    requires AllEvents(items)
    ensures |Events(items)| == |items|
    ensures forall i :: 0 <= i < |items| ==> items[i] == Event(Events(items)[i])
  {
    if items != [] {
      EventsOfAll(items[..|items| - 1]);
    }
  }

  lemma FillKeepsDue<E>(s: State<E>, k: nat, stop: bool)
    requires Inv(s) && Enabled(s, Fill(k, stop))
    ensures DueOk(Apply(s, Fill(k, stop)))
  {
    var done, taken := Handled(s.batches), Events(s.queue[..k]);
    var rest := s.queue[k..];
    TakeEvents(s.queue, k);
    Regroup(done, s.phase.first, taken, Events(Head(rest)));
    if stop {
      SentinelFirst(rest);
      assert done + ([s.phase.first] + taken) + [] == done + ([s.phase.first] + taken);
    }
  }

  lemma HandledSnoc<E>(batches: seq<Batch<E>>, batch: Batch<E>)
    ensures Handled(batches + [batch]) == Handled(batches) + batch.events
    ensures forall succeeded ::
              Count(batches + [batch], succeeded) ==
              Count(batches, succeeded) + (if batch.succeeded == succeeded then |batch.events| else 0)
  {
    assert (batches + [batch])[..|batches|] == batches;
  }

  lemma HandleKeepsInv<E>(s: State<E>, succeeded: bool)
    requires Inv(s) && Enabled(s, Handle(succeeded))
    ensures Inv(Apply(s, Handle(succeeded)))
  {
    hide Handled, Events, Head, Count, Closing;
    var batch := Batch(s.phase.batch, succeeded);
    HandledSnoc(s.batches, batch);
    assert Handled(s.batches + [batch]) + [] == Handled(s.batches) + batch.events;
    assert InFlight(s.phase) == batch.events && InFlight(Apply(s, Handle(succeeded)).phase) == [];
  }

  lemma StepKeepsInv<E>(s: State<E>, step: Step<E>)
    requires Inv(s) && Enabled(s, step)
    ensures Inv(Apply(s, step))
  {
    if step.Submit? {
      SubmitKeepsInv(s, step.event);
    } else if step.PutSentinel? {
      SentinelKeepsInv(s);
    } else if step.Get? {
      GetKeepsInv(s);
    } else if step.Fill? {
      FillKeepsFlow(s, step.k, step.stop);
      FillKeepsDue(s, step.k, step.stop);
    } else if step.Handle? {
      HandleKeepsInv(s, step.succeeded);
    }
  }

  lemma {:induction false} RunKeepsInv<E>(s: State<E>, steps: seq<Step<E>>)
    requires Inv(s) && ValidRun(s, steps)
    ensures Inv(Run(s, steps))
    decreases |steps|
  {
    if steps != [] {
      StepKeepsInv(s, steps[0]);
      RunKeepsInv(Apply(s, steps[0]), steps[1..]);
    }
  }

  lemma InitInv<E>(s: State<E>)
    requires Init(s)
    ensures Inv(s)
  {
  }

  // ----- the claims ------------------------------------------------------

  lemma {:induction false} CountsAddUp<E>(batches: seq<Batch<E>>)
    ensures Count(batches, true) + Count(batches, false) == |Handled(batches)|
  {
    if batches != [] {
      CountsAddUp(batches[..|batches| - 1]);
    }
  }

  /** No event is lost, duplicated or reordered: what was accepted is, in order, the batches, the batch
      in hand and the queue; and everything submitted is handled, in a failed batch, dropped, in hand
      or still queued. */
  lemma ConservationAndOrder<E>(start: State<E>, steps: seq<Step<E>>)
    requires Init(start) && ValidRun(start, steps)
    ensures var s := Run(start, steps);
            && s.accepted == Handled(s.batches) + InFlight(s.phase) + Events(s.queue)
            && |s.submitted| == Count(s.batches, true) + Count(s.batches, false) + s.dropped
                                + |InFlight(s.phase)| + |Events(s.queue)|
            && forall i :: 0 <= i < |s.batches| ==> 1 <= |s.batches[i].events| <= s.batchSize
  {
    InitInv(start);
    RunKeepsInv(start, steps);
    CountsAddUp(Run(start, steps).batches);
  }

  /** What the bound on the queue means: zero or less is no bound. */
  predicate WithinBound<E>(queue: seq<Item<E>>, maxsize: int) {
    maxsize > 0 ==> |queue| <= maxsize
  }

  lemma StepKeepsBound<E>(s: State<E>, step: Step<E>)
    requires Enabled(s, step) && WithinBound(s.queue, s.maxsize)
    ensures WithinBound(Apply(s, step).queue, s.maxsize) && Apply(s, step).maxsize == s.maxsize
  {
  }

  /** A submission meets a full queue. */
  function Overflow<E>(s: State<E>, step: Step<E>): nat {
    if step.Submit? && s.maxsize > 0 && |s.queue| == s.maxsize then 1 else 0
  }

  ghost function Overflows<E>(s: State<E>, steps: seq<Step<E>>): nat
    requires ValidRun(s, steps)
    decreases |steps|
  {
    if steps == [] then 0 else Overflow(s, steps[0]) + Overflows(Apply(s, steps[0]), steps[1..])
  }

  lemma DropsOfStep<E>(s: State<E>, step: Step<E>)
    requires Enabled(s, step) && WithinBound(s.queue, s.maxsize)
    ensures Apply(s, step).dropped == s.dropped + Overflow(s, step)
  {
  }

  lemma {:induction false} DropsAlongRun<E>(s: State<E>, steps: seq<Step<E>>)
    requires ValidRun(s, steps) && WithinBound(s.queue, s.maxsize)
    ensures WithinBound(Run(s, steps).queue, s.maxsize) && Run(s, steps).maxsize == s.maxsize
    ensures Run(s, steps).dropped == s.dropped + Overflows(s, steps)
    decreases |steps|
  {
    if steps != [] {
      StepKeepsBound(s, steps[0]);
      DropsOfStep(s, steps[0]);
      DropsAlongRun(Apply(s, steps[0]), steps[1..]);
    }
  }

  /** In every reachable state a bounded queue holds at most its size, and exactly the submissions that met a
      full queue were dropped. */
  lemma DropsAreOverflows<E>(start: State<E>, steps: seq<Step<E>>)
    requires Init(start) && ValidRun(start, steps)
    ensures start.maxsize > 0 ==> |Run(start, steps).queue| <= start.maxsize
    ensures start.maxsize <= 0 ==> Run(start, steps).dropped == 0
    ensures Run(start, steps).dropped == Overflows(start, steps)
  {
    DropsAlongRun(start, steps);
    if start.maxsize <= 0 {
      NoBoundNoOverflow(start, steps);
    }
  }

  lemma {:induction false} NoBoundNoOverflow<E>(s: State<E>, steps: seq<Step<E>>)
    requires ValidRun(s, steps) && s.maxsize <= 0
    ensures Overflows(s, steps) == 0
    decreases |steps|
  {
    if steps != [] {
      StepKeepsBound(s, steps[0]);
      NoBoundNoOverflow(Apply(s, steps[0]), steps[1..]);
    }
  }

  /** One submission at any point of any run: with room the event goes behind everything queued and is
      accepted; only a full queue drops it, and then the queue is as it was. */
  lemma SubmissionOutcome<E>(start: State<E>, steps: seq<Step<E>>, event: E)
    requires Init(start) && ValidRun(start, steps)
    ensures var s := Run(start, steps);
            var s' := Apply(s, Submit(event));
            && s'.submitted == s.submitted + [event]
            && if s.maxsize <= 0 || |s.queue| < s.maxsize then
                 && s'.queue == s.queue + [Event(event)]
                 && s'.accepted == s.accepted + [event] && s'.dropped == s.dropped
               else
                 && |s.queue| == s.maxsize && s'.queue == s.queue
                 && s'.accepted == s.accepted && s'.dropped == s.dropped + 1
  {
    DropsAlongRun(start, steps);
  }

  /** A consumer that has stopped handled exactly the events accepted before the first sentinel. */
  lemma StopsAfterTheDueEvents<E>(start: State<E>, steps: seq<Step<E>>)
    requires Init(start) && ValidRun(start, steps) && Run(start, steps).phase.Stopped?
    ensures var s := Run(start, steps);
            s.due.Some? && Handled(s.batches) == s.due.value && s.due.value <= s.accepted
  {
    InitInv(start);
    RunKeepsInv(start, steps);
    var s := Run(start, steps);
    assert Handled(s.batches) + [] == Handled(s.batches);
  }

  /** How far the consumer is from stopping, once a sentinel is in the queue. */
  function Distance<E>(s: State<E>): nat {
    var ahead := |Head(s.queue)| + 1;
    match s.phase
    case Stopped => 0
    case Busy(_, true) => 1
    case Idle => 3 * ahead
    case Busy(_, false) => 3 * ahead + 1
    case Got(_) => 3 * ahead + 2
  }

  lemma ConsumersApproach<E>(s: State<E>, step: Step<E>)
    requires Inv(s) && s.due.Some? && Enabled(s, step) && Consumes(step)
    ensures Distance(Apply(s, step)) < Distance(s)
  {
    hide Handled, Events, InFlight;
    if step.Get? {
      GetApproaches(s);
    } else if step.Fill? {
      FillApproaches(s, step.k, step.stop);
    }
  }

  lemma GetApproaches<E>(s: State<E>)
    requires Enabled(s, Get)
    ensures Distance(Apply(s, Get)) < Distance(s)
  {
    hide Events;
    HeadOf(s.queue);
    if s.queue[0].Event? {
      HeadAfter(s.queue, 1);
    }
  }

  lemma FillApproaches<E>(s: State<E>, k: nat, stop: bool)
    requires Enabled(s, Fill(k, stop))
    ensures Distance(Apply(s, Fill(k, stop))) < Distance(s)
  {
    hide Events, Head;
    HeadAfter(s.queue, k);
  }

  lemma ProducersDoNotDelay<E>(s: State<E>, step: Step<E>)
    requires Inv(s) && s.due.Some? && Enabled(s, step) && !Consumes(step)
    ensures Distance(Apply(s, step)) == Distance(s)
  {
    if !step.Timeout? {
      HeadAppend(s.queue, if step.Submit? then Event(step.event) else Sentinel);
    }
  }

  /** Shutdown terminates: after the sentinel is enqueued some consumer step is always possible until
      the consumer stops, every consumer step brings the stop closer, and no producer puts it off. */
  lemma ShutdownProgress<E>(s: State<E>, step: Step<E>)
    requires Inv(s) && s.due.Some? && Enabled(s, step)
    ensures Consumes(step) ==> Distance(Apply(s, step)) < Distance(s)
    ensures !Consumes(step) ==> Distance(Apply(s, step)) == Distance(s)
    ensures s.phase.Stopped? <==> Distance(s) == 0
    ensures !s.phase.Stopped? ==> exists next: Step<E> :: Consumes(next) && Enabled(s, next)
  {
    if Consumes(step) {
      ConsumersApproach(s, step);
    } else {
      ProducersDoNotDelay(s, step);
    }
    if !s.phase.Stopped? {
      ConsumerNeverStuck(s);
    }
  }

  lemma ConsumerNeverStuck<E>(s: State<E>)
    requires Inv(s) && s.due.Some? && !s.phase.Stopped?
    ensures exists step :: Consumes(step) && Enabled(s, step)
  {
    match s.phase
    case Idle => assert Consumes<E>(Get) && Enabled(s, Get);
    case Busy(_, _) => assert Consumes<E>(Handle(true)) && Enabled(s, Handle(true));
    case Got(_) =>
      HeadOf(s.queue);
      var h := |Head(s.queue)|;
      var limit := s.batchSize - 1;
      var k := if h <= limit then h else limit;
      var stop := h < limit;
      assert s.queue[..k] == Head(s.queue)[..k];
      assert Consumes<E>(Fill(k, stop)) && Enabled(s, Fill(k, stop));
  }

  lemma ClosingGoesOn<E>(s: State<E>, step: Step<E>)
    requires Enabled(s, step) && s.due.Some?
    ensures Apply(s, step).due == s.due
    ensures Consumes(step) ==> Apply(s, step).accepted == s.accepted
  {
  }

  /** From any state with a sentinel behind it, the consumer's own steps lead to its stop. */
  lemma {:induction false} StopIsReached<E>(s: State<E>) returns (steps: seq<Step<E>>)
    requires Inv(s) && s.due.Some?
    ensures ValidRun(s, steps) && (forall i :: 0 <= i < |steps| ==> Consumes(steps[i]))
    ensures Run(s, steps).phase.Stopped? && Inv(Run(s, steps)) && Run(s, steps).due == s.due
    decreases Distance(s)
  {
    steps := [];
    if !s.phase.Stopped? {
      hide Inv, Apply, Enabled, Distance, Consumes;
      ConsumerNeverStuck(s);
      var step :| Consumes(step) && Enabled(s, step);
      ConsumersApproach(s, step);
      StepKeepsInv(s, step);
      ClosingGoesOn(s, step);
      var rest := StopIsReached(Apply(s, step));
      steps := [step] + rest;
      assert steps[1..] == rest;
    }
  }

  /** Closing a writer of any size, at any point of any run where its queue has room: once the sentinel is put,
      the consumer's own steps stop it, and everything accepted until then has been handled, in order. */
  lemma ClosingHandlesEverything<E>(start: State<E>, steps: seq<Step<E>>) returns (more: seq<Step<E>>)
    requires Init(start) && ValidRun(start, steps)
    requires var s := Run(start, steps);
             s.due.None? && (s.maxsize <= 0 || |s.queue| < s.maxsize)
    ensures var s := Run(start, steps);
            && ValidRun(s, [PutSentinel] + more) && (forall i :: 0 <= i < |more| ==> Consumes(more[i]))
            && Run(s, [PutSentinel] + more).phase.Stopped?
            && Handled(Run(s, [PutSentinel] + more).batches) == s.accepted
  {
    InitInv(start);
    RunKeepsInv(start, steps);
    var s := Run(start, steps);
    SentinelKeepsInv(s);
    var closing := Apply(s, PutSentinel);
    more := StopIsReached(closing);
    var all := [PutSentinel] + more;
    assert all[1..] == more;
    var end := Run(closing, more);
    assert Handled(end.batches) + [] == Handled(end.batches);
  }
}
