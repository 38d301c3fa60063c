/**
The credit-limited interrupt queue of the Cpu class (cpu.cpp, Interrupt,
HandleInterruptQueue and InjectPendingInterrupt).
*/
module InterruptQueue {
  import opened Bytes

  /** kInterruptHandlerMaxCredits, kInterruptHandlerCost and kInterruptHandlerIncrement. */
  datatype Rates = Rates(max: byte, cost: byte, inc: byte)

  const DEBUG_RATES := Rates(25, 5, 1)
  const RELEASE_RATES := Rates(200, 2, 1)

  /** An interrupt can be afforded, and counting up credits does not leave uint8_t. */
  predicate Sound(r: Rates) {
    r.cost <= r.max && r.max as int + r.inc as int <= 255
  }

  /** `injected` and `windows` record the calls of InjectInterrupt and of RequestInterruptWindow. */
  datatype Queue = Queue(pending: seq<byte>, credits: byte, injected: seq<byte>, windows: nat)

  function Enqueue(q: Queue, vector: byte): Queue {
    q.(pending := q.pending + [vector])
  }

  function Earn(r: Rates, credits: byte): byte {
    if credits < r.max then (credits as int + r.inc as int) % 256 else credits
  }

  /** InjectPendingInterrupt. */
  function Inject(r: Rates, q: Queue): Queue {
    if q.credits < r.cost || q.pending == [] then q
    else q.(credits := q.credits - r.cost, pending := q.pending[1..], injected := q.injected + [q.pending[0]])
  }

  /** HandleInterruptQueue, which Run and Step call first; `can` is what CanInjectInterrupt answers. */
  function Handle(r: Rates, q: Queue, can: bool): Queue {
    var e := q.(credits := Earn(r, q.credits));
    if q.pending == [] then e
    else if can then Inject(r, e)
    else e.(windows := e.windows + 1)
  }

  datatype Event = Interrupt(vector: byte) | Run(can: bool)

  function Next(r: Rates, q: Queue, event: Event): Queue {
    match event
    case Interrupt(v) => Enqueue(q, v)
    case Run(can) => Handle(r, q, can)
  }

  function After(r: Rates, q: Queue, events: seq<Event>): Queue
    decreases |events|
  {
    if events == [] then q
    else
      After(r, Next(r, q, events[0]), events[1..])
  }

  function Runs(events: seq<Event>): nat {
    if events == [] then 0 else (if events[0].Run? then 1 else 0) + Runs(events[1..])
  }

  function Vectors(events: seq<Event>): seq<byte> {
    if events == [] then []
    else (if events[0].Interrupt? then [events[0].vector] else []) + Vectors(events[1..])
  }

  /** Credits are spent on injections and earned by runs, and never wrap. */
  lemma {:induction false} CreditsPayForInjections(r: Rates, q: Queue, events: seq<Event>)
    requires Sound(r) && q.credits as int <= r.max as int + r.inc as int
    ensures var t := After(r, q, events);
            && t.credits as int <= r.max as int + r.inc as int
            && |q.injected| <= |t.injected|
            && t.credits as int + r.cost as int * (|t.injected| - |q.injected|)
                 <= q.credits as int + r.inc as int * Runs(events)
    decreases |events|
  {
    if events != [] {
      var next := Next(r, q, events[0]);
      CreditsPayForOne(r, q, events[0]);
      CreditsPayForInjections(r, next, events[1..]);
      hide Next;
      var spent := |next.injected| - |q.injected|;
      var ran := if events[0].Run? then 1 else 0;
      Distribute(r.cost as int, |After(r, q, events).injected| - |next.injected|, spent);
      Distribute(r.inc as int, Runs(events[1..]), ran);
    }
  }

  lemma CreditsPayForOne(r: Rates, q: Queue, event: Event)
    requires Sound(r) && q.credits as int <= r.max as int + r.inc as int
    ensures var t := Next(r, q, event);
            var spent := |t.injected| - |q.injected|;
            && t.credits as int <= r.max as int + r.inc as int
            && 0 <= spent
            && t.credits as int + r.cost as int * spent
                 <= q.credits as int + r.inc as int * (if event.Run? then 1 else 0)
  {
    var spent := |Next(r, q, event).injected| - |q.injected|;
    assert spent == 0 || spent == 1;
  }

  lemma Distribute(a: int, b: int, c: int)
    ensures a * (b + c) == a * b + a * c
  {
  }

  /** From full credit, n runs inject at most (max + n * inc) / cost interrupts. */
  lemma InjectionsAreThrottled(r: Rates, q: Queue, events: seq<Event>)
    requires Sound(r) && q.credits == r.max && 0 < r.cost
    ensures |After(r, q, events).injected| - |q.injected|
         <= (r.max as int + r.inc as int * Runs(events)) / r.cost as int
  {
    CreditsPayForInjections(r, q, events);
    var k := |After(r, q, events).injected| - |q.injected|;
    hide *;
    DivideBound(k, r.max as int + r.inc as int * Runs(events), r.cost as int);
  }

  lemma DivideBound(k: nat, total: nat, cost: nat)
    requires 0 < cost && cost * k <= total
    ensures k <= total / cost
  {
    var d := total / cost;
    assert total == cost * d + total % cost;
    if k > d {
      assert cost * k >= cost * (d + 1) by { Distribute(cost, k - d - 1, d + 1); }
      Distribute(cost, d, 1);
    }
  }

  /** Interrupts are injected in the order in which they were enqueued, and none is lost. */
  lemma {:induction false} FirstInFirstOut(r: Rates, q: Queue, events: seq<Event>)
    ensures var t := After(r, q, events);
            && q.injected <= t.injected
            && t.injected + t.pending == q.injected + q.pending + Vectors(events)
    decreases |events|
  {
    if events != [] {
      var next := Next(r, q, events[0]);
      FirstInFirstOut(r, next, events[1..]);
      var v := if events[0].Interrupt? then [events[0].vector] else [];
      assert next.injected + next.pending == q.injected + q.pending + v;
      assert q.injected + q.pending + v + Vectors(events[1..]) == q.injected + q.pending + (v + Vectors(events[1..]));
    }
  }

  /** The events of a run that ask for an interrupt window: the processor is not ready, and something is pending. */
  function Asked(r: Rates, q: Queue, events: seq<Event>): nat
    decreases |events|
  {
    if events == [] then 0
    else
      (if events[0] == Run(false) && q.pending != [] then 1 else 0) + Asked(r, Next(r, q, events[0]), events[1..])
  }

  /** The processor is ready, something is pending, and the credit after earning covers the cost. */
  predicate Pays(r: Rates, q: Queue, event: Event) {
    && event == Run(true) && q.pending != []
    && q.credits as int + (if q.credits < r.max then r.inc as int else 0) >= r.cost as int
  }

  function Paid(r: Rates, q: Queue, events: seq<Event>): nat
    decreases |events|
  {
    if events == [] then 0 else (if Pays(r, q, events[0]) then 1 else 0) + Paid(r, Next(r, q, events[0]), events[1..])
  }

  /** Over a run, one interrupt is injected for each event that pays, and one window requested for each that asks. */
  lemma {:induction false} EveryRunIsUsed(r: Rates, q: Queue, events: seq<Event>)
    requires Sound(r) && q.credits as int <= r.max as int + r.inc as int
    ensures |After(r, q, events).injected| == |q.injected| + Paid(r, q, events)
    ensures After(r, q, events).windows == q.windows + Asked(r, q, events)
    decreases |events|
  {
    if events != [] {
      CreditsPayForOne(r, q, events[0]);
      EveryRunIsUsed(r, Next(r, q, events[0]), events[1..]);
    }
  }

  /** With nothing to inject, credit is earned by steps of one up to exactly the maximum. */
  lemma {:induction false} IdleRunsFill(r: Rates, q: Queue, events: seq<Event>)
    requires Sound(r) && r.inc == 1 && q.credits <= r.max && q.pending == []
    requires forall e :: e in events ==> e.Run?
    ensures var earned := q.credits as int + |events|;
      After(r, q, events).credits as int == if earned < r.max as int then earned else r.max as int
    decreases |events|
  {
    if events != [] {
      assert events[0] in events && forall e :: e in events[1..] ==> e in events;
      IdleRunsFill(r, Next(r, q, events[0]), events[1..]);
    }
  }

  predicate AlwaysInjectable(events: seq<Event>) {
    forall e :: e in events && e.Run? ==> e.can
  }

  /** n runs earn enough for one injection. */
  predicate Affords(r: Rates, credits: int, n: nat) {
    0 < n && credits + n * r.inc as int >= r.cost as int
  }

  /** A run that cannot pay yet earns towards the next injection. */
  lemma EarningRun(r: Rates, q: Queue, first: nat)
    requires Sound(r) && q.credits as int <= r.max as int + r.inc as int && q.pending != []
    requires Affords(r, q.credits as int, first) && Earn(r, q.credits) < r.cost
    ensures var next := Handle(r, q, true);
      && next == q.(credits := Earn(r, q.credits)) && next.credits as int <= r.max as int + r.inc as int
      && first > 1 && Affords(r, next.credits as int, first - 1)
  {
    Distribute(r.inc as int, first - 1, 1);
  }

  /** A run that can pay injects the oldest interrupt. */
  lemma PayingRun(r: Rates, q: Queue, per: nat)
    requires Sound(r) && q.credits as int <= r.max as int + r.inc as int && q.pending != []
    requires Affords(r, 0, per) && Earn(r, q.credits) >= r.cost
    ensures var next := Handle(r, q, true);
      && next.injected == q.injected + [q.pending[0]] && next.pending == q.pending[1..]
      && next.credits as int <= r.max as int + r.inc as int && Affords(r, next.credits as int, per)
  {
  }

  /**
  With `ahead` interrupts before it, an interrupt is injected after the runs that
  pay for the next injection and `per` runs for each interrupt ahead.
  */
  lemma {:induction false} InjectedInTime(r: Rates, q: Queue, events: seq<Event>, ahead: nat, first: nat, per: nat)
    requires Sound(r) && q.credits as int <= r.max as int + r.inc as int
    requires AlwaysInjectable(events) && ahead < |q.pending|
    requires Affords(r, q.credits as int, first) && Affords(r, 0, per)
    requires first + ahead * per <= Runs(events)
    ensures |q.injected| + ahead < |After(r, q, events).injected|
    decreases |events|
  {
    hide Affords, Sound, Earn, Handle;
    assert first > 0 by { AffordsTakesRuns(r, q.credits as int, first); }
    if events != [] {
      var rest := events[1..];
      assert events[0] in events && forall e :: e in rest ==> e in events;
      if events[0].Interrupt? {
        InjectedInTime(r, Enqueue(q, events[0].vector), rest, ahead, first, per);
      } else {
        var next := Handle(r, q, true);
        if Earn(r, q.credits) < r.cost {
          EarningRun(r, q, first);
          InjectedInTime(r, next, rest, ahead, first - 1, per);
        } else {
          PayingRun(r, q, per);
          if ahead == 0 {
            FirstInFirstOut(r, next, rest);
          } else {
            Distribute(per, ahead - 1, 1);
            InjectedInTime(r, next, rest, ahead - 1, per, per);
          }
        }
      }
    }
  }

  lemma AffordsTakesRuns(r: Rates, credits: int, n: nat)
    requires Affords(r, credits, n)
    ensures n > 0
  {
  }

  /** ceil(cost / inc), at least one run. */
  function RunsPerInjection(r: Rates): nat
    requires 0 < r.inc
  {
    if r.cost == 0 then 1 else (r.cost as int + r.inc as int - 1) / r.inc as int
  }

  /**
  While the processor keeps accepting interrupts, one with k ahead of it in the
  queue is injected within (k + 1) * ceil(cost / inc) runs.
  */
  lemma NoStarvation(r: Rates, q: Queue, events: seq<Event>, k: nat)
    requires Sound(r) && 0 < r.inc && q.credits as int <= r.max as int + r.inc as int
    requires AlwaysInjectable(events) && k < |q.pending|
    requires (k + 1) * RunsPerInjection(r) <= Runs(events)
    ensures var t := After(r, q, events);
            |q.injected| + k < |t.injected| && t.injected[|q.injected| + k] == q.pending[k]
  {
    var per := RunsPerInjection(r);
    CeilingAffords(r);
    Distribute(per, k, 1);
    InjectedInTime(r, q, events, k, per, per);
    FirstInFirstOut(r, q, events);
    var t := After(r, q, events);
    assert (t.injected + t.pending)[|q.injected| + k] == (q.injected + q.pending + Vectors(events))[|q.injected| + k];
  }

  lemma CeilingAffords(r: Rates)
    requires 0 < r.inc
    ensures Affords(r, 0, RunsPerInjection(r))
  {
    var inc := r.inc as int;
    var n := RunsPerInjection(r);
    if r.cost > 0 {
      var top := r.cost as int + inc - 1;
      assert top == n * inc + top % inc;
      assert n == 0 ==> n * inc == 0;
    }
  }

  /**
  Both shipped sets of rates meet the conditions above, so at full credit n runs
  inject at most (25 + n) / 5 or (200 + n) / 2 interrupts, and an interrupt with k
  ahead of it waits at most 5 * (k + 1) or 2 * (k + 1) runs.
  */
  lemma ShippedRates(q: Queue, events: seq<Event>)
    ensures Sound(DEBUG_RATES) && Sound(RELEASE_RATES)
    ensures RunsPerInjection(DEBUG_RATES) == 5 && RunsPerInjection(RELEASE_RATES) == 2
    ensures q.credits == 25 ==> |After(DEBUG_RATES, q, events).injected| - |q.injected| <= (25 + Runs(events)) / 5
    ensures q.credits == 200 ==> |After(RELEASE_RATES, q, events).injected| - |q.injected| <= (200 + Runs(events)) / 2
  {
    if q.credits == DEBUG_RATES.max {
      InjectionsAreThrottled(DEBUG_RATES, q, events);
    }
    if q.credits == RELEASE_RATES.max {
      InjectionsAreThrottled(RELEASE_RATES, q, events);
    }
  }
}
