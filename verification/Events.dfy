/** The event hub (app/src/events.cpp). Every critical section is one atomic method; a run of the
    program is any interleaving of them. */
module Events {
  import opened Wrappers

  datatype Event = Event(seqNo: nat, body: nat)

  datatype OverflowPolicy = Summarize | Detach

  /** What became of an event that was accepted and has left the queue. */
  datatype Fate = Delivered | InFlight | Dropped

  function Count(fates: seq<Fate>, f: Fate): nat {
    if |fates| == 0 then 0 else Count(fates[..|fates| - 1], f) + if fates[|fates| - 1] == f then 1 else 0
  }

  /** The events with a given fate, in the order they were accepted. */
  function Chosen(evs: seq<Event>, fates: seq<Fate>, f: Fate): seq<Event>
    requires |fates| <= |evs|
    decreases |fates|
  {
    if |fates| == 0 then []
    else
      var n := |fates| - 1;
      Chosen(evs, fates[..n], f) + if fates[n] == f then [evs[n]] else []
  }

  lemma CountAppend(fates: seq<Fate>, x: Fate, f: Fate)
    ensures Count(fates + [x], f) == Count(fates, f) + if x == f then 1 else 0
  {
    assert (fates + [x])[..|fates|] == fates;
  }

  lemma {:induction false} CountUpdate(fates: seq<Fate>, k: nat, x: Fate, f: Fate)
    requires k < |fates|
    ensures Count(fates[k := x], f) == Count(fates, f) - (if fates[k] == f then 1 else 0) + if x == f then 1 else 0
  {
    var n := |fates| - 1;
    if k == n {
      assert fates[k := x][..n] == fates[..n];
    } else {
      assert fates[k := x][..n] == fates[..n][k := x];
      CountUpdate(fates[..n], k, x, f);
    }
  }

  lemma ChosenAppend(evs: seq<Event>, fates: seq<Fate>, x: Fate, f: Fate)
    requires |fates| < |evs|
    ensures Chosen(evs, fates + [x], f) == Chosen(evs, fates, f) + if x == f then [evs[|fates|]] else []
  {
    assert (fates + [x])[..|fates|] == fates;
  }

  lemma {:induction false} ChosenMore(evs: seq<Event>, e: Event, fates: seq<Fate>, f: Fate)
    requires |fates| <= |evs|
    ensures Chosen(evs + [e], fates, f) == Chosen(evs, fates, f)
    decreases |fates|
  {
    if |fates| > 0 { ChosenMore(evs, e, fates[..|fates| - 1], f); }
  }

  /** The one in flight is the newest to be delivered. */
  lemma {:induction false} ChosenLands(evs: seq<Event>, fates: seq<Fate>, k: nat)
    requires |fates| <= |evs| && k < |fates| && fates[k] == InFlight && forall i :: k < i < |fates| ==>
             fates[i] == Dropped
    ensures Chosen(evs, fates[k := Delivered], Delivered) == Chosen(evs, fates, Delivered) + [evs[k]]
    decreases |fates|
  {
    var n := |fates| - 1;
    if k == n {
      assert fates[k := Delivered][..n] == fates[..n];
    } else {
      assert fates[k := Delivered][..n] == fates[..n][k := Delivered];
      ChosenLands(evs, fates[..n], k);
    }
  }

  ghost predicate Increasing(evs: seq<Event>) {
    forall i, j :: 0 <= i < j < |evs| ==> evs[i].seqNo < evs[j].seqNo
  }

  lemma {:induction false} ChosenIncreases(evs: seq<Event>, fates: seq<Fate>, f: Fate)
    requires |fates| <= |evs| && Increasing(evs)
    ensures Increasing(Chosen(evs, fates, f))
    ensures forall e :: e in Chosen(evs, fates, f) ==> exists i :: 0 <= i < |fates| && evs[i] == e
    decreases |fates|
  {
    var n := |fates| - 1;
    if n >= 0 {
      var before := Chosen(evs, fates[..n], f);
      ChosenIncreases(evs, fates[..n], f);
      forall e | e in before ensures e.seqNo < evs[n].seqNo {
        var i :| 0 <= i < n && evs[i] == e;
      }
      forall e | e in Chosen(evs, fates, f) ensures exists i :: 0 <= i < |fates| && evs[i] == e {
        if e in before {
          var i :| 0 <= i < n && evs[i] == e;
          assert i < |fates|;
        } else {
          assert e == evs[n];
        }
      }
    }
  }

  // ---- one subscriber ----------------------------------------------------------------------------------------

  datatype Worker = Waiting | Calling(ev: Event) | Exited

  class Subscriber {
    const id: nat
    const cap: nat
    const policy: OverflowPolicy
    var q: seq<Event>
    var delivered: nat
    var summarized: nat
    var stopping: bool
    var detached: bool
    var worker: Worker
    /** Everything ever accepted, what became of the events that left the queue, what the callback got,
        and how many were thrown away when the subscriber was cut off. */
    ghost var accepted: seq<Event>
    ghost var fates: seq<Fate>
    ghost var got: seq<Event>
    ghost var flying: nat
    ghost var cleared: nat
    /** The last number fired before it subscribed. */
    ghost const born: nat

    ghost predicate Valid()
      reads this
    {
      && cap > 0 && |q| <= cap
      && |fates| + |q| + cleared == |accepted| && q == accepted[|fates|..|fates| + |q|]
      && delivered == Count(fates, Delivered) && summarized == Count(fates, Dropped)
      && got == Chosen(accepted, fates, Delivered)
      && (worker.Calling? ==>
            && flying < |fates| && fates[flying] == InFlight && accepted[flying] == worker.ev
            && forall i :: flying < i < |fates| ==> fates[i] == Dropped)
      && Count(fates, InFlight) == (if worker.Calling? then 1 else 0)
      && (worker.Exited? ==> (stopping || detached) && q == [])
      && (detached ==> q == [] && policy == Detach)
      && (!detached ==> cleared == 0)
    }

    constructor (id: nat, capacity: nat, policy: OverflowPolicy, ghost born: nat)
      ensures Valid() && this.id == id && this.policy == policy && cap == (if capacity == 0 then 1 else capacity)
      ensures this.born == born && accepted == [] && !stopping && !detached && worker.Waiting?
    {
      this.id, cap, this.policy := id, if capacity == 0 then 1 else capacity, policy;
      q, delivered, summarized, stopping, detached, worker := [], 0, 0, false, false, Waiting;
      accepted, fates, got, flying, cleared := [], [], [], 0, 0;
      this.born := born;
    }

    /** Up to number `n` everything came in order, and, if it is not stopping and does not cut itself off,
        nothing since it subscribed was missed. */
    ghost predicate InStep(n: nat)
      reads this
    {
      && Valid() && Increasing(accepted) && (forall e :: e in accepted ==> e.seqNo <= n) && born <= n
      && (policy == Summarize && !stopping ==>
            |accepted| == n - born && forall k :: 0 <= k < |accepted| ==> accepted[k].seqNo == born + 1 + k)
    }

    lemma CutOffOnly()
      requires Valid()
      ensures detached ==> policy == Detach
    {
    }

    lemma InStepIsValid(n: nat)
      requires InStep(n)
      ensures Valid()
    {
    }

    /** `offer` never waits: a full queue gives up its oldest event, and counts it, or the subscriber is
        cut off. */
    method Offer(ev: Event)
      requires Valid()
      modifies this
      ensures Valid() && worker == old(worker) && stopping == old(stopping) && got == old(got)
              && delivered == old(delivered)
      ensures q == if old(stopping || detached) then old(q)
                   else if old(|q|) < cap then old(q) + [ev] else if policy == Detach then [] else old(q[1..]) + [ev]
      ensures accepted == if old(stopping || detached) || (old(|q|) == cap && policy == Detach) then old(accepted)
              else old(accepted) + [ev]
      ensures detached == (old(detached) || (!old(stopping) && old(|q|) == cap && policy == Detach))
      ensures summarized == old(summarized) + if !old(stopping || detached) && old(|q|) == cap && policy == Summarize
              then 1 else 0
      ensures ev.seqNo > 0 && old(InStep(ev.seqNo - 1)) ==> InStep(ev.seqNo)
    {
      hide Count, Chosen;
      if stopping || detached { return; }
      if |q| >= cap {
        if policy == Detach {
          CutOff();
          return;
        }
        DropOldest();
      }
      Enqueue(ev);
    }

    method CutOff()
      requires Valid() && policy == Detach && !detached
      modifies this`q, this`detached, this`cleared
      ensures Valid() && detached && q == []
    {
      detached := true;
      cleared := |q|;
      q := [];
    }

    method DropOldest()
      requires Valid() && |q| > 0 && !detached
      modifies this`q, this`summarized, this`fates
      ensures Valid() && q == old(q[1..]) && summarized == old(summarized) + 1
    {
      hide Count, Chosen;
      CountAppend(fates, Dropped, Delivered);
      CountAppend(fates, Dropped, InFlight);
      CountAppend(fates, Dropped, Dropped);
      ChosenAppend(accepted, fates, Dropped, Delivered);
      fates := fates + [Dropped];
      q := q[1..];
      summarized := summarized + 1;
    }

    method Enqueue(ev: Event)
      requires Valid() && |q| < cap && !detached && !worker.Exited?
      modifies this`q, this`accepted
      ensures Valid() && accepted == old(accepted) + [ev] && q == old(q) + [ev]
    {
      hide Count, Chosen;
      ChosenMore(accepted, ev, fates, Delivered);
      accepted := accepted + [ev];
      q := q + [ev];
    }

    /** The worker wakes up: it takes the oldest event, or leaves when there is none. It only wakes when
        there is something to do. */
    method Wake() returns (ev: Option<Event>)
      requires Valid() && worker.Waiting? && (stopping || detached || q != [])
      modifies this
      ensures Valid() && accepted == old(accepted) && stopping == old(stopping) && detached == old(detached)
              && got == old(got)
      ensures summarized == old(summarized) && delivered == old(delivered)
      ensures ev.Some? <==> old(q) != []
      ensures if ev.Some? then worker == Calling(ev.value) && [ev.value] + q == old(q) else worker == Exited
    {
      hide Count, Chosen;
      if q == [] {
        worker := Exited;
        return None;
      }
      assert !detached;
      ev := Some(q[0]);
      CountAppend(fates, InFlight, Delivered);
      CountAppend(fates, InFlight, InFlight);
      CountAppend(fates, InFlight, Dropped);
      ChosenAppend(accepted, fates, InFlight, Delivered);
      flying := |fates|;
      fates := fates + [InFlight];
      q := q[1..];
      worker := Calling(ev.value);
    }

    /** The callback has returned. */
    method Landed()
      requires Valid() && worker.Calling?
      modifies this
      ensures Valid() && worker.Waiting? && accepted == old(accepted) && q == old(q) && stopping == old(stopping)
              && detached == old(detached)
      ensures delivered == old(delivered) + 1 && summarized == old(summarized) && got == old(got) + [old(worker.ev)]
    {
      hide Count, Chosen;
      CountUpdate(fates, flying, Delivered, Delivered);
      CountUpdate(fates, flying, Delivered, InFlight);
      CountUpdate(fates, flying, Delivered, Dropped);
      ChosenLands(accepted, fates, flying);
      got := got + [worker.ev];
      fates := fates[flying := Delivered];
      delivered := delivered + 1;
      worker := Waiting;
    }

    /** The first half of `stop`; the second half waits for the worker to leave. */
    method BeginStop()
      requires Valid()
      modifies this
      ensures Valid() && stopping && accepted == old(accepted) && q == old(q) && worker == old(worker)
              && detached == old(detached) && got == old(got)
      ensures delivered == old(delivered) && summarized == old(summarized)
    {
      stopping := true;
    }

    /** Nothing is lost without being counted. */
    lemma {:induction false} Accounting()
      requires Valid() && policy == Summarize
      ensures |accepted| == delivered + summarized + |q| + (if worker.Calling? then 1 else 0)
      ensures |q| <= cap
    {
      AllFates(fates);
    }

    /** By the time `stop` can join the worker, the queue is drained: everything accepted was delivered or
        counted as summarized. */
    lemma StopDrains()
      requires Valid() && worker.Exited? && policy == Summarize
      ensures q == [] && |accepted| == delivered + summarized && |got| == delivered
    {
      Accounting();
      ChosenCounts(accepted, fates, Delivered);
    }

    /** When fires are serialised the callback sees sequence numbers rise. */
    lemma DeliveredInOrder()
      requires Valid() && Increasing(accepted)
      ensures Increasing(got)
    {
      ChosenIncreases(accepted, fates, Delivered);
    }

    /** And when every fire was offered, the holes it sees are exactly the summarized events: sequence
        number `base + 1 + i` is missing for good iff event `i` was dropped, and those are `summarized`
        many. */
    lemma HolesAreSummarized(base: nat, i: nat)
      requires Valid() && policy == Summarize && i < |fates|
      requires forall k :: 0 <= k < |accepted| ==> accepted[k].seqNo == base + 1 + k
      ensures fates[i] == Dropped <==>
              (forall e :: e in got ==> e.seqNo != base + 1 + i)
              && !(worker.Calling? && worker.ev.seqNo == base + 1 + i)
      ensures Count(fates, Dropped) == summarized
    {
      if fates[i] == Delivered { ChosenIf(accepted, fates, Delivered, i); }
      if fates[i] == InFlight {
        Counted(fates, i);
        OnlyFlying(fates, i, flying);
      }
      if fates[i] == Dropped {
        forall e | e in got ensures e.seqNo != base + 1 + i { ChosenFrom(accepted, fates, Delivered, e); }
      }
    }
  }

  lemma {:induction false} AllFates(fates: seq<Fate>)
    ensures Count(fates, Delivered) + Count(fates, InFlight) + Count(fates, Dropped) == |fates|
  {
    if |fates| > 0 { AllFates(fates[..|fates| - 1]); }
  }

  lemma {:induction false} ChosenCounts(evs: seq<Event>, fates: seq<Fate>, f: Fate)
    requires |fates| <= |evs|
    ensures |Chosen(evs, fates, f)| == Count(fates, f)
    decreases |fates|
  {
    if |fates| > 0 { ChosenCounts(evs, fates[..|fates| - 1], f); }
  }

  lemma {:induction false} ChosenIf(evs: seq<Event>, fates: seq<Fate>, f: Fate, i: nat)
    requires |fates| <= |evs| && i < |fates| && fates[i] == f
    ensures evs[i] in Chosen(evs, fates, f)
    decreases |fates|
  {
    if i < |fates| - 1 { ChosenIf(evs, fates[..|fates| - 1], f, i); }
  }

  lemma {:induction false} ChosenFrom(evs: seq<Event>, fates: seq<Fate>, f: Fate, e: Event)
    requires |fates| <= |evs| && e in Chosen(evs, fates, f)
    ensures exists i :: 0 <= i < |fates| && fates[i] == f && evs[i] == e
    decreases |fates|
  {
    var n := |fates| - 1;
    if e in Chosen(evs, fates[..n], f) {
      ChosenFrom(evs, fates[..n], f, e);
      var i :| 0 <= i < n && fates[..n][i] == f && evs[i] == e;
      assert fates[i] == f;
    }
  }

  lemma {:induction false} Counted(fates: seq<Fate>, i: nat)
    requires i < |fates|
    ensures Count(fates, fates[i]) >= 1
  {
    if i < |fates| - 1 { Counted(fates[..|fates| - 1], i); }
  }

  lemma {:induction false} OnlyFlying(fates: seq<Fate>, i: nat, k: nat)
    requires i < |fates| && k < |fates| && fates[i] == InFlight && fates[k] == InFlight && Count(fates, InFlight) == 1
    ensures i == k
  {
    if i != k {
      CountUpdate(fates, i, Dropped, InFlight);
      CountUpdate(fates[i := Dropped], k, Dropped, InFlight);
    }
  }

  // ---- the hub -------------------------------------------------------------------------------------------------

  /** A `dispatch` on some thread's stack: what it copied under the lock and how far it has come. */
  datatype Flight = Flight(ev: Event, listeners: seq<nat>, subs: seq<Subscriber>, told: nat, offered: nat)

  /** One call of a listener. */
  datatype Call = Call(listener: nat, seqNo: nat)

  ghost predicate Distinct(s: seq<nat>) {
    forall i, j :: 0 <= i < j < |s| ==> s[i] != s[j]
  }

  ghost predicate NoTwice(s: seq<Subscriber>) {
    forall i, j :: 0 <= i < j < |s| ==> s[i] != s[j]
  }

  /** How often a listener was called with a sequence number. */
  function Times(calls: multiset<Call>, l: nat, seqNo: nat): nat { calls[Call(l, seqNo)] }

  /** Dispatch `n` has called exactly the first `told` of the listeners it copied, each once. */
  ghost predicate FlightOk(flights: seq<Flight>, calls: multiset<Call>, n: nat)
    requires n < |flights|
  {
    var f := flights[n];
    && f.ev.seqNo == n + 1 && Distinct(f.listeners) && f.told <= |f.listeners| && f.offered <= |f.subs|
    && NoTwice(f.subs)
    && forall l :: Times(calls, l, n + 1) == if l in f.listeners[..f.told] then 1 else 0
  }

  lemma Told(flights: seq<Flight>, calls: multiset<Call>, n: nat)
    requires n < |flights| && FlightOk(flights, calls, n) && flights[n].told < |flights[n].listeners|
    ensures var f := flights[n];
            FlightOk(flights[n := f.(told := f.told + 1)], calls + multiset{Call(f.listeners[f.told], n + 1)}, n)
  {
    var f := flights[n];
    var x, seqNo := f.listeners[f.told], n + 1;
    var more, told := calls + multiset{Call(x, seqNo)}, f.listeners[..f.told + 1];
    assert told == f.listeners[..f.told] + [x] && x !in f.listeners[..f.told];
    forall l ensures Times(more, l, seqNo) == if l in told then 1 else 0 {
      assert Times(calls, l, seqNo) == if l in f.listeners[..f.told] then 1 else 0;
    }
  }

  lemma NotTold(flights: seq<Flight>, calls: multiset<Call>, n: nat, k: nat)
    requires n < |flights| && k < |flights| && k != n && FlightOk(flights, calls, k)
             && flights[n].told < |flights[n].listeners|
    ensures var f := flights[n];
            FlightOk(flights[n := f.(told := f.told + 1)], calls + multiset{Call(f.listeners[f.told], n + 1)}, k)
  {
  }

  /** A list without its element `i`. */
  function RemoveAt<T>(s: seq<T>, i: nat): seq<T>
    requires i < |s|
  {
    s[..i] + s[i + 1..]
  }

  class EventHub {
    var listeners: seq<nat>
    var subs: seq<Subscriber>
    var nextId: nat
    var lastSeq: nat
    /** The dispatches begun so far; number `n` carries sequence number `n + 1`. */
    var flights: seq<Flight>
    /** The listener calls made so far, whichever thread made them. */
    ghost var calls: multiset<Call>

    ghost predicate Valid()
      reads this
    {
      && Distinct(listeners) && NoTwice(subs) && nextId > 0 && lastSeq == |flights|
      && (forall n :: 0 <= n < |flights| ==> FlightOk(flights, calls, n))
      && (forall c :: c in calls ==> 1 <= c.seqNo <= lastSeq)
      && (forall s :: s in subs ==> s.id < nextId)
    }

    constructor ()
      ensures Valid() && listeners == [] && subs == [] && lastSeq == 0
    {
      listeners, subs, nextId, lastSeq, flights, calls := [], [], 1, 0, [], multiset{};
    }

    method AddListener(l: nat)
      requires Valid()
      modifies this`listeners
      ensures Valid() && listeners == if l in old(listeners) then old(listeners) else old(listeners) + [l]
    {
      if l in listeners { return; }
      listeners := listeners + [l];
    }

    method RemoveListener(l: nat) returns (found: bool)
      requires Valid()
      modifies this`listeners
      ensures Valid() && found == (l in old(listeners)) && l !in listeners
      ensures !found ==> listeners == old(listeners)
      ensures found ==> exists i :: 0 <= i < |old(listeners)| && old(listeners)[i] == l &&
                                    listeners == RemoveAt(old(listeners), i)
    {
      var i := 0;
      while i < |listeners| && listeners[i] != l
        invariant 0 <= i <= |listeners| && l !in listeners[..i]
      {
        i := i + 1;
      }
      if i == |listeners| {
        assert listeners[..i] == listeners;
        return false;
      }
      listeners := RemoveAt(listeners, i);
      found := true;
    }

    method Subscribe(hasCallback: bool, capacity: nat, policy: OverflowPolicy) returns (id: nat)
      requires Valid()
      modifies this`subs, this`nextId
      ensures Valid() && (!hasCallback ==> id == 0 && subs == old(subs))
      ensures hasCallback ==> id == old(nextId) > 0 && |subs| == |old(subs)| + 1 && subs[..|old(subs)|] == old(subs)
      ensures hasCallback ==>
                var s := subs[|old(subs)|];
                && fresh(s) && s.id == id && s.policy == policy && s.cap == (if capacity == 0 then 1 else capacity)
                && s.InStep(lastSeq) && s.accepted == [] && s.born == lastSeq && !s.stopping
                && forall t :: t in old(subs) ==> t.id != id
    {
      if !hasCallback { return 0; }
      id := nextId;
      nextId := nextId + 1;
      var s := new Subscriber(id, capacity, policy, lastSeq);
      subs := subs + [s];
    }

    /** Takes the subscriber out of the list, then tells it to stop. */
    method Unsubscribe(id: nat) returns (found: Option<Subscriber>)
      requires Valid() && forall s :: s in subs ==> s.Valid()
      modifies this`subs, subs
      ensures forall s :: s in subs ==> s in old(subs) && unchanged(s)
      ensures Valid() && (found.None? <==> forall s :: s in old(subs) ==> s.id != id)
      ensures found.Some? ==>
              found.value in old(subs) && found.value.id == id && found.value.stopping && found.value.Valid()
      ensures forall s :: s in old(subs) ==> s.accepted == old(s.accepted) && s.q == old(s.q)
      ensures found.Some? ==>
              exists i :: 0 <= i < |old(subs)| && old(subs)[i] == found.value && subs == RemoveAt(old(subs), i)
      ensures found.None? ==> subs == old(subs)
    {
      var i := 0;
      while i < |subs| && subs[i].id != id
        invariant 0 <= i <= |subs| && forall j :: 0 <= j < i ==> subs[j].id != id
      {
        i := i + 1;
      }
      if i == |subs| { return None; }
      var doomed := subs[i];
      subs := RemoveAt(subs, i);
      doomed.BeginStop();
      found := Some(doomed);
    }

    /** The locked part of `dispatch`: the number is drawn and the lists are copied. */
    method Begin(body: nat) returns (n: nat)
      requires Valid()
      modifies this`lastSeq, this`flights
      ensures Valid() && n == |old(flights)| && lastSeq == old(lastSeq) + 1
      ensures flights == old(flights) + [Flight(Event(lastSeq, body), listeners, subs, 0, 0)]
    {
      n := |flights|;
      lastSeq := lastSeq + 1;
      flights := flights + [Flight(Event(lastSeq, body), listeners, subs, 0, 0)];
      forall k | 0 <= k < |flights| ensures FlightOk(flights, calls, k) {
        if k < n { assert FlightOk(old(flights), calls, k); }
      }
    }

    /** The next listener of a dispatch is called. No condition, no queue: this cannot drop anything. */
    method TellNext(n: nat)
      requires Valid() && n < |flights| && flights[n].told < |flights[n].listeners|
      modifies this`flights, this`calls
      ensures Valid() && flights == old(flights)[n := old(flights)[n].(told := old(flights)[n].told + 1)]
      ensures calls == old(calls) + multiset{Call(old(flights)[n].listeners[old(flights)[n].told], n + 1)}
    {
      var f := flights[n];
      assert FlightOk(flights, calls, n);
      calls := calls + multiset{Call(f.listeners[f.told], f.ev.seqNo)};
      flights := flights[n := f.(told := f.told + 1)];
      forall k | 0 <= k < |flights| ensures FlightOk(flights, calls, k) {
        assert FlightOk(old(flights), old(calls), k);
        if k == n { Told(old(flights), old(calls), n); } else { NotTold(old(flights), old(calls), n, k); }
      }
    }

    /** After the listeners, the next subscriber is offered the event. */
    method OfferNext(n: nat)
      requires Valid() && n < |flights| && flights[n].told == |flights[n].listeners|
               && flights[n].offered < |flights[n].subs|
      requires flights[n].subs[flights[n].offered].Valid()
      modifies this`flights, flights[n].subs[flights[n].offered]
      ensures Valid() && flights == old(flights)[n := old(flights)[n].(offered := old(flights)[n].offered + 1)]
      ensures var s := old(flights)[n].subs[old(flights)[n].offered];
              && s.Valid() && s.stopping == old(s.stopping)
                 && (s.accepted == old(s.accepted) || s.accepted == old(s.accepted) + [old(flights)[n].ev])
              && (s.policy == Summarize && !old(s.stopping) ==> s.accepted == old(s.accepted) + [old(flights)[n].ev])
              && (old(s.InStep(n)) ==> s.InStep(n + 1))
    {
      hide Subscriber.Valid, Subscriber.InStep;
      var f := flights[n];
      var s := f.subs[f.offered];
      assert FlightOk(flights, calls, n);
      s.CutOffOnly();
      s.Offer(f.ev);
      flights := flights[n := f.(offered := f.offered + 1)];
      forall k | 0 <= k < |flights| ensures FlightOk(flights, calls, k) { assert FlightOk(old(flights), calls, k); }
    }

    /** Whatever other threads did meanwhile: a finished dispatch has called every listener that was
        registered when it began exactly once, and nobody else. */
    lemma EveryListenerOnce(n: nat, l: nat)
      requires Valid() && n < |flights| && flights[n].told == |flights[n].listeners|
      ensures Times(calls, l, n + 1) == if l in flights[n].listeners then 1 else 0
    {
      var f := flights[n];
      assert FlightOk(flights, calls, n) && f.listeners[..f.told] == f.listeners;
    }

    /** The listener part of a `dispatch`. */
    method TellAll(n: nat)
      requires Valid() && n < |flights|
      modifies this`flights, this`calls
      ensures Valid() && |flights| == |old(flights)|
              && flights[n] == old(flights)[n].(told := |old(flights)[n].listeners|)
      ensures forall k :: 0 <= k < |flights| && k != n ==> flights[k] == old(flights)[k]
    {
      assert FlightOk(flights, calls, n);
      while flights[n].told < |flights[n].listeners|
        invariant Valid() && |flights| == |old(flights)| && flights[n] == old(flights)[n].(told := flights[n].told)
        invariant flights[n].told <= |flights[n].listeners|
        invariant forall k :: 0 <= k < |flights| && k != n ==> flights[k] == old(flights)[k]
        decreases |flights[n].listeners| - flights[n].told
      {
        assert FlightOk(flights, calls, n);
        TellNext(n);
        assert FlightOk(flights, calls, n);
      }
    }

    /** The subscriber part of a `dispatch` that no other fire overlaps. Workers may run in between: they
        do not touch what was accepted. */
    method OfferAll(n: nat)
      requires Valid() && n + 1 == |flights| && flights[n].told == |flights[n].listeners| && flights[n].offered == 0
      requires forall s :: s in flights[n].subs ==> s.InStep(n)
      modifies this`flights, flights[n].subs
      ensures Valid() && |flights| == |old(flights)| && lastSeq == n + 1
      ensures flights[n] == old(flights)[n].(offered := |old(flights)[n].subs|)
      ensures forall s :: s in old(flights)[n].subs ==> s.InStep(n + 1)
      ensures forall s :: s in old(flights)[n].subs && s.policy == Summarize && !old(s.stopping) ==>
                s.accepted == old(s.accepted) + [old(flights)[n].ev]
    {
      hide Subscriber.Valid, Subscriber.InStep;
      ghost var f := flights[n];
      assert FlightOk(flights, calls, n);
      var i := 0;
      while i < |flights[n].subs|
        invariant 0 <= i <= |f.subs| && Valid() && |flights| == |old(flights)| && flights[n] == f.(offered := i)
        invariant forall j :: 0 <= j < i ==> f.subs[j].InStep(n + 1)
        invariant forall j :: 0 <= j < i ==> f.subs[j].policy == Summarize && !old(f.subs[j].stopping) ==>
                                               f.subs[j].accepted == old(f.subs[j].accepted) + [f.ev]
        invariant forall j :: i <= j < |f.subs| ==> unchanged(f.subs[j])
        decreases |f.subs| - i
      {
        assert old(f.subs[i].InStep(n));
        f.subs[i].InStepIsValid(n);
        OfferNext(n);
        i := i + 1;
      }
    }

    /** Between serialised fires: every subscriber is in step with the last number. */
    ghost predicate Serial()
      reads this, subs
    {
      Valid() && forall s :: s in subs ==> s.InStep(lastSeq)
    }

    /** A fire that no other overlaps: every listener once, every subscriber the event. */
    method Fire(body: nat)
      requires Serial()
      modifies this`lastSeq, this`flights, this`calls, subs
      ensures Serial() && lastSeq == old(lastSeq) + 1 && subs == old(subs) && listeners == old(listeners)
      ensures forall l :: Times(calls, l, lastSeq) == if l in listeners then 1 else 0
      ensures forall s :: s in subs && s.policy == Summarize && !old(s.stopping) ==>
              s.accepted == old(s.accepted) + [Event(lastSeq, body)]
    {
      hide Subscriber.Valid, Subscriber.InStep;
      var n := Begin(body);
      TellAll(n);
      OfferAll(n);
      forall l ensures Times(calls, l, lastSeq) == if l in listeners then 1 else 0 {
        assert FlightOk(flights, calls, n);
        EveryListenerOnce(n, l);
      }
    }

    /** One step of the worker of subscriber `i`, if it has one to make. */
    method Work(i: nat)
      requires Serial() && i < |subs|
      modifies subs[i]
      ensures Serial()
    {
      hide FlightOk;
      var s := subs[i];
      ghost var n := lastSeq;
      assert s.InStep(n);
      if s.worker.Waiting? && (s.stopping || s.detached || s.q != []) {
        var ev := s.Wake();
      } else if s.worker.Calling? {
        s.Landed();
      }
      assert s.InStep(n);
    }
  }

  /** What can happen to a hub whose fires are serialised. */
  datatype Act =
    | Fired(body: nat)
    | Listen(listener: nat)
    | Ignore(listener: nat)
    | Join(capacity: nat, policy: OverflowPolicy)
    | Leave(id: nat)
    | Worked(i: nat)

  function Fires(acts: seq<Act>): nat {
    if |acts| == 0 then 0 else Fires(acts[..|acts| - 1]) + if acts[|acts| - 1].Fired? then 1 else 0
  }

  method RunAct(hub: EventHub, act: Act)
    requires hub.Serial()
    modifies hub, hub.subs
    ensures hub.lastSeq == old(hub.lastSeq) + if act.Fired? then 1 else 0
    ensures hub.Serial() && forall k :: 0 <= k < |hub.subs| ==> hub.subs[k] in old(hub.subs) || fresh(hub.subs[k])
  {
    hide Subscriber.Valid, FlightOk, Subscriber.InStep;
    match act {
      case Fired(body) =>
        hub.Fire(body);
      case Listen(l) =>
        hub.AddListener(l);
      case Ignore(l) =>
        var found := hub.RemoveListener(l);
      case Join(capacity, policy) =>
        var id := hub.Subscribe(true, capacity, policy);
      case Leave(id) =>
        InStepValid(hub);
        var found := hub.Unsubscribe(id);
      case Worked(i) =>
        if i < |hub.subs| { hub.Work(i); }
    }
  }

  lemma InStepValid(hub: EventHub)
    requires hub.Serial()
    ensures forall s :: s in hub.subs ==> s.Valid()
  {
  }

  /** Over any serialised run, with listeners and subscribers coming and going and workers stepping in
      between: what a subscriber got is in order, and whoever summarizes and is not stopping can account
      for every number fired since it subscribed. */
  method RunSerial(hub: EventHub, acts: seq<Act>)
    requires hub.Serial()
    modifies hub, hub.subs
    ensures hub.Serial() && hub.lastSeq == old(hub.lastSeq) + Fires(acts)
    ensures forall s :: s in hub.subs ==> Increasing(s.got)
    ensures forall s :: s in hub.subs && s.policy == Summarize && !s.stopping ==>
              hub.lastSeq - s.born == s.delivered + s.summarized + |s.q| + if s.worker.Calling? then 1 else 0
  {
    hide Subscriber.Valid, FlightOk, Subscriber.InStep;
    var i := 0;
    while i < |acts|
      invariant 0 <= i <= |acts| && hub.Serial() && hub.lastSeq == old(hub.lastSeq) + Fires(acts[..i])
      invariant forall k :: 0 <= k < |hub.subs| ==> hub.subs[k] in old(hub.subs) || fresh(hub.subs[k])
    {
      RunAct(hub, acts[i]);
      assert acts[..i + 1][..i] == acts[..i];
      i := i + 1;
    }
    assert acts[..i] == acts;
    forall s | s in hub.subs
      ensures Increasing(s.got)
      ensures s.policy == Summarize && !s.stopping ==>
                hub.lastSeq - s.born == s.delivered + s.summarized + |s.q| + if s.worker.Calling? then 1 else 0
    {
      InStepMeans(s, hub.lastSeq);
    }
  }

  lemma InStepMeans(s: Subscriber, n: nat)
    requires s.InStep(n)
    ensures Increasing(s.got)
    ensures s.policy == Summarize && !s.stopping ==>
              n - s.born == s.delivered + s.summarized + |s.q| + if s.worker.Calling? then 1 else 0
  {
    s.DeliveredInOrder();
    if s.policy == Summarize { s.Accounting(); }
  }

  /** In such a run the numbers a subscriber never gets are exactly those dropped from its queue. */
  lemma SerialHoles(s: Subscriber, n: nat, i: nat)
    requires s.InStep(n) && s.policy == Summarize && !s.stopping && i < |s.fates|
    ensures s.fates[i] == Dropped <==>
              && (forall e :: e in s.got ==> e.seqNo != s.born + 1 + i)
              && !(s.worker.Calling? && s.worker.ev.seqNo == s.born + 1 + i)
    ensures Count(s.fates, Dropped) == s.summarized
  {
    s.HolesAreSummarized(s.born, i);
  }
}
