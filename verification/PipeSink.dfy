/** The non-blocking pipe (sigan/src/pipe_sink.cpp) over a kernel that may take any prefix of what it
    is offered, take nothing, or report a broken connection. */
module PipeSink {
  import opened Bytes
  import opened Frame

  datatype Status = Ok | WouldBlock | Disconnected

  /** One connection as the two ends see it: the writes the sink took responsibility for, the last
      write it had to give up (empty if none), and the bytes that reached the peer. */
  datatype Link = Link(writes: seq<seq<u8>>, torn: seq<u8>, wire: seq<u8>) {
    /** The peer has a prefix of the accepted writes, or all of them and a proper part of the torn one. */
    ghost predicate Consistent() {
      || wire <= Flatten(writes)
      || (|Flatten(writes)| <= |wire| < |Flatten(writes)| + |torn|
         && wire == Flatten(writes) + torn[..|wire| - |Flatten(writes)|])
    }
  }

  /** What the kernel does with one write: take it all, take at most so many bytes, or report that the
      connection is gone. */
  datatype Take = All | Part(n: nat) | Gone

  /** What becomes of the exchange of greetings. */
  datatype Hand = Broken | Lost | Shaken

  /** Everything the outside decides, by the number of calls answered before. Any behaviour is one of
      these. */
  datatype Kernel = Kernel(accepts: nat -> bool, hands: nat -> Hand, takes: nat -> Take) {
    function Taken(t: nat, offered: nat): (n: int)
      ensures -1 <= n <= offered
    {
      match takes(t)
      case All => offered
      case Part(n) => if n < offered then n else offered
      case Gone => -1
    }

    /** From call `t` on nothing goes wrong. */
    ghost predicate Calm(t: nat) {
      forall u :: t <= u ==> accepts(u) && hands(u) == Shaken && takes(u) == All
    }

    lemma CalmAt(t: nat)
      requires Calm(t)
      ensures accepts(t) && hands(t) == Shaken && takes(t) == All
    {
    }

    lemma StaysCalm(t: nat, u: nat)
      requires t <= u
      ensures Calm(t) ==> Calm(u)
    {
    }
  }

  lemma {:induction false} FlattenAppend(parts: seq<seq<u8>>, p: seq<u8>)
    ensures Flatten(parts + [p]) == Flatten(parts) + p
  {
    if |parts| == 0 {
      assert parts + [p] == [p];
      assert Flatten([p]) == p + Flatten([]);
    } else {
      assert (parts + [p])[1..] == parts[1..] + [p];
      FlattenAppend(parts[1..], p);
    }
  }

  class Sink {
    const residualLimit: nat
    const kernel: Kernel
    /** How many calls the kernel has answered. */
    var tick: nat
    var open: bool
    var residual: seq<u8>
    var residualHead: nat
    /** Bytes the kernel took on the current connection. */
    ghost var wire: seq<u8>
    /** Writes answered with Ok on the current connection. */
    ghost var writes: seq<seq<u8>>
    /** Earlier connections. */
    ghost var past: seq<Link>
    /** How often the kernel took less than it was offered. */
    ghost var refusals: nat

    ghost predicate Valid()
      reads this
    {
      && residualHead <= |residual|
      && (open ==> Flatten(writes) == wire + residual[residualHead..])
      && (!open ==> residual == [] && writes == [] && wire == [])
      && (forall i :: 0 <= i < |past| ==> past[i].Consistent())
    }

    constructor (limit: nat, kernel: Kernel)
      ensures Valid() && !open && past == [] && residualLimit == limit && this.kernel == kernel && tick == 0
    {
      residualLimit, this.kernel, tick, open, residual, residualHead := limit, kernel, 0, false, [], 0;
      wire, writes, past, refusals := [], [], [], 0;
    }

    lemma NothingOpen()
      requires Valid() && !open
      ensures writes == [] && wire == [] && residual == [] && residualHead == 0
    {
    }

    /** Closing forgets the residual; what is on the wire stays with the peer. */
    method CloseTorn(ghost torn: seq<u8>)
      requires open ==> Link(writes, torn, wire).Consistent()
      requires forall i :: 0 <= i < |past| ==> past[i].Consistent()
      requires !open ==> writes == [] && wire == []
      modifies this
      ensures Valid() && !open && refusals == old(refusals) && tick == old(tick)
      ensures past == if old(open) then old(past) + [Link(old(writes), torn, old(wire))] else old(past)
    {
      if open { past := past + [Link(writes, torn, wire)]; }
      open := false;
      residual, residualHead := [], 0;
      writes, wire := [], [];
    }

    method Close()
      requires Valid()
      modifies this
      ensures Valid() && !open && refusals == old(refusals) && tick == old(tick)
      ensures past == if old(open) then old(past) + [Link(old(writes), [], old(wire))] else old(past)
    {
      CloseTorn([]);
    }

    /** Connecting may fail; it starts from a closed sink either way. */
    method Connect() returns (ok: bool)
      requires Valid()
      modifies this
      ensures Valid() && open == ok && refusals == old(refusals) && writes == [] && wire == [] && residual == []
      ensures ok == kernel.accepts(old(tick)) && tick == old(tick) + 1
      ensures past == if old(open) then old(past) + [Link(old(writes), [], old(wire))] else old(past)
    {
      Close();
      ok := kernel.accepts(tick);
      tick := tick + 1;
      open := ok;
    }

    /** `rawWrite`: the kernel decides. A negative result means the connection is gone. */
    method RawWrite(data: seq<u8>) returns (n: int)
      requires open && |data| > 0
      modifies this`wire, this`refusals, this`tick
      ensures -1 <= n <= |data| && n == kernel.Taken(old(tick), |data|) && tick == old(tick) + 1
      ensures kernel.takes(old(tick)) == Gone ==> n == -1
      ensures kernel.takes(old(tick)) == Part(0) ==> n == 0
      ensures kernel.Calm(old(tick)) ==> n == |data|
      ensures wire == old(wire) + if n > 0 then data[..n] else []
      ensures refusals == old(refusals) + if n == |data| then 0 else 1
    {
      if kernel.Calm(tick) { kernel.CalmAt(tick); }
      n := kernel.Taken(tick, |data|);
      tick := tick + 1;
      if n > 0 { wire := wire + data[..n]; }
      if n < |data| { refusals := refusals + 1; }
    }

    /** One kernel write of what is left behind. */
    method PushSome() returns (n: int)
      requires Valid() && open && residualHead < |residual|
      modifies this
      ensures -1 <= n && Valid() && tick == old(tick) + 1 && open == (n >= 0)
      ensures kernel.takes(old(tick)) == Gone ==> n == -1
      ensures kernel.Calm(old(tick)) ==> n > 0 && refusals == old(refusals)
      ensures refusals == old(refusals) + if n == old(|residual| - residualHead) then 0 else 1
      ensures n >= 0 ==> writes == old(writes) && past == old(past) && residual == old(residual)
      ensures n >= 0 ==> residualHead == old(residualHead) + n
      ensures n < 0 ==> |past| == |old(past)| + 1 && past[..|old(past)|] == old(past)
      ensures n < 0 ==> past[|old(past)|] == Link(old(writes), [], old(wire))
    {
      hide Flatten, Kernel.Taken, Kernel.Calm;
      ghost var rest := residual[residualHead..];
      n := RawWrite(residual[residualHead..]);
      if n < 0 {
        CloseTorn([]);
        return;
      }
      residualHead := residualHead + n;
      assert rest == rest[..n] + residual[residualHead..];
    }

    /** Pushes out what an earlier write left behind. */
    method DrainResidual() returns (ok: bool)
      requires Valid() && open
      modifies this
      ensures Valid()
      ensures ok ==> open && residual == [] && wire == Flatten(writes)
      ensures open ==> writes == old(writes) && past == old(past)
      ensures !open ==> |past| == |old(past)| + 1 && past[..|old(past)|] == old(past)
      ensures !open ==> past[|old(past)|].writes == old(writes) && past[|old(past)|].torn == []
      ensures refusals >= old(refusals) && (refusals == old(refusals) ==> ok)
      ensures tick >= old(tick) && (kernel.Calm(old(tick)) ==> refusals == old(refusals))
      ensures old(residualHead == |residual|) ==> tick == old(tick) && ok && refusals == old(refusals)
      ensures old(residualHead < |residual|) && kernel.takes(old(tick)) == Gone ==>
                !open && tick == old(tick) + 1 && past[|old(past)|].wire == old(wire)
    {
      hide Flatten, Kernel.Taken, Kernel.Calm;
      while residualHead < |residual|
        invariant Valid() && open && writes == old(writes) && past == old(past)
        invariant refusals >= old(refusals) && tick >= old(tick)
        invariant kernel.Calm(old(tick)) ==> refusals == old(refusals)
        invariant tick == old(tick) ==> old(|residual| - residualHead) == |residual| - residualHead
        invariant tick == old(tick) ==> refusals == old(refusals) && wire == old(wire)
        invariant tick > old(tick) ==> kernel.takes(old(tick)) != Gone && old(residualHead < |residual|)
        decreases |residual| - residualHead
      {
        kernel.StaysCalm(old(tick), tick);
        var n := PushSome();
        if n <= 0 { return false; }
      }
      residual, residualHead := [], 0;
      ok := true;
    }

    /** The loop of `write`: offers `data` until the kernel stops taking it. */
    method Offer(data: seq<u8>) returns (done: int)
      requires Valid() && open && residual == [] && wire == Flatten(writes)
      modifies this
      ensures -1 <= done <= |data|
      ensures refusals >= old(refusals) && (refusals == old(refusals) ==> done == |data|)
      ensures tick >= old(tick) && (kernel.Calm(old(tick)) ==> refusals == old(refusals))
      ensures |data| > 0 && kernel.takes(old(tick)) == Part(0) ==> done == 0 && tick == old(tick) + 1
      ensures if done < 0 then Valid() && !open && |past| == |old(past)| + 1 && past[..|old(past)|] == old(past) &&
                               past[|old(past)|].writes == old(writes) && past[|old(past)|].torn == data
              else open && writes == old(writes) && past == old(past) && residual == [] && residualHead == 0 &&
                   wire == old(wire) + data[..done]
    {
      hide Flatten, Kernel.Taken, Kernel.Calm;
      residualHead := 0;
      done := 0;
      while done < |data|
        invariant 0 <= done <= |data| && open && residual == [] && residualHead == 0
        invariant writes == old(writes) && past == old(past)
        invariant wire == old(wire) + data[..done]
        invariant refusals >= old(refusals) && tick >= old(tick)
        invariant kernel.Calm(old(tick)) ==> refusals == old(refusals)
        invariant tick == old(tick) ==> done == 0
        invariant tick > old(tick) ==> kernel.takes(old(tick)) != Part(0)
        decreases |data| - done
      {
        kernel.StaysCalm(old(tick), tick);
        var n := RawWrite(data[done..]);
        if n < 0 {
          assert |wire| - |Flatten(writes)| == done;
          CloseTorn(data);
          return -1;
        }
        if n == 0 { break; }
        assert data[..done + n] == data[..done] + data[done..][..n];
        done := done + n;
      }
    }

    /** Takes the whole of `data` or none of it: a partial kernel write is completed from the residual
        buffer later, never left as half a frame followed by something else. */
    method Write(data: seq<u8>) returns (status: Status)
      requires Valid()
      modifies this
      ensures Valid()
      ensures old(!open) ==> status == Disconnected
      ensures status == Disconnected <==> !open
      ensures status == Ok ==> open && writes == old(writes) + [data] && past == old(past)
      ensures status == WouldBlock ==> open && writes == old(writes) && past == old(past)
      ensures status == Disconnected && old(open) ==>
                && |past| == |old(past)| + 1 && past[..|old(past)|] == old(past)
                   && past[|old(past)|].writes == old(writes)
                && (past[|old(past)|].torn == [] || past[|old(past)|].torn == data)
      ensures old(!open) ==> past == old(past)
      ensures refusals >= old(refusals) && (refusals == old(refusals) && old(open) ==> status == Ok && residual == [])
      ensures tick >= old(tick) && (kernel.Calm(old(tick)) ==> refusals == old(refusals))
      ensures old(open && residualHead == |residual|) && 0 < |data| <= residualLimit
              && kernel.takes(old(tick)) == Part(0) ==>
                status == Ok && residualHead < |residual| && tick == old(tick) + 1 && wire == old(wire)
    {
      hide Flatten, Kernel.Calm;
      if !open { return Disconnected; }
      var drained := DrainResidual();
      if !drained { return if open then WouldBlock else Disconnected; }
      kernel.StaysCalm(old(tick), tick);
      var done := Offer(data);
      if done < 0 { return Disconnected; }
      FlattenAppend(writes, data);
      if done == |data| {
        assert data[..done] == data;
        writes := writes + [data];
        return Ok;
      }
      if |data| - done > residualLimit {
        assert |wire| - |Flatten(writes)| == done;
        CloseTorn(data);
        return Disconnected;
      }
      residual := data[done..];
      residualHead := 0;
      writes := writes + [data];
      assert data == data[..done] + data[done..];
      assert residual[residualHead..] == residual;
      return Ok;
    }

    method Pump() returns (status: Status)
      requires Valid()
      modifies this
      ensures Valid()
      ensures status == Disconnected <==> !open
      ensures open ==> writes == old(writes) && past == old(past)
      ensures !open && old(open) ==>
                && |past| == |old(past)| + 1 && past[..|old(past)|] == old(past)
                && past[|old(past)|].writes == old(writes) && past[|old(past)|].torn == []
      ensures old(!open) ==> past == old(past)
      ensures refusals >= old(refusals) && (refusals == old(refusals) && old(open) ==> status == Ok && residual == [])
      ensures tick >= old(tick) && (kernel.Calm(old(tick)) ==> refusals == old(refusals))
      ensures old(open && residualHead < |residual|) && kernel.takes(old(tick)) == Gone ==>
                !open && tick == old(tick) + 1 && past[|old(past)|].wire == old(wire)
    {
      if !open { return Disconnected; }
      var drained := DrainResidual();
      if !drained { return if open then WouldBlock else Disconnected; }
      return Ok;
    }

    /** The exchange of greetings at the start of a connection: the line is not part of `wire`. It may
        break the connection, and the peer may stay silent. */
    method Handshake<T>(answer: Answer<T>) returns (reply: Answer<T>)
      requires Valid() && open && writes == [] && wire == [] && residual == []
      modifies this
      ensures Valid() && refusals == old(refusals) && tick == old(tick) + 1
      ensures open == (kernel.hands(old(tick)) != Broken)
      ensures reply == if kernel.hands(old(tick)) == Shaken then answer else Silent
      ensures open ==> writes == [] && wire == [] && residual == [] && past == old(past)
      ensures !open ==> past == old(past) + [Link([], [], [])]
    {
      var hand := kernel.hands(tick);
      tick := tick + 1;
      if hand == Broken {
        CloseTorn([]);
        return Silent;
      }
      reply := if hand == Lost then Silent else answer;
    }
  }

  datatype Answer<T> = Silent | Answered(value: T)
}
