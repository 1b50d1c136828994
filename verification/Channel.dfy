/** Runs of the publisher over its channel (sigan/src/publisher.cpp, sigan/src/pipe_sink.cpp). */
module Channel {
  import opened Bytes
  import opened Frame
  import opened PipeSink
  import opened Delivery
  import opened Publisher

  // ---- the account of what was sent ----------------------------------------------------------------

  /** A pump keeps `published == sent + spooled` iff it hears no request for what was already sent. */
  method PumpBalance(p: SiganPublisher, answer: Answer<Greeting>, note: seq<u8>)
    requires p.Valid() && !p.journal.failed && p.published == p.sent + p.spooled
    modifies p, p.journal, p.journal.buf, p.sink
    ensures p.Valid()
    ensures !p.journal.failed ==>
              (p.published == p.sent + p.spooled <==>
                old(p.Hears(answer)) == Silent || !(0 < answer.value.resumeFromSeq <= old(p.sentSeq)))
  {
    hide SiganPublisher.Linked, SiganPublisher.Frames, SiganPublisher.Separate;
    p.StatsBalance();
    NoRewind(p.sentSeq, p.Hears(answer));
    p.Pump(answer, note);
    if !p.journal.failed { p.StatsBalance(); }
  }

  /** A kernel that swallows nothing of the first frame and then reports the connection gone; everything
      else goes well. The calls before are the connection and the greeting. */
  function Swallowed(): Kernel {
    Kernel(t => true, t => Shaken, t => if t == 2 then Part(0) else if t == 3 then Gone else All)
  }

  /** So the promise fails in a run as short as this, with a peer that tells the truth: one frame is taken
      by the sink and never reaches the wire, the connection is lost at the end of the stroke, and the peer
      comes back and asks for number 1, which it never saw. It gets the frame; but one published frame
      counts as two sent. */
  method AskedAgain(sessionId: u64, s: Sample, tMs: u64, caps: bool, note: seq<u8>) returns (p: SiganPublisher)
    ensures fresh(p) && p.Valid() && !p.journal.failed && p.sink != null
    ensures p.published == 1 && p.sent == 2 && p.spooled == 0 && p.reconnects == 2
    ensures |p.Links()| == |p.Starts()| && p.Starts() == [1, 1] && Resumed(p.Links(), p.Starts())
    ensures p.Links()[0].wire == []
    ensures forall x :: PeerHas(p.Links(), p.Starts(), x) <==> x == 1
  {
    hide SiganPublisher.Valid, SiganPublisher.Links, SiganPublisher.Starts, SiganPublisher.Frames, PeerHas, Held,
         Sink.Valid, Swallowed, Kernel.Calm, Resumed;
    var sink := new Sink(FRAME_SIZE, Swallowed());
    p := new SiganPublisher(sessionId, 0, sink, true);
    NothingYet(p);
    LoseFirst(p, s, tMs, note);
    Script();
    p.Pump(Answered(Greeting(1, caps, caps)), note);
    SentTwice(p);
  }

  /** The first part: the frame is taken, counted as sent, and gone. */
  method LoseFirst(p: SiganPublisher, s: Sample, tMs: u64, note: seq<u8>)
    requires p.Valid() && p.sink != null && p.seqNo == p.sentSeq == p.rewound == p.reconnects == 0
    requires p.journal.sound && !p.journal.failed && p.Links() == [] && p.Starts() == []
    requires !p.sink.open && p.sink.tick == 0 && p.sink.kernel == Swallowed() && p.sink.residualLimit == FRAME_SIZE
    modifies p, p.journal, p.journal.buf, p.sink
    ensures p.Valid() && !p.journal.failed && p.seqNo == p.sentSeq == p.reconnects == 1 && p.rewound == 0
    ensures !p.sink.open && p.sink.tick == 4 && |p.Links()| == 1 && p.Starts() == [1] && p.Links()[0].wire == []
  {
    hide SiganPublisher.Valid, SiganPublisher.Links, SiganPublisher.Starts, SiganPublisher.Frames, Sink.Valid,
         Swallowed,
         Kernel.Calm;
    Script();
    p.Pump(Silent, note);
    NothingLeft(p);
    var r := p.Publish(s, tMs);
    p.EndStroke();
  }

  /** The script, call by call. */
  lemma Script()
    ensures var k := Swallowed();
            && k.accepts(0) && k.hands(1) == Shaken && k.takes(2) == Part(0) && k.takes(3) == Gone
            && k.accepts(4) && k.hands(5) == Shaken && k.Calm(4)
  {
  }

  lemma NothingYet(p: SiganPublisher)
    requires p.Valid() && p.sink != null && !p.sink.open && p.sink.past == []
    ensures p.Links() == [] && p.Starts() == []
  {
    hide SiganPublisher.Linked, SiganPublisher.Counted, SiganPublisher.Frames;
  }

  lemma NothingLeft(p: SiganPublisher)
    requires p.Valid() && p.sink != null && p.sink.residual == []
    ensures p.sink.residualHead == |p.sink.residual|
  {
    hide SiganPublisher.Linked, SiganPublisher.Counted, SiganPublisher.Frames;
  }

  lemma SentTwice(p: SiganPublisher)
    requires p.Valid() && !p.journal.failed && p.sink != null && p.sink.open && p.sink.residual == []
    requires p.seqNo == p.sentSeq == p.rewound == 1 && p.Starts() == [1, 1]
    ensures p.published == 1 && p.sent == 2 && p.spooled == 0
    ensures |p.Links()| == |p.Starts()| && Resumed(p.Links(), p.Starts())
    ensures forall x :: PeerHas(p.Links(), p.Starts(), x) <==> x == 1
  {
    hide SiganPublisher.Linked, SiganPublisher.Frames, SiganPublisher.Links, SiganPublisher.Starts, PeerHas, Held;
    p.Standing();
    forall x ensures PeerHas(p.Links(), p.Starts(), x) <==> x == 1 { p.AllDelivered(x); }
  }

  // ---- runs ----------------------------------------------------------------------------------------

  datatype Act = Point(s: Sample, tMs: u64) | End | Maintain(answer: Answer<Greeting>, note: seq<u8>)

  /** What was heard on a new connection: by which act, at which call to the kernel, and how things stood:
      what was sent, what the peer held. */
  datatype Heard = Heard(act: nat, tick: nat, greeting: Answer<Greeting>, sentSeq: u64, held: nat) {
    /** Did the connection outlive the greeting? */
    predicate Alive(k: Kernel) { k.hands(tick + 1) != Broken }

    predicate Safe(k: Kernel) { Alive(k) ==> Truthful(greeting, sentSeq, held) }

    /** This is what the act met: the peer's answer, or nothing if that got lost. */
    predicate From(k: Kernel, acts: seq<Act>) {
      && act < |acts| && acts[act].Maintain? && k.accepts(tick)
      && greeting == if k.hands(tick + 1) == Shaken then acts[act].answer else Silent
    }

    /** The first number on the connection. */
    function First(k: Kernel): nat { if Alive(k) then ResumePoint(sentSeq, greeting) + 1 else 1 }
  }

  ghost predicate AllTruthful(k: Kernel, heard: seq<Heard>) {
    forall i :: 0 <= i < |heard| ==> heard[i].Safe(k)
  }

  /** How things stood when a run began. */
  datatype Before = Before(links: seq<Link>, starts: seq<nat>, open: bool, sentSeq: nat)

  /** The last number handed to a connection that outlived its greeting. */
  ghost function Handed(b: Before, k: Kernel, links: seq<Link>, starts: seq<nat>, heard: seq<Heard>): int
    requires |links| == |starts| == |b.links| + |heard| && (b.open ==> |b.links| > 0)
  {
    var n, m := |links|, |heard|;
    if m > 0 && !heard[m - 1].Alive(k) then heard[m - 1].sentSeq
    else if m == 0 && !b.open then b.sentSeq
    else starts[n - 1] - 1 + |links[n - 1].writes|
  }

  /** Entry `i` of what was heard is about connection `|b.links| + i` and is true of it: it came from a pump
      later than those before, the peer held what the earlier connections brought, sending went on where the
      greeting says, and (if the journal is `intact`) what was sent is what the earlier connections took. */
  ghost predicate Tells(k: Kernel, acts: seq<Act>, b: Before, links: seq<Link>, starts: seq<nat>, heard: seq<Heard>,
                        i: nat, intact: bool)
    requires |links| == |starts| == |b.links| + |heard| && i < |heard| && (b.open ==> |b.links| > 0)
  {
    var n, h := |b.links| + i, heard[i];
    && h.From(k, acts) && h.held == Held(links[..n], starts[..n]) && starts[n] == h.First(k)
    && (i > 0 ==> heard[i - 1].act < h.act && heard[i - 1].tick + 1 < h.tick)
    && (intact ==> h.sentSeq == Handed(b, k, links[..n], starts[..n], heard[..i]))
  }

  /** Since `b` there is one connection for each entry of `heard`, and all entries are true. The connections
      from before are still there; only the last of them can have carried more. */
  ghost predicate Account(k: Kernel, acts: seq<Act>, b: Before, links: seq<Link>, starts: seq<nat>, heard: seq<Heard>,
                          intact: bool)
  {
    && |links| == |starts| == |b.links| + |heard| && |b.starts| == |b.links| && (b.open ==> |b.links| > 0)
    && starts[..|b.links|] == b.starts && (|b.links| > 0 ==> links[..|b.links| - 1] == b.links[..|b.links| - 1])
    && forall i :: 0 <= i < |heard| ==> Tells(k, acts, b, links, starts, heard, i, intact)
  }

  lemma AccountStarts(k: Kernel, acts: seq<Act>, b: Before, intact: bool)
    requires |b.links| == |b.starts| && (b.open ==> |b.links| > 0)
    ensures Account(k, acts, b, b.links, b.starts, [], intact)
  {
  }

  /** More bytes on the last connection change nothing that was heard. */
  lemma AccountKept(k: Kernel, acts: seq<Act>, b: Before, links: seq<Link>, starts: seq<nat>, heard: seq<Heard>,
                    links': seq<Link>, starts': seq<nat>, g: int, intact: bool, intact': bool)
    requires Account(k, acts, b, links, starts, heard, intact) && Continues(links, starts, links', starts', g)
    requires intact' ==> intact
    ensures Account(k, acts, b, links', starts', heard, intact')
    ensures Handed(b, k, links', starts', heard) == Handed(b, k, links, starts, heard) + if Live(b, k, heard) then g
            else 0
  {
    hide Held, Heard.From, Heard.First;
    var m := |links| - 1;
    forall i | 0 <= i < |heard| ensures Tells(k, acts, b, links', starts', heard, i, intact') {
      var n := |b.links| + i;
      assert Tells(k, acts, b, links, starts, heard, i, intact);
      assert links'[..n] == links'[..m][..n] == links[..m][..n] == links[..n];
    }
    if |b.links| > 0 {
      var n := |b.links| - 1;
      assert links'[..n] == links'[..m][..n] == links[..m][..n] == links[..n];
    }
  }

  /** Is the last connection one that things are sent on? */
  predicate Live(b: Before, k: Kernel, heard: seq<Heard>) {
    if |heard| == 0 then b.open else heard[|heard| - 1].Alive(k)
  }

  /** A new connection adds one entry. */
  lemma AccountMore(k: Kernel, acts: seq<Act>, b: Before, links: seq<Link>, starts: seq<nat>, heard: seq<Heard>,
                    links': seq<Link>, starts': seq<nat>, g: int, h: Heard, intact: bool, intact': bool)
    requires Account(k, acts, b, links, starts, heard, intact) && Resumes(links, starts, links', starts', h.First(k), g)
    requires h.From(k, acts) && h.held == Held(links, starts) && (intact' ==> intact)
    requires intact' ==> h.sentSeq == Handed(b, k, links, starts, heard)
    requires |heard| > 0 ==> heard[|heard| - 1].act < h.act && heard[|heard| - 1].tick + 1 < h.tick
    ensures Account(k, acts, b, links', starts', heard + [h], intact')
    ensures Handed(b, k, links', starts', heard + [h]) == if h.Alive(k) then ResumePoint(h.sentSeq, h.greeting) + g
            else h.sentSeq
  {
    hide Held, Heard.From, ResumePoint;
    var more := heard + [h];
    forall i | 0 <= i < |more| ensures Tells(k, acts, b, links', starts', more, i, intact') {
      var n := |b.links| + i;
      if i < |heard| {
        assert Tells(k, acts, b, links, starts, heard, i, intact);
        assert links'[..n] == links'[..|links|][..n] == links[..n];
        assert starts'[..n] == starts[..n] && more[..i] == heard[..i];
      } else {
        assert links'[..n] == links && starts'[..n] == starts && more[..i] == heard;
      }
    }
    if |b.links| > 0 {
      var n := |b.links| - 1;
      assert links'[..n] == links'[..|links|][..n] == links[..n];
    }
    assert starts'[..|b.links|] == starts[..|b.links|];
  }

  /** Resumption was safe throughout iff it was before and every greeting was truthful. */
  lemma ResumedTruthfully(k: Kernel, acts: seq<Act>, b: Before, links: seq<Link>, starts: seq<nat>, heard: seq<Heard>,
                          intact: bool)
    requires Account(k, acts, b, links, starts, heard, intact)
    ensures Resumed(links, starts) <==> Resumed(b.links, b.starts) && AllTruthful(k, heard)
  {
    hide Held, Handed, Heard.From, Truthful, ResumePoint;
    forall i | 0 <= i < |b.links|
      ensures links[..i] == b.links[..i] && starts[..i] == b.starts[..i] && starts[i] == b.starts[i]
    {
      var n := |b.links| - 1;
      assert links[..i] == links[..n][..i] == b.links[..n][..i] == b.links[..i];
      assert starts[..i] == starts[..|b.links|][..i];
    }
    forall i | 0 <= i < |heard|
      ensures var n := |b.links| + i; 1 <= starts[n] <= Held(links[..n], starts[..n]) + 1 <==> heard[i].Safe(k)
    {
      assert Tells(k, acts, b, links, starts, heard, i, intact);
      TruthfulPeer(heard[i].sentSeq, heard[i].held, heard[i].greeting);
    }
    if Resumed(links, starts) {
      forall i | 0 <= i < |b.links| ensures 1 <= b.starts[i] <= Held(b.links[..i], b.starts[..i]) + 1 {
        assert 1 <= starts[i] <= Held(links[..i], starts[..i]) + 1;
      }
      forall i | 0 <= i < |heard| ensures heard[i].Safe(k) {
        var n := |b.links| + i;
        assert 1 <= starts[n] <= Held(links[..n], starts[..n]) + 1;
      }
    }
    if Resumed(b.links, b.starts) && AllTruthful(k, heard) {
      forall i | 0 <= i < |links| ensures 1 <= starts[i] <= Held(links[..i], starts[..i]) + 1 {
        if i >= |b.links| { assert heard[i - |b.links|].Safe(k); }
      }
    }
  }

  /** After the first `n` acts: what was heard is true, and what was sent is what was handed over. */
  ghost predicate Told(p: SiganPublisher, acts: seq<Act>, n: nat, b: Before, heard: seq<Heard>)
    reads p, p.journal, p.journal.buf, p.sink
  {
    && p.Valid() && p.sink != null
    && Account(p.sink.kernel, acts, b, p.Links(), p.Starts(), heard, !p.journal.failed)
    && (!p.journal.failed ==> p.sentSeq == Handed(b, p.sink.kernel, p.Links(), p.Starts(), heard))
    && (|heard| > 0 ==> heard[|heard| - 1].act < n && heard[|heard| - 1].tick + 1 < p.sink.tick)
    && (!Live(b, p.sink.kernel, heard) ==> !p.sink.open)
  }

  lemma ToldFirst(p: SiganPublisher, acts: seq<Act>, b: Before)
    requires p.Valid() && p.sink != null && b == Before(p.Links(), p.Starts(), p.sink.open, p.sentSeq)
    ensures Told(p, acts, 0, b, [])
  {
    hide SiganPublisher.Valid, SiganPublisher.Starts, SiganPublisher.Frames, Account;
    LinkCount(p);
    if !p.journal.failed { p.Standing(); }
    AccountStarts(p.sink.kernel, acts, b, !p.journal.failed);
  }

  /** One act of a run. */
  method RunAct(p: SiganPublisher, acts: seq<Act>, n: nat, ghost b: Before, ghost heard: seq<Heard>)
    returns (ghost more: seq<Heard>)
    requires n < |acts| && Told(p, acts, n, b, heard) && p.seqNo + 1 < 0x1_0000_0000_0000_0000
    modifies p, p.journal, p.journal.buf, p.sink
    ensures Told(p, acts, n + 1, b, more) && p.seqNo <= old(p.seqNo) + 1
    ensures |more| - |heard| == p.reconnects - old(p.reconnects)
  {
    hide SiganPublisher.Valid, SiganPublisher.Links, SiganPublisher.Starts, SiganPublisher.Frames, Account, Handed,
         Continues, Resumes, Held, ResumePoint, Kernel.Calm;
    ghost var k, links, starts, sent0, intact := p.sink.kernel, p.Links(), p.Starts(), p.sent, !p.journal.failed;
    ghost var h := Heard(n, p.sink.tick, Silent, p.sentSeq, HeldNow(p));
    more := heard;
    if intact { p.Standing(); }
    p.Unanswered(p.sentSeq);
    match acts[n] {
      case Point(s, tMs) =>
        var r := p.Publish(s, tMs);
      case End =>
        p.EndStroke();
      case Maintain(answer, note) =>
        h := h.(greeting := p.Hears(answer));
        if p.Connects() { more := heard + [h]; }
        p.Pump(answer, note);
    }
    if !p.journal.failed { p.Standing(); }
    if more == heard {
      AccountKept(k, acts, b, links, starts, heard, p.Links(), p.Starts(), p.sent - sent0, intact, !p.journal.failed);
    } else {
      AccountMore(k, acts, b, links, starts, heard, p.Links(), p.Starts(), p.sent - sent0, h, intact,
        !p.journal.failed);
    }
  }

  ghost function HeldNow(p: SiganPublisher): nat
    requires p.Valid()
    reads p, p.journal, p.journal.buf, p.sink
    ensures |p.Links()| == |p.Starts()| && HeldNow(p) == Held(p.Links(), p.Starts())
  {
    LinkCount(p);
    Held(p.Links(), p.Starts())
  }

  lemma LinkCount(p: SiganPublisher)
    requires p.Valid()
    ensures |p.Links()| == |p.Starts()|
  {
    hide SiganPublisher.Linked, SiganPublisher.Counted, SiganPublisher.Frames;
  }

  /** Over any run of points, stroke ends and pumps, with connections breaking at any byte and greetings
      lost or answered in any way: `heard` is the true account of every connection made. Resumption was safe
      throughout iff it was before and every greeting was truthful, and then the peer holds exactly the
      frames 1 up to the highest it has. */
  method RunChannel(p: SiganPublisher, acts: seq<Act>) returns (ghost heard: seq<Heard>)
    requires p.Valid() && p.sink != null && p.seqNo + |acts| < 0x1_0000_0000_0000_0000
    modifies p, p.journal, p.journal.buf, p.sink
    ensures p.Valid() && |heard| == p.reconnects - old(p.reconnects)
    ensures Account(p.sink.kernel, acts, old(Before(p.Links(), p.Starts(), p.sink.open, p.sentSeq)),
              p.Links(), p.Starts(), heard, !p.journal.failed)
    ensures |p.Links()| == |p.Starts()| && old(|p.Links()| == |p.Starts()|)
    ensures Resumed(p.Links(), p.Starts()) <==>
              old(Resumed(p.Links(), p.Starts())) && AllTruthful(p.sink.kernel, heard)
    ensures !p.journal.failed && old(Resumed(p.Links(), p.Starts())) && AllTruthful(p.sink.kernel, heard) ==>
              forall x :: PeerHas(p.Links(), p.Starts(), x) <==> 1 <= x <= Held(p.Links(), p.Starts())
  {
    hide SiganPublisher.Valid, SiganPublisher.Links, SiganPublisher.Starts, SiganPublisher.Frames, Account, Handed,
         Held,
         PeerHas, Resumed, AllTruthful;
    LinkCount(p);
    ghost var b := Before(p.Links(), p.Starts(), p.sink.open, p.sentSeq);
    heard := [];
    ToldFirst(p, acts, b);
    var i := 0;
    while i < |acts|
      invariant 0 <= i <= |acts| && Told(p, acts, i, b, heard) && p.seqNo + |acts| - i < 0x1_0000_0000_0000_0000
      invariant |heard| == p.reconnects - old(p.reconnects)
    {
      heard := RunAct(p, acts, i, b, heard);
      i := i + 1;
    }
    LinkCount(p);
    ResumedTruthfully(p.sink.kernel, acts, b, p.Links(), p.Starts(), heard, !p.journal.failed);
    if !p.journal.failed && Resumed(p.Links(), p.Starts()) {
      forall x
        ensures PeerHas(p.Links(), p.Starts(), x) <==> 1 <= x <= Held(p.Links(), p.Starts())
      {
        p.Gapless(0, 0, x);
      }
    }
  }

  /** Greetings that ask for something no later than the first frame the peer misses are truthful, whatever
      was sent. */
  lemma AskingSuffices(k: Kernel, heard: seq<Heard>)
    requires forall i :: 0 <= i < |heard| && heard[i].Alive(k) ==>
               heard[i].greeting.Answered? && 0 < heard[i].greeting.value.resumeFromSeq <= heard[i].held + 1
    ensures AllTruthful(k, heard)
  {
  }

  /** So a peer that asks for everything each time is safe in every run, on a channel that loses no greeting
      without losing the connection. */
  lemma AskingForAll(k: Kernel, acts: seq<Act>, b: Before, links: seq<Link>, starts: seq<nat>, heard: seq<Heard>,
                     intact: bool)
    requires Account(k, acts, b, links, starts, heard, intact) && forall u :: k.hands(u) != Lost
    requires forall j :: 0 <= j < |acts| && acts[j].Maintain? ==>
               acts[j].answer.Answered? && acts[j].answer.value.resumeFromSeq == 1
    ensures AllTruthful(k, heard)
  {
    hide Held, Handed, Truthful, ResumePoint;
    forall i | 0 <= i < |heard| && heard[i].Alive(k)
      ensures heard[i].greeting.Answered? && 0 < heard[i].greeting.value.resumeFromSeq <= heard[i].held + 1
    {
      assert Tells(k, acts, b, links, starts, heard, i, intact);
    }
    AskingSuffices(k, heard);
  }
}
