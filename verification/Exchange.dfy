// The exchange of non-owned graph rows between the processes, as the interleaved steps of the message
// passing program every process runs.
//
// In round `to` all processes first gather how much each of them has for process `to`; then, source by
// source, the ones with something send two messages (row lengths, then contents) and `to` receives them.
// A send may return once its message is buffered, or block until the receiver takes it: both are steps.

module Exchange {

  /** What one process prepared for the others, per destination. */
  datatype Outbox = Outbox(lengths: seq<seq<nat>>, contents: seq<seq<nat>>)

  /** Where a process is: round, and 0 for the gather or 1 + 2 * source + tag for a message. */
  datatype Point = Point(round: nat, step: nat) {

    predicate Before(other: Point) {
      round < other.round || (round == other.round && step < other.step)
    }

    predicate NotAfter(other: Point) {
      this == other || Before(other)
    }

    function Next(n: nat): Point {
      if step < 2 * n then Point(round, step + 1) else Point(round + 1, 0)
    }
  }

  /** Where a process handles message `tag` from src to dst. */
  function Slot(src: nat, dst: nat, tag: nat): Point {
    Point(dst, 1 + 2 * src + tag)
  }

  datatype Message = Message(src: nat, dst: nat, tag: nat, data: seq<nat>)

  /** A process: where it is, the sizes it gathered last, and what it received, per source. */
  datatype Process = Process(at: Point, sizes: seq<nat>, lengths: seq<seq<nat>>, contents: seq<seq<nat>>) {

    predicate Done(n: nat) {
      at.round >= n
    }

    predicate AtMessage(n: nat) {
      at.round < n && 0 < at.step <= 2 * n
    }

    function Source(): nat {
      if at.step == 0 then 0 else (at.step - 1) / 2
    }

    function Tag(): nat {
      if at.step == 0 then 0 else (at.step - 1) % 2
    }

    /** The test each process makes before the two messages of a source. */
    predicate Active(n: nat)
      requires AtMessage(n) && |sizes| == n
    {
      sizes[Source()] > 0 && at.round != Source()
    }

    function Store(src: nat, tag: nat, data: seq<nat>): Process
      requires src < |lengths| && src < |contents|
    {
      if tag == 0 then this.(lengths := lengths[src := data]) else this.(contents := contents[src := data])
    }

    function Advance(n: nat): Process {
      this.(at := at.Next(n))
    }
  }

  datatype World = World(procs: seq<Process>, net: multiset<Message>)

  ghost predicate Boxes(out: seq<Outbox>) {
    forall p: nat :: p < |out| ==> |out[p].lengths| == |out[p].contents| == |out|
  }

  function Data(out: seq<Outbox>, src: nat, dst: nat, tag: nat): seq<nat>
    requires Boxes(out) && src < |out| && dst < |out|
  {
    if tag == 0 then out[src].lengths[dst] else out[src].contents[dst]
  }

  function Sizes(out: seq<Outbox>, dst: nat): seq<nat>
    requires Boxes(out) && dst < |out|
  {
    seq(|out|, (p: int) requires 0 <= p < |out| => |out[p].contents[dst]|)
  }

  function Start(n: nat): Process {
    Process(Point(0, 0), [], seq(n, i => []), seq(n, i => []))
  }

  ghost predicate Init(out: seq<Outbox>, w: World) {
    && |w.procs| == |out| && w.net == multiset{}
    && forall p: nat :: p < |w.procs| ==> w.procs[p] == Start(|out|)
  }

  ghost predicate Shaped(out: seq<Outbox>, w: World) {
    && Boxes(out) && |w.procs| == |out|
    && forall p: nat :: p < |w.procs| ==>
         |w.procs[p].lengths| == |w.procs[p].contents| == |out| && w.procs[p].at.step <= 2 * |out|
  }

  // ---------------------------------------------------------------------------------------------
  // Steps
  // ---------------------------------------------------------------------------------------------

  /** Process p leaves the gather of its round: everybody has reached it. */
  ghost predicate Gather(out: seq<Outbox>, w: World, w': World, p: nat)
    requires Shaped(out, w)
  {
    && p < |out| && w.procs[p].at.round < |out| && w.procs[p].at.step == 0
    && (forall q: nat :: q < |out| ==> w.procs[p].at.NotAfter(w.procs[q].at))
    && w' == w.(procs := w.procs[p := w.procs[p].(sizes := Sizes(out, w.procs[p].at.round)).Advance(|out|)])
  }

  ghost predicate Ready(out: seq<Outbox>, w: World, p: nat)
    requires Shaped(out, w)
  {
    p < |out| && w.procs[p].AtMessage(|out|) && |w.procs[p].sizes| == |out|
  }

  /** A message this process neither sends nor receives. */
  ghost predicate Skip(out: seq<Outbox>, w: World, w': World, p: nat)
    requires Shaped(out, w)
  {
    && Ready(out, w, p)
    && !(w.procs[p].Active(|out|) && (p == w.procs[p].Source() || p == w.procs[p].at.round))
    && w' == w.(procs := w.procs[p := w.procs[p].Advance(|out|)])
  }

  ghost predicate Sending(out: seq<Outbox>, w: World, p: nat)
    requires Shaped(out, w)
  {
    Ready(out, w, p) && w.procs[p].Active(|out|) && p == w.procs[p].Source()
  }

  ghost predicate Receiving(out: seq<Outbox>, w: World, p: nat)
    requires Shaped(out, w)
  {
    Ready(out, w, p) && w.procs[p].Active(|out|) && p == w.procs[p].at.round
  }

  /** The message process p is about to send. */
  function Outgoing(out: seq<Outbox>, w: World, p: nat): Message
    requires Boxes(out) && p < |out| && p < |w.procs|
    requires w.procs[p].at.round < |out|
  {
    var dst, tag := w.procs[p].at.round, w.procs[p].Tag();
    Message(p, dst, tag, Data(out, p, dst, tag))
  }

  /** A send that returns because its message is buffered. */
  ghost predicate Buffer(out: seq<Outbox>, w: World, w': World, p: nat)
    requires Shaped(out, w)
  {
    && Sending(out, w, p)
    && w' == World(w.procs[p := w.procs[p].Advance(|out|)], w.net + multiset{Outgoing(out, w, p)})
  }

  /** A receive from the buffer: any message with the source and tag asked for. */
  ghost predicate Receive(out: seq<Outbox>, w: World, w': World, p: nat, m: Message)
    requires Shaped(out, w)
  {
    && Receiving(out, w, p) && m in w.net
    && m.src == w.procs[p].Source() && m.src < |out| && m.dst == p && m.tag == w.procs[p].Tag()
    && w' == World(w.procs[p := w.procs[p].Store(m.src, m.tag, m.data).Advance(|out|)], w.net - multiset{m})
  }

  /** An unbuffered send, completed together with the receive that matches it. */
  ghost predicate Transfer(out: seq<Outbox>, w: World, w': World, p: nat, q: nat)
    requires Shaped(out, w)
  {
    && Sending(out, w, p) && Receiving(out, w, q) && p != q
    && w.procs[p].at.round == q && w.procs[q].Source() == p && w.procs[p].Tag() == w.procs[q].Tag()
    && w' == w.(procs := w.procs[p := w.procs[p].Advance(|out|)]
         [q := w.procs[q].Store(p, w.procs[p].Tag(), Outgoing(out, w, p).data).Advance(|out|)])
  }

  ghost predicate Step(out: seq<Outbox>, w: World, w': World)
    requires Shaped(out, w)
  {
    || (exists p: nat :: Gather(out, w, w', p) || Skip(out, w, w', p) || Buffer(out, w, w', p))
    || (exists p: nat, m: Message :: Receive(out, w, w', p, m))
    || (exists p: nat, q: nat :: Transfer(out, w, w', p, q))
  }

  // ---------------------------------------------------------------------------------------------
  // Invariant
  // ---------------------------------------------------------------------------------------------

  ghost predicate Sends(out: seq<Outbox>, src: nat, dst: nat)
    requires Boxes(out)
  {
    src < |out| && dst < |out| && src != dst && |out[src].contents[dst]| > 0
  }

  /** Process p is past the message with this source, destination and tag. */
  predicate Past(w: World, p: nat, src: nat, dst: nat, tag: nat)
    requires p < |w.procs|
  {
    Slot(src, dst, tag).Before(w.procs[p].at)
  }

  ghost predicate Flying(out: seq<Outbox>, w: World, m: Message)
    requires Shaped(out, w)
  {
    && Sends(out, m.src, m.dst) && m.tag < 2 && m.data == Data(out, m.src, m.dst, m.tag)
    && Past(w, m.src, m.src, m.dst, m.tag) && !Past(w, m.dst, m.src, m.dst, m.tag)
  }

  function Got(w: World, p: nat, src: nat, tag: nat): seq<nat>
    requires p < |w.procs| && src < |w.procs[p].lengths| && src < |w.procs[p].contents|
  {
    if tag == 0 then w.procs[p].lengths[src] else w.procs[p].contents[src]
  }

  ghost predicate Placed(out: seq<Outbox>, w: World)
    requires Shaped(out, w)
  {
    forall p: nat :: p < |out| ==>
      && w.procs[p].at.round <= |out| && (w.procs[p].at.round == |out| ==> w.procs[p].at.step == 0)
      && (w.procs[p].at.step > 0 ==> w.procs[p].sizes == Sizes(out, w.procs[p].at.round))
  }

  ghost predicate SentFirst(out: seq<Outbox>, w: World)
    requires Shaped(out, w)
  {
    forall src: nat, dst: nat, tag: nat ::
      Sends(out, src, dst) && tag < 2 && Past(w, dst, src, dst, tag) ==> Past(w, src, src, dst, tag)
  }

  ghost predicate NetIsFlying(out: seq<Outbox>, w: World)
    requires Shaped(out, w)
  {
    forall m: Message :: w.net[m] == if Flying(out, w, m) then 1 else 0
  }

  ghost predicate Delivered(out: seq<Outbox>, w: World)
    requires Shaped(out, w)
  {
    forall p: nat, src: nat, tag: nat :: p < |out| && src < |out| && tag < 2 ==>
      Got(w, p, src, tag) == if Sends(out, src, p) && Past(w, p, src, p, tag) then Data(out, src, p, tag) else []
  }

  ghost predicate Inv(out: seq<Outbox>, w: World) {
    Shaped(out, w) && Placed(out, w) && SentFirst(out, w) && NetIsFlying(out, w) && Delivered(out, w)
  }

  lemma {:induction false} InitKeeps(out: seq<Outbox>, w: World)
    requires Boxes(out) && Init(out, w)
    ensures Inv(out, w)
  {
  }

  // ---------------------------------------------------------------------------------------------
  // Preservation
  // ---------------------------------------------------------------------------------------------

  /** Advancing passes the message a process stands at, and no other. */
  lemma {:induction false} AdvancePasses(n: nat, at: Point, src: nat, dst: nat, tag: nat)
    requires at.step <= 2 * n && src < n && tag < 2
    ensures Slot(src, dst, tag).Before(at.Next(n))
      <==> Slot(src, dst, tag).Before(at) || at == Slot(src, dst, tag)
  {
  }

  /** Only messages p stands at get passed by p; other processes pass nothing. */
  ghost predicate PassesOnly(out: seq<Outbox>, w: World, w': World, p: nat)
    requires Shaped(out, w) && Shaped(out, w')
  {
    && p < |out|
    && forall q: nat, src: nat, dst: nat, tag: nat :: q < |out| && src < |out| && tag < 2 ==>
         (Past(w', q, src, dst, tag) <==>
           Past(w, q, src, dst, tag) || (q == p && w.procs[p].at == Slot(src, dst, tag)))
  }

  lemma {:induction false} OneMoves(out: seq<Outbox>, w: World, w': World, p: nat)
    requires Shaped(out, w) && |w'.procs| == |out| && p < |out|
    requires w'.procs[p].at == w.procs[p].at.Next(|out|)
    requires |w'.procs[p].lengths| == |w'.procs[p].contents| == |out|
    requires forall q: nat :: q < |out| && q != p ==> w'.procs[q] == w.procs[q]
    ensures Shaped(out, w') && PassesOnly(out, w, w', p)
  {
    forall q: nat, src: nat, dst: nat, tag: nat | q < |out| && src < |out| && tag < 2
      ensures Past(w', q, src, dst, tag) <==>
        Past(w, q, src, dst, tag) || (q == p && w.procs[p].at == Slot(src, dst, tag))
    {
      AdvancePasses(|out|, w.procs[p].at, src, dst, tag);
    }
  }

  /** A step of p that touches no message: it stands at none that it sends or receives. */
  lemma {:induction false} SilentStep(out: seq<Outbox>, w: World, w': World, p: nat)
    requires Inv(out, w) && Shaped(out, w') && PassesOnly(out, w, w', p) && w'.net == w.net && Placed(out, w')
    requires forall q: nat :: q < |out| ==>
      w'.procs[q].lengths == w.procs[q].lengths && w'.procs[q].contents == w.procs[q].contents
    requires forall src: nat, dst: nat, tag: nat ::
      Sends(out, src, dst) && tag < 2 && w.procs[p].at == Slot(src, dst, tag) ==> p != src && p != dst
    ensures Inv(out, w')
  {
    forall src: nat, dst: nat, tag: nat | Sends(out, src, dst) && tag < 2
      ensures Past(w', src, src, dst, tag) == Past(w, src, src, dst, tag)
      ensures Past(w', dst, src, dst, tag) == Past(w, dst, src, dst, tag)
    {
      assert w.procs[p].at == Slot(src, dst, tag) ==> p != src && p != dst;
    }
    SameFlags(out, w, w');
  }

  lemma {:induction false} SameFlags(out: seq<Outbox>, w: World, w': World)
    requires Inv(out, w) && Shaped(out, w') && w'.net == w.net
    requires forall q: nat :: q < |out| ==>
      w'.procs[q].lengths == w.procs[q].lengths && w'.procs[q].contents == w.procs[q].contents
    requires forall src: nat, dst: nat, tag: nat :: Sends(out, src, dst) && tag < 2 ==>
      Past(w', src, src, dst, tag) == Past(w, src, src, dst, tag)
      && Past(w', dst, src, dst, tag) == Past(w, dst, src, dst, tag)
    ensures SentFirst(out, w') && NetIsFlying(out, w') && Delivered(out, w')
  {
    forall m: Message
      ensures w'.net[m] == if Flying(out, w', m) then 1 else 0
    {
      assert Flying(out, w', m) == Flying(out, w, m);
    }
    forall p: nat, src: nat, tag: nat | p < |out| && src < |out| && tag < 2
      ensures Got(w', p, src, tag)
        == if Sends(out, src, p) && Past(w', p, src, p, tag) then Data(out, src, p, tag) else []
    {
      assert Got(w', p, src, tag) == Got(w, p, src, tag);
    }
  }

  lemma {:induction false} StandsAt(out: seq<Outbox>, w: World, p: nat)
    requires Inv(out, w) && Ready(out, w, p)
    ensures w.procs[p].Source() < |out| && w.procs[p].Tag() < 2
    ensures w.procs[p].at == Slot(w.procs[p].Source(), w.procs[p].at.round, w.procs[p].Tag())
    ensures w.procs[p].Active(|out|) <==> Sends(out, w.procs[p].Source(), w.procs[p].at.round)
  {
  }

  lemma {:induction false} AdvanceStaysPlaced(out: seq<Outbox>, w: World, w': World, p: nat)
    requires Inv(out, w) && Shaped(out, w') && p < |out| && w.procs[p].at.round < |out|
    requires forall q: nat :: q < |out| && q != p ==> w'.procs[q] == w.procs[q]
    requires w'.procs[p].at == w.procs[p].at.Next(|out|) && w'.procs[p].sizes == Sizes(out, w.procs[p].at.round)
    ensures Placed(out, w')
  {
  }

  lemma {:induction false} GatherKeeps(out: seq<Outbox>, w: World, w': World, p: nat)
    requires Inv(out, w) && Gather(out, w, w', p)
    ensures Inv(out, w')
  {
    OneMoves(out, w, w', p);
    AdvanceStaysPlaced(out, w, w', p);
    SilentStep(out, w, w', p);
  }

  lemma {:induction false} SkipKeeps(out: seq<Outbox>, w: World, w': World, p: nat)
    requires Inv(out, w) && Skip(out, w, w', p)
    ensures Inv(out, w')
  {
    OneMoves(out, w, w', p);
    AdvanceStaysPlaced(out, w, w', p);
    StandsAt(out, w, p);
    SilentStep(out, w, w', p);
  }

  /** Exactly the flags of one message change: to sent, to received, or both. */
  ghost predicate FlagsAfter(out: seq<Outbox>, w: World, w': World, m: Message, sent: bool, received: bool)
    requires Shaped(out, w) && Shaped(out, w')
  {
    forall src: nat, dst: nat, tag: nat :: Sends(out, src, dst) && tag < 2 ==>
      && (Past(w', src, src, dst, tag) <==>
           Past(w, src, src, dst, tag) || (sent && src == m.src && dst == m.dst && tag == m.tag))
      && (Past(w', dst, src, dst, tag) <==>
           Past(w, dst, src, dst, tag) || (received && src == m.src && dst == m.dst && tag == m.tag))
  }

  ghost predicate IsMessage(out: seq<Outbox>, m: Message)
    requires Boxes(out)
  {
    Sends(out, m.src, m.dst) && m.tag < 2 && m.data == Data(out, m.src, m.dst, m.tag)
  }

  /** What the network and the receivers must hold once the flags of m have changed. */
  lemma {:induction false} MessageStep(out: seq<Outbox>, w: World, w': World, m: Message, sent: bool, received: bool)
    requires Inv(out, w) && Shaped(out, w') && Placed(out, w') && IsMessage(out, m)
    requires FlagsAfter(out, w, w', m, sent, received)
    requires sent != Past(w, m.src, m.src, m.dst, m.tag) && !Past(w, m.dst, m.src, m.dst, m.tag)
    requires w'.net == if !received then w.net + multiset{m} else if sent then w.net else w.net - multiset{m}
    requires forall p: nat, src: nat, tag: nat :: p < |out| && src < |out| && tag < 2 ==>
      Got(w', p, src, tag) ==
        if received && p == m.dst && src == m.src && tag == m.tag then m.data else Got(w, p, src, tag)
    requires sent || received
    ensures Inv(out, w')
  {
    forall x: Message
      ensures w'.net[x] == if Flying(out, w', x) then 1 else 0
    {
      if IsMessage(out, x) {
        assert x == m <==> x.src == m.src && x.dst == m.dst && x.tag == m.tag;
      }
    }
  }

  lemma {:induction false} BufferKeeps(out: seq<Outbox>, w: World, w': World, p: nat)
    requires Inv(out, w) && Buffer(out, w, w', p)
    ensures Inv(out, w')
  {
    var m := Outgoing(out, w, p);
    OneMoves(out, w, w', p);
    AdvanceStaysPlaced(out, w, w', p);
    StandsAt(out, w, p);
    assert !Past(w, p, p, m.dst, m.tag);
    MessageStep(out, w, w', m, true, false);
  }

  lemma {:induction false} ReceiveKeeps(out: seq<Outbox>, w: World, w': World, p: nat, m: Message)
    requires Inv(out, w) && Receive(out, w, w', p, m)
    ensures Inv(out, w')
  {
    OneMoves(out, w, w', p);
    AdvanceStaysPlaced(out, w, w', p);
    StandsAt(out, w, p);
    assert Flying(out, w, m);
    MessageStep(out, w, w', m, false, true);
  }

  lemma {:induction false} TransferKeeps(out: seq<Outbox>, w: World, w': World, p: nat, q: nat)
    requires Inv(out, w) && Transfer(out, w, w', p, q)
    ensures Inv(out, w')
  {
    var m := Outgoing(out, w, p);
    var mid := w.(procs := w.procs[p := w.procs[p].Advance(|out|)]);
    OneMoves(out, w, mid, p);
    OneMoves(out, mid, w', q);
    StandsAt(out, w, p);
    StandsAt(out, w, q);
    BothStayPlaced(out, w, w', p, q);
    assert FlagsAfter(out, w, w', m, true, true);
    assert !Past(w, p, p, q, m.tag) && !Past(w, q, p, q, m.tag);
    MessageStep(out, w, w', m, true, true);
  }

  lemma {:induction false} BothStayPlaced(out: seq<Outbox>, w: World, w': World, p: nat, q: nat)
    requires Inv(out, w) && Transfer(out, w, w', p, q) && Shaped(out, w')
    ensures Placed(out, w')
  {
  }

  lemma {:induction false} StepKeeps(out: seq<Outbox>, w: World, w': World)
    requires Inv(out, w) && Step(out, w, w')
    ensures Inv(out, w')
  {
    if p: nat :| Gather(out, w, w', p) {
      GatherKeeps(out, w, w', p);
    } else if p: nat :| Skip(out, w, w', p) {
      SkipKeeps(out, w, w', p);
    } else if p: nat :| Buffer(out, w, w', p) {
      BufferKeeps(out, w, w', p);
    } else if p: nat, m: Message :| Receive(out, w, w', p, m) {
      ReceiveKeeps(out, w, w', p, m);
    } else {
      var p: nat, q: nat :| Transfer(out, w, w', p, q);
      TransferKeeps(out, w, w', p, q);
    }
  }

  // ---------------------------------------------------------------------------------------------
  // Progress
  // ---------------------------------------------------------------------------------------------

  ghost predicate AllDone(out: seq<Outbox>, w: World) {
    forall p: nat :: p < |w.procs| ==> w.procs[p].Done(|out|)
  }

  /** A step that needs no buffer space: sends may all be blocking. */
  ghost predicate ForcedStep(out: seq<Outbox>, w: World, w': World)
    requires Shaped(out, w)
  {
    || (exists p: nat :: Gather(out, w, w', p) || Skip(out, w, w', p))
    || (exists p: nat, m: Message :: Receive(out, w, w', p, m))
    || (exists p: nat, q: nat :: Transfer(out, w, w', p, q))
  }

  lemma {:induction false} Furthest(w: World, n: nat) returns (p: nat)
    requires 0 < n <= |w.procs|
    ensures p < n && forall q: nat :: q < n ==> w.procs[p].at.NotAfter(w.procs[q].at)
  {
    if n == 1 {
      p := 0;
    } else {
      p := Furthest(w, n - 1);
      if w.procs[n - 1].at.Before(w.procs[p].at) {
        p := n - 1;
      }
    }
  }

  /** The process that is furthest behind can move, whoever it has to wait for. */
  lemma {:induction false} NoDeadlock(out: seq<Outbox>, w: World)
    requires Inv(out, w) && !AllDone(out, w)
    ensures exists w': World :: ForcedStep(out, w, w')
  {
    var p := Furthest(w, |out|);
    var n, me := |out|, w.procs[p];
    assert me.at.round < n;
    if me.at.step == 0 {
      var w' := w.(procs := w.procs[p := me.(sizes := Sizes(out, me.at.round)).Advance(n)]);
      assert Gather(out, w, w', p);
      assert ForcedStep(out, w, w');
    } else {
      StandsAt(out, w, p);
      if !me.Active(n) || (p != me.Source() && p != me.at.round) {
        var w' := w.(procs := w.procs[p := me.Advance(n)]);
        assert Skip(out, w, w', p);
        assert ForcedStep(out, w, w');
      } else if p == me.Source() {
        SenderMoves(out, w, p);
      } else {
        ReceiverMoves(out, w, p);
      }
    }
  }

  /** A sender furthest behind: its receiver cannot be ahead, so it is there to take the message. */
  lemma {:induction false} SenderMoves(out: seq<Outbox>, w: World, p: nat)
    requires Inv(out, w) && Sending(out, w, p)
    requires forall q: nat :: q < |out| ==> w.procs[p].at.NotAfter(w.procs[q].at)
    ensures exists w': World :: ForcedStep(out, w, w')
  {
    var me, q := w.procs[p], w.procs[p].at.round;
    StandsAt(out, w, p);
    assert Past(w, q, p, q, me.Tag()) ==> Past(w, p, p, q, me.Tag());
    Together(out, w, p, q);
  }

  lemma {:induction false} Together(out: seq<Outbox>, w: World, p: nat, q: nat)
    requires Inv(out, w) && Sending(out, w, p) && q == w.procs[p].at.round && q != p
    requires w.procs[q].at == w.procs[p].at
    ensures exists w': World :: ForcedStep(out, w, w')
  {
    var me, n := w.procs[p], |out|;
    StandsAt(out, w, p);
    StandsAt(out, w, q);
    var w' := w.(procs := w.procs[p := me.Advance(n)]
      [q := w.procs[q].Store(p, me.Tag(), Outgoing(out, w, p).data).Advance(n)]);
    assert Transfer(out, w, w', p, q);
    assert ForcedStep(out, w, w');
  }

  /** A receiver furthest behind: its sender is there, or has already left its message. */
  lemma {:induction false} ReceiverMoves(out: seq<Outbox>, w: World, p: nat)
    requires Inv(out, w) && Receiving(out, w, p)
    requires forall q: nat :: q < |out| ==> w.procs[p].at.NotAfter(w.procs[q].at)
    ensures exists w': World :: ForcedStep(out, w, w')
  {
    var me, n := w.procs[p], |out|;
    StandsAt(out, w, p);
    var src := me.Source();
    if w.procs[src].at == me.at {
      StandsAt(out, w, src);
      Together(out, w, src, p);
    } else {
      var m := Message(src, p, me.Tag(), Data(out, src, p, me.Tag()));
      assert Flying(out, w, m);
      assert w.net[m] == 1;
      var w' := World(w.procs[p := me.Store(src, m.tag, m.data).Advance(n)], w.net - multiset{m});
      assert Receive(out, w, w', p, m);
      assert ForcedStep(out, w, w');
    }
  }

  // ---------------------------------------------------------------------------------------------
  // Runs
  // ---------------------------------------------------------------------------------------------

  ghost predicate IsRun(out: seq<Outbox>, run: seq<World>) {
    && Boxes(out) && |run| > 0 && Init(out, run[0])
    && forall i: nat :: i + 1 < |run| ==> Shaped(out, run[i]) && Step(out, run[i], run[i + 1])
  }

  lemma {:induction false} RunKeeps(out: seq<Outbox>, run: seq<World>, i: nat)
    requires IsRun(out, run) && i < |run|
    ensures Inv(out, run[i])
  {
    if i == 0 {
      InitKeeps(out, run[0]);
    } else {
      RunKeeps(out, run, i - 1);
      StepKeeps(out, run[i - 1], run[i - 1 + 1]);
    }
  }

  /** No step is left, even if no send may be buffered. */
  ghost predicate Stuck(out: seq<Outbox>, w: World) {
    Shaped(out, w) ==> forall w': World :: !ForcedStep(out, w, w')
  }

  /** However the steps were interleaved, a run that cannot go on has delivered everything, once. */
  lemma {:induction false} ExchangeDelivers(out: seq<Outbox>, run: seq<World>)
    requires IsRun(out, run)
    requires Stuck(out, run[|run| - 1])
    ensures var w := run[|run| - 1];
      && Shaped(out, w) && AllDone(out, w) && w.net == multiset{}
      && forall p: nat, src: nat, tag: nat :: p < |out| && src < |out| && tag < 2 ==>
           Got(w, p, src, tag) == if Sends(out, src, p) then Data(out, src, p, tag) else []
  {
    var w := run[|run| - 1];
    RunKeeps(out, run, |run| - 1);
    if !AllDone(out, w) {
      NoDeadlock(out, w);
    }
    forall p: nat, src: nat, dst: nat, tag: nat | p < |out| && src < |out| && dst < |out| && tag < 2
      ensures Past(w, p, src, dst, tag)
    {
    }
    assert forall m: Message :: !Flying(out, w, m);
    assert forall m: Message :: w.net[m] == 0;
  }

  /** How many points a process still has to pass. */
  function Left(n: nat, at: Point): int {
    (n - at.round) * (2 * n + 1) - at.step
  }

  function Remaining(n: nat, procs: seq<Process>, m: nat): int
    requires m <= |procs|
  {
    if m == 0 then 0 else Remaining(n, procs, m - 1) + Left(n, procs[m - 1].at)
  }

  lemma {:induction false} AdvanceShortens(n: nat, at: Point)
    requires at.step <= 2 * n
    ensures Left(n, at.Next(n)) == Left(n, at) - 1
  {
    assert (n - (at.round + 1)) * (2 * n + 1) == (n - at.round) * (2 * n + 1) - (2 * n + 1);
  }

  lemma {:induction false} LeftIsNatural(n: nat, at: Point)
    requires at.round <= n && at.step <= 2 * n && (at.round == n ==> at.step == 0)
    ensures Left(n, at) >= 0
  {
    if at.round < n {
      AtLeastOnce(n - at.round, 2 * n + 1);
    }
  }

  lemma {:induction false} AtLeastOnce(k: int, x: nat)
    requires k >= 1
    ensures k * x >= x
  {
    assert k * x == (k - 1) * x + x;
  }

  lemma {:induction false} RemainingIsNatural(out: seq<Outbox>, w: World, m: nat)
    requires Inv(out, w) && m <= |out|
    ensures Remaining(|out|, w.procs, m) >= 0
  {
    if m == 0 {
    } else {
      RemainingIsNatural(out, w, m - 1);
      LeftIsNatural(|out|, w.procs[m - 1].at);
    }
  }

  /** Every process stays or advances by one point. */
  ghost predicate Moves(n: nat, before: seq<Process>, after: seq<Process>) {
    && |before| == |after|
    && forall p: nat :: p < |before| ==>
         before[p].at.step <= 2 * n && (after[p].at == before[p].at || after[p].at == before[p].at.Next(n))
  }

  lemma {:induction false} RemainingDrops(n: nat, before: seq<Process>, after: seq<Process>, p: nat, m: nat)
    requires Moves(n, before, after) && p < |before| && after[p].at == before[p].at.Next(n) && m <= |before|
    ensures Remaining(n, after, m) <= Remaining(n, before, m) - (if p < m then 1 else 0)
  {
    if m == 0 {
    } else {
      RemainingDrops(n, before, after, p, m - 1);
      AdvanceShortens(n, before[m - 1].at);
    }
  }

  lemma {:induction false} ReceiveMoves(out: seq<Outbox>, w: World, w': World, p: nat, m: Message)
    requires Shaped(out, w) && Receive(out, w, w', p, m)
    ensures Moves(|out|, w.procs, w'.procs) && w'.procs[p].at == w.procs[p].at.Next(|out|)
  {
  }

  lemma {:induction false} TransferMoves(out: seq<Outbox>, w: World, w': World, p: nat, q: nat)
    requires Shaped(out, w) && Transfer(out, w, w', p, q)
    ensures Moves(|out|, w.procs, w'.procs) && w'.procs[p].at == w.procs[p].at.Next(|out|)
  {
  }

  lemma {:induction false} GatherMoves(out: seq<Outbox>, w: World, w': World, p: nat)
    requires Shaped(out, w) && Gather(out, w, w', p)
    ensures Moves(|out|, w.procs, w'.procs) && w'.procs[p].at == w.procs[p].at.Next(|out|)
  {
  }

  lemma {:induction false} SkipMoves(out: seq<Outbox>, w: World, w': World, p: nat)
    requires Shaped(out, w) && Skip(out, w, w', p)
    ensures Moves(|out|, w.procs, w'.procs) && w'.procs[p].at == w.procs[p].at.Next(|out|)
  {
  }

  lemma {:induction false} BufferMoves(out: seq<Outbox>, w: World, w': World, p: nat)
    requires Shaped(out, w) && Buffer(out, w, w', p)
    ensures Moves(|out|, w.procs, w'.procs) && w'.procs[p].at == w.procs[p].at.Next(|out|)
  {
  }

  lemma {:induction false} StepMoves(out: seq<Outbox>, w: World, w': World) returns (p: nat)
    requires Shaped(out, w) && Step(out, w, w')
    ensures p < |out| && Moves(|out|, w.procs, w'.procs) && w'.procs[p].at == w.procs[p].at.Next(|out|)
  {
    if q: nat, m: Message :| Receive(out, w, w', q, m) {
      p := q;
      ReceiveMoves(out, w, w', q, m);
    } else if q: nat, r: nat :| Transfer(out, w, w', q, r) {
      p := q;
      TransferMoves(out, w, w', q, r);
    } else {
      p :| Gather(out, w, w', p) || Skip(out, w, w', p) || Buffer(out, w, w', p);
      if Gather(out, w, w', p) {
        GatherMoves(out, w, w', p);
      } else if Skip(out, w, w', p) {
        SkipMoves(out, w, w', p);
      } else {
        BufferMoves(out, w, w', p);
      }
    }
  }

  lemma {:induction false} StepShortens(out: seq<Outbox>, w: World, w': World)
    requires Inv(out, w) && Step(out, w, w')
    ensures |w'.procs| == |out| && Remaining(|out|, w'.procs, |out|) < Remaining(|out|, w.procs, |out|)
  {
    var p := StepMoves(out, w, w');
    RemainingDrops(|out|, w.procs, w'.procs, p, |out|);
  }

  /** Every run ends: it has no more steps than there are points on all the paths together. */
  lemma {:induction false} RunsEnd(out: seq<Outbox>, run: seq<World>, i: nat)
    requires IsRun(out, run) && i < |run|
    ensures |run[i].procs| == |out|
    ensures i + Remaining(|out|, run[i].procs, |out|) <= |out| * (|out| * (2 * |out| + 1))
  {
    if i == 0 {
      AtTheStart(|out|, run[0].procs, |out|);
    } else {
      RunsEnd(out, run, i - 1);
      RunKeeps(out, run, i - 1);
      StepShortens(out, run[i - 1], run[i - 1 + 1]);
    }
  }

  lemma {:induction false} AtTheStart(n: nat, procs: seq<Process>, m: nat)
    requires m <= |procs| && forall p: nat :: p < |procs| ==> procs[p].at == Point(0, 0)
    ensures Remaining(n, procs, m) == m * (n * (2 * n + 1))
  {
    if m == 0 {
    } else {
      AtTheStart(n, procs, m - 1);
      assert (m - 1) * (n * (2 * n + 1)) + n * (2 * n + 1) == m * (n * (2 * n + 1));
    }
  }

  /** The bound on the number of steps, and so on the length of every run. */
  lemma {:induction false} RunIsBounded(out: seq<Outbox>, run: seq<World>)
    requires IsRun(out, run)
    ensures |run| - 1 <= |out| * (|out| * (2 * |out| + 1))
  {
    RunsEnd(out, run, |run| - 1);
    RunKeeps(out, run, |run| - 1);
    RemainingIsNatural(out, run[|run| - 1], |out|);
  }
}
