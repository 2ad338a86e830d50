/**
 The two pump threads of minadbd/transport.c and the event loop, interleaved in every possible way.

 The threads share `sync_token`, `kicked` and `ref_count` and are connected to the event loop by a
 socket pair: `toLoop` carries packets from the output thread, `toThread` packets to the input thread.
 */
module Transport {
  /** SYNC(arg0, arg1) or any other packet. */
  datatype Packet = Sync(online: bool, token: nat) | Data(payload: int)

  /** kick_transport and transport_unref as a leaving thread runs them. */
  datatype Leaving =
    | Check    // line 68: look at `kicked` without the lock
    | Lock     // lines 72-76: test and set `kicked` under the lock
    | Kick     // line 79: call t->kick outside the lock
    | Unref    // lines 570-577
    | Gone

  datatype OutputPc = Bump | Announce | Pump | Farewell | OutLeaves(at: Leaving)

  datatype InputPc = Reading | Closing | InLeaves(at: Leaving)

  /**
   `sent` is everything given to send_packet and `consumed` the part the input thread has read;
   `passed` went to write_to_remote.
   */
  datatype Wires = Wires(
    token: nat, toLoop: seq<Packet>, toThread: seq<Packet>, sent: seq<Packet>, consumed: seq<Packet>,
    active: bool, passed: seq<Packet>)

  /** The fields under transport_lock; `kicks` and `removals` count calls of t->kick and posted removals. */
  datatype Shared = Shared(kicked: bool, kicks: nat, refs: int, removals: nat)

  datatype State = State(base: nat, wires: Wires, shared: Shared, output: OutputPc, input: InputPc, freed: bool)

  /** transport_registration_func has just started the threads. */
  predicate Init(s: State) {
    s == State(s.base, Wires(s.base, [], [], [], [], false, []), Shared(false, 0, 2, 0), Bump, Reading, false)
  }

  // ----- leaving -----

  /** One step of a leaving thread on the shared fields; the result is where the thread is then. */
  function LeaveStep(s: Shared, at: Leaving): (r: (Shared, Leaving)) {
    match at
    case Check => (s, if s.kicked then Unref else Lock)
    case Lock => if s.kicked then (s, Unref) else (s.(kicked := true), Kick)
    case Kick => (s.(kicks := s.kicks + 1), Unref)
    case Unref =>
      var t := s.(refs := s.refs - 1);
      if t.refs == 0 then
        var u := if t.kicked then t else t.(kicked := true, kicks := t.kicks + 1);
        (u.(removals := u.removals + 1), Gone)
      else (t, Gone)
    case Gone => (s, Gone)
  }

  predicate OutputLeaves(s: State, t: State) {
    s.output.OutLeaves? && s.output.at != Gone &&
    var (u, at) := LeaveStep(s.shared, s.output.at);
    t == s.(shared := u, output := OutLeaves(at))
  }

  predicate InputLeaves(s: State, t: State) {
    s.input.InLeaves? && s.input.at != Gone &&
    var (u, at) := LeaveStep(s.shared, s.input.at);
    t == s.(shared := u, input := InLeaves(at))
  }

  // ----- output_thread -----

  function Deliver(w: Wires, p: Packet): (v: Wires) {
    w.(toLoop := w.toLoop + [p])
  }

  /** Lines 260-308; any write may fail, and the remote may deliver any packet. */
  ghost predicate OutputStep(s: State, t: State) {
    match s.output
    case Bump => t == s.(wires := s.wires.(token := s.wires.token + 1), output := Announce)
    case Announce =>
      || t == s.(output := Pump, wires := Deliver(s.wires, Sync(true, s.wires.token)))
      || t == s.(output := OutLeaves(Check))
    case Pump =>
      || (exists p: Packet :: t == s.(wires := Deliver(s.wires, p)))
      || t == s.(output := Farewell) || t == s.(output := OutLeaves(Check))
    case Farewell =>
      || t == s.(output := OutLeaves(Check), wires := Deliver(s.wires, Sync(false, 0)))
      || t == s.(output := OutLeaves(Check))
    case OutLeaves(_) => OutputLeaves(s, t)
  }

  // ----- input_thread -----

  /** Lines 320-348 for the packet at the head of the queue; a SYNC offline ends the loop. */
  function Consume(w: Wires): (v: Wires)
    requires w.toThread != []
  {
    var p := w.toThread[0];
    var u := w.(toThread := w.toThread[1..], consumed := w.consumed + [p]);
    if p.Sync? then (if p.online && p.token == w.token then u.(active := true) else u)
    else if w.active then u.(passed := w.passed + [p])
    else u
  }

  ghost predicate InputStep(s: State, t: State) {
    match s.input
    case Reading =>
      || (s.wires.toThread != [] &&
          t == s.(wires := Consume(s.wires), input := if s.wires.toThread[0].Sync? && !s.wires.toThread[0].online
              then Closing else Reading))
      || t == s.(input := Closing)
    case Closing => (exists ps :: Plain(ps) && t == s.(wires := Send(s.wires, ps))) || t == s.(input := InLeaves(Check))
    case InLeaves(_) => InputLeaves(s, t)
  }

  // ----- the event loop -----

  predicate Plain(ps: seq<Packet>) {
    forall i :: 0 <= i < |ps| ==> ps[i].Data?
  }

  function Send(w: Wires, ps: seq<Packet>): (v: Wires) {
    w.(toThread := w.toThread + ps, sent := w.sent + ps)
  }

  /** handle_packet: a SYNC is sent back, after whatever its handling sends; other packets send anything but SYNCs. */
  function Handle(w: Wires, ps: seq<Packet>): (v: Wires)
    requires w.toLoop != []
  {
    Send(w.(toLoop := w.toLoop[1..]), ps + if w.toLoop[0].Sync? then [w.toLoop[0]] else [])
  }

  ghost predicate LoopStep(s: State, t: State) {
    || (s.wires.toLoop != [] && (exists ps :: Plain(ps) && t == s.(wires := Handle(s.wires, ps))))
    || (exists ps :: Plain(ps) && t == s.(wires := Send(s.wires, ps)))
    || (s.shared.removals > 0 && t == s.(freed := true))
  }

  /** Any of the three moves, as long as the transport exists. */
  ghost predicate Step(s: State, t: State) {
    !s.freed && (OutputStep(s, t) || InputStep(s, t) || LoopStep(s, t))
  }

  // ----- the invariant -----

  /** The packets that may go to the remote: everything but SYNCs, after the first SYNC with the token. */
  ghost function Relayed(ps: seq<Packet>, token: nat): seq<Packet> {
    if ps == [] then []
    else
      var last, front := ps[|ps|-1], ps[..|ps|-1];
      Relayed(front, token) + if last.Data? && Sync(true, token) in front then [last] else []
  }

  /** Nothing is lost, invented or reordered between event loop and remote. */
  ghost predicate Flow(w: Wires) {
    && w.sent == w.consumed + w.toThread
    && w.active == (Sync(true, w.token) in w.consumed)
    && w.passed == Relayed(w.consumed, w.token)
  }

  /** Before the output thread's SYNC is on its way there is none anywhere. */
  ghost predicate Quiet(w: Wires) {
    w.toLoop == [] && Plain(w.sent)
  }

  ghost predicate Ordered(s: State) {
    && Flow(s.wires)
    && s.wires.token == (if s.output.Bump? then s.base else s.base + 1)
    && (s.output.Bump? || s.output.Announce? ==> Quiet(s.wires))
  }

  function Count(b: bool): nat {
    if b then 1 else 0
  }

  /**
   Shutdown, with the two threads in either order: one kick, pending or done, once anyone has passed the
   check; one removal, after both references are gone.
   */
  predicate Counted(s: Shared, here: Exit, there: Exit) {
    && s.refs == 2 - Count(here == At(Gone)) - Count(there == At(Gone))
    && s.kicks + Count(here == At(Kick)) + Count(there == At(Kick)) == Count(s.kicked)
    && (here.At? && here.at in {Unref, Gone, Kick} ==> s.kicked)
    && (there.At? && there.at in {Unref, Gone, Kick} ==> s.kicked)
    && s.removals == Count(s.refs == 0)
  }

  /** Where a thread is in its exit, if it is leaving at all. */
  datatype Exit = Working | At(at: Leaving)

  function OutputAt(pc: OutputPc): (r: Exit) { if pc.OutLeaves? then At(pc.at) else Working }
  function InputAt(pc: InputPc): (r: Exit) { if pc.InLeaves? then At(pc.at) else Working }

  ghost predicate Inv(s: State) {
    && Ordered(s)
    && Counted(s.shared, OutputAt(s.output), InputAt(s.input))
    && (s.freed ==> s.shared.refs == 0)
  }

  lemma LeaveCounted(s: Shared, at: Leaving, there: Exit)
    requires Counted(s, At(at), there) && at != Gone
    ensures Counted(LeaveStep(s, at).0, At(LeaveStep(s, at).1), there)
  {
  }

  lemma CountedSymmetric(s: Shared, here: Exit, there: Exit)
    ensures Counted(s, here, there) == Counted(s, there, here)
  {
  }

  lemma CountedStarts(s: Shared, there: Exit)
    requires Counted(s, Working, there)
    ensures Counted(s, At(Check), there)
  {
  }

  lemma OutputCounted(s: State, t: State)
    requires Inv(s) && OutputStep(s, t)
    ensures Counted(t.shared, OutputAt(t.output), InputAt(t.input)) && t.freed == s.freed
  {
    hide Counted, LeaveStep, Ordered, Deliver;
    if s.output.OutLeaves? {
      LeaveCounted(s.shared, s.output.at, InputAt(s.input));
    } else {
      CountedStarts(s.shared, InputAt(s.input));
    }
  }

  lemma InputCounted(s: State, t: State)
    requires Inv(s) && InputStep(s, t)
    ensures Counted(t.shared, OutputAt(t.output), InputAt(t.input)) && t.freed == s.freed
  {
    hide Counted, LeaveStep, Ordered, Consume, Send;
    CountedSymmetric(s.shared, OutputAt(s.output), InputAt(s.input));
    CountedSymmetric(t.shared, OutputAt(t.output), InputAt(t.input));
    if s.input.InLeaves? {
      LeaveCounted(s.shared, s.input.at, OutputAt(s.output));
    } else {
      CountedStarts(s.shared, OutputAt(s.output));
    }
  }

  /** No step of a leaving thread happens after the removal, so a freed transport has no references. */
  lemma FreedStays(s: State, t: State)
    requires Inv(s) && Step(s, t)
    ensures t.freed ==> t.shared.refs == 0
  {
    hide Ordered, OutputStep, InputStep, Deliver, Consume, Send, Handle;
    if !LoopStep(s, t) {
      if OutputStep(s, t) { OutputCounted(s, t); } else { InputCounted(s, t); }
    }
  }

  lemma LoopCounted(s: State, t: State)
    requires Inv(s) && LoopStep(s, t)
    ensures Counted(t.shared, OutputAt(t.output), InputAt(t.input))
  {
    hide Counted, Ordered, Send, Handle;
  }

  lemma {:induction false} RelayedNone(ps: seq<Packet>, token: nat)
    requires Sync(true, token) !in ps
    ensures Relayed(ps, token) == []
    decreases |ps|
  {
    if ps != [] {
      RelayedNone(ps[..|ps|-1], token);
    }
  }

  lemma RelayedSnoc(ps: seq<Packet>, p: Packet, token: nat)
    ensures Relayed(ps + [p], token) == Relayed(ps, token) + if p.Data? && Sync(true, token) in ps then [p] else []
    ensures Sync(true, token) in ps + [p] <==> Sync(true, token) in ps || p == Sync(true, token)
  {
    var all := ps + [p];
    assert all[..|all|-1] == ps && all[|all|-1] == p;
  }

  lemma ConsumeFlow(w: Wires)
    requires Flow(w) && w.toThread != []
    ensures Flow(Consume(w))
  {
    hide Relayed;
    var p := w.toThread[0];
    RelayedSnoc(w.consumed, p, w.token);
    assert w.toThread == [p] + w.toThread[1..];
    assert w.consumed + w.toThread == w.consumed + [p] + w.toThread[1..];
    assert w.passed + [] == w.passed;
  }

  lemma SendFlow(w: Wires, ps: seq<Packet>)
    requires Flow(w)
    ensures Flow(Send(w, ps))
  {
    hide Relayed;
    assert w.consumed + w.toThread + ps == w.consumed + (w.toThread + ps);
  }

  lemma BumpFlow(w: Wires)
    requires Flow(w) && Quiet(w)
    ensures Flow(w.(token := w.token + 1))
  {
    assert forall i :: 0 <= i < |w.consumed| ==> w.consumed[i] == w.sent[i];
    RelayedNone(w.consumed, w.token);
    RelayedNone(w.consumed, w.token + 1);
  }

  lemma DeliverFlow(w: Wires, p: Packet)
    requires Flow(w)
    ensures Flow(Deliver(w, p)) && Deliver(w, p).token == w.token
  {
    hide Relayed;
  }

  lemma OutputOrdered(s: State, t: State)
    requires Ordered(s) && OutputStep(s, t)
    ensures Ordered(t)
  {
    hide Flow, LeaveStep, Deliver;
    match s.output {
      case Bump => BumpFlow(s.wires);
      case Announce => DeliverFlow(s.wires, Sync(true, s.wires.token));
      case Pump =>
        if p: Packet :| t == s.(wires := Deliver(s.wires, p)) {
          DeliverFlow(s.wires, p);
        }
      case Farewell => DeliverFlow(s.wires, Sync(false, 0));
      case OutLeaves(_) =>
    }
  }

  lemma InputOrdered(s: State, t: State)
    requires Ordered(s) && InputStep(s, t)
    ensures Ordered(t)
  {
    hide Flow, LeaveStep;
    if s.input.Reading? && s.wires.toThread != [] {
      ConsumeFlow(s.wires);
    } else if s.input.Closing? {
      if ps :| Plain(ps) && t == s.(wires := Send(s.wires, ps)) {
        SendFlow(s.wires, ps);
      }
    }
  }

  lemma LoopOrdered(s: State, t: State)
    requires Ordered(s) && LoopStep(s, t)
    ensures Ordered(t)
  {
    hide Flow;
    if ps :| s.wires.toLoop != [] && Plain(ps) && t == s.(wires := Handle(s.wires, ps)) {
      var w := s.wires.(toLoop := s.wires.toLoop[1..]);
      HandledFlow(s.wires);
      SendFlow(w, ps + if s.wires.toLoop[0].Sync? then [s.wires.toLoop[0]] else []);
    } else if ps :| Plain(ps) && t == s.(wires := Send(s.wires, ps)) {
      SendFlow(s.wires, ps);
    }
  }

  lemma HandledFlow(w: Wires)
    requires Flow(w) && w.toLoop != []
    ensures Flow(w.(toLoop := w.toLoop[1..]))
  {
    hide Relayed;
  }

  lemma StepInv(s: State, t: State)
    requires Inv(s) && Step(s, t)
    ensures Inv(t)
  {
    hide Ordered, Counted, OutputStep, InputStep, LoopStep;
    FreedStays(s, t);
    if OutputStep(s, t) {
      OutputOrdered(s, t);
      OutputCounted(s, t);
    } else if InputStep(s, t) {
      InputOrdered(s, t);
      InputCounted(s, t);
    } else {
      LoopOrdered(s, t);
      LoopCounted(s, t);
    }
  }

  // ----- whole runs -----

  ghost predicate Run(h: seq<State>) {
    h != [] && Init(h[0]) && forall i :: 0 <= i < |h| - 1 ==> Step(h[i], h[i+1])
  }

  lemma {:induction false} RunInv(h: seq<State>, i: nat)
    requires Run(h) && i < |h|
    ensures Inv(h[i])
  {
    hide Step, Inv;
    if i > 0 {
      RunInv(h, i - 1);
      assert Step(h[i-1], h[i-1+1]);
      StepInv(h[i-1], h[i]);
    } else {
      InitInv(h[0]);
    }
  }

  lemma InitInv(s: State)
    requires Init(s)
    ensures Inv(s)
  {
  }

  /** `a` is what is left of `b` after dropping some packets. */
  ghost predicate Subsequence(a: seq<Packet>, b: seq<Packet>) {
    if a == [] then true
    else b != [] && (if a[|a|-1] == b[|b|-1] && Subsequence(a[..|a|-1], b[..|b|-1]) then true
        else Subsequence(a, b[..|b|-1]))
  }

  lemma {:induction false} RelayedSubsequence(ps: seq<Packet>, token: nat)
    ensures Subsequence(Relayed(ps, token), ps)
    decreases |ps|
  {
    if ps != [] {
      RelayedSubsequence(ps[..|ps|-1], token);
      var r := Relayed(ps, token);
      var f := Relayed(ps[..|ps|-1], token);
      if r != f {
        assert r[..|r|-1] == f;
      }
    }
  }

  lemma {:induction false} SubsequenceExtend(a: seq<Packet>, b: seq<Packet>, more: seq<Packet>)
    requires Subsequence(a, b)
    ensures Subsequence(a, b + more)
    decreases |more|
  {
    if more == [] {
      assert b + more == b;
    } else {
      SubsequenceExtend(a, b, more[..|more|-1]);
      assert (b + more)[..|b+more|-1] == b + more[..|more|-1];
    }
  }

  /**
   For every schedule: what reached the remote is an in-order subsequence of what was sent, namely the
   packets read after the SYNC that carries the current token, and nothing before it.
   */
  lemma RemoteSeesOrderedStream(h: seq<State>, i: nat)
    requires Run(h) && i < |h|
    ensures var w := h[i].wires;
      && Subsequence(w.passed, w.sent)
      && w.consumed <= w.sent && w.passed == Relayed(w.consumed, w.token)
      && (w.passed != [] ==> Sync(true, w.token) in w.consumed && w.token == h[i].base + 1)
  {
    hide Run, Relayed, Subsequence, Counted;
    RunInv(h, i);
    var w := h[i].wires;
    RelayedSubsequence(w.consumed, w.token);
    SubsequenceExtend(w.passed, w.consumed, w.toThread);
    if Sync(true, w.token) !in w.consumed {
      RelayedNone(w.consumed, w.token);
    } else {
      var k :| 0 <= k < |w.consumed| && w.consumed[k] == Sync(true, w.token);
      assert w.sent[k] == Sync(true, w.token);
    }
  }

  /**
   For every schedule: t->kick runs at most once and the removal is posted at most once; the removal
   exactly when both threads have dropped their references, and the kick has run by then.  The
   transport is never freed under a running thread.
   */
  lemma OneKickOneRemoval(h: seq<State>, i: nat)
    requires Run(h) && i < |h|
    ensures var s := h[i]; var both := s.output == OutLeaves(Gone) && s.input == InLeaves(Gone);
      && s.shared.kicks <= 1 && s.shared.removals <= 1
      && (s.shared.removals == 1 <==> both)
      && (both ==> s.shared.kicks == 1)
      && (s.freed ==> both)
  {
    hide Run, Ordered;
    RunInv(h, i);
  }

  /** A SYNC offline is the last packet that the input thread reads. */
  ghost predicate Offline(s: State) {
    forall i :: 0 <= i < |s.wires.consumed| && s.wires.consumed[i].Sync? && !s.wires.consumed[i].online ==>
      i == |s.wires.consumed| - 1 && !s.input.Reading?
  }

  lemma OfflineStep(s: State, t: State)
    requires Offline(s) && Step(s, t)
    ensures Offline(t)
  {
    hide LeaveStep;
  }

  /** For every schedule: nothing is read, or goes to the remote, behind a SYNC offline. */
  lemma {:induction false} OfflineIsLast(h: seq<State>, i: nat)
    requires Run(h) && i < |h|
    ensures Offline(h[i])
  {
    hide Step;
    if i > 0 {
      OfflineIsLast(h, i - 1);
      assert Step(h[i-1], h[i-1+1]);
      OfflineStep(h[i-1], h[i]);
    }
  }

  // ----- the stream starts -----

  /**
   The SYNC of the output thread has come back, and nothing but plain packets in front of it, or it is next for
   the event loop, which has sent nothing but plain packets yet.
   */
  ghost predicate Announced(w: Wires) {
    || (exists k :: 0 <= k < |w.sent| && Plain(w.sent[..k]) && w.sent[k] == Sync(true, w.token))
    || (Plain(w.sent) && w.toLoop != [] && w.toLoop[0] == Sync(true, w.token))
  }

  lemma SentMore(w: Wires, ps: seq<Packet>)
    requires Announced(w) && (Plain(w.sent) ==> Plain(ps))
    ensures Announced(Send(w, ps))
  {
    if k :| 0 <= k < |w.sent| && Plain(w.sent[..k]) && w.sent[k] == Sync(true, w.token) {
      assert (w.sent + ps)[..k] == w.sent[..k];
    }
  }

  lemma AnnouncedHandled(w: Wires, ps: seq<Packet>)
    requires Announced(w) && w.toLoop != [] && Plain(ps)
    ensures Announced(Handle(w, ps))
  {
    var more := ps + if w.toLoop[0].Sync? then [w.toLoop[0]] else [];
    var v := w.(toLoop := w.toLoop[1..]);
    if k :| 0 <= k < |w.sent| && Plain(w.sent[..k]) && w.sent[k] == Sync(true, w.token) {
      assert !Plain(w.sent);
      assert v.sent == w.sent && Announced(v);
      SentMore(v, more);
    } else {
      var k := |w.sent| + |ps|;
      assert (w.sent + more)[..k] == w.sent + ps && (w.sent + more)[k] == w.toLoop[0];
    }
  }

  lemma AnnouncedOutput(s: State, t: State)
    requires OutputStep(s, t) && !s.output.Bump?
    requires Announced(s.wires) || (s.output.Announce? && Quiet(s.wires))
    ensures !t.output.Bump? && (Announced(s.wires) || t.output.Pump? ==> Announced(t.wires))
  {
    hide LeaveStep, Plain;
  }

  lemma AnnouncedInput(s: State, t: State)
    requires InputStep(s, t) && Announced(s.wires)
    ensures Announced(t.wires) && t.output == s.output
  {
    hide LeaveStep;
    if ps :| Plain(ps) && t.wires == Send(s.wires, ps) {
      SentMore(s.wires, ps);
    }
  }

  lemma AnnouncedLoop(s: State, t: State)
    requires LoopStep(s, t) && Announced(s.wires)
    ensures Announced(t.wires) && t.output == s.output
  {
    hide Announced, Handle, Send;
    if ps :| s.wires.toLoop != [] && Plain(ps) && t == s.(wires := Handle(s.wires, ps)) {
      AnnouncedHandled(s.wires, ps);
    } else if ps :| Plain(ps) && t == s.(wires := Send(s.wires, ps)) {
      SentMore(s.wires, ps);
    }
  }

  lemma AnnouncedStep(s: State, t: State)
    requires Step(s, t) && !s.output.Bump?
    requires Announced(s.wires) || (s.output.Announce? && Quiet(s.wires))
    ensures !t.output.Bump? && (Announced(s.wires) ==> Announced(t.wires))
    ensures t.output.Pump? ==> Announced(t.wires)
  {
    hide OutputStep, InputStep, LoopStep, Announced, Quiet;
    if OutputStep(s, t) {
      AnnouncedOutput(s, t);
    } else if Announced(s.wires) {
      if InputStep(s, t) { AnnouncedInput(s, t); } else { AnnouncedLoop(s, t); }
    } else {
      OthersKeepOutput(s, t);
    }
  }

  lemma OthersKeepOutput(s: State, t: State)
    requires InputStep(s, t) || LoopStep(s, t)
    ensures t.output == s.output
  {
    hide Consume, Send, Handle, LeaveStep;
  }

  /** Once the data pump has been started the SYNC is on its way back, or back, first of all SYNCs. */
  lemma {:induction false} PumpAnnounced(h: seq<State>, i: nat)
    requires Run(h) && i < |h|
    ensures h[i].output.Bump? || h[i].output.Announce? || h[i].output.OutLeaves? || Announced(h[i].wires)
    ensures h[i].output.Pump? ==> Announced(h[i].wires)
  {
    hide Step, Announced, Flow, Quiet, Counted;
    if i > 0 {
      PumpAnnounced(h, i - 1);
      RunInv(h, i - 1);
      assert Step(h[i-1], h[i-1+1]);
      if h[i-1].output.OutLeaves? || h[i-1].output.Bump? {
        NotYet(h[i-1], h[i]);
      } else {
        AnnouncedStep(h[i-1], h[i]);
        if h[i].output.Farewell? { PumpFirst(h[i-1], h[i]); }
      }
    }
  }

  lemma NotYet(s: State, t: State)
    requires Step(s, t) && (s.output.OutLeaves? || s.output.Bump?)
    ensures t.output.Bump? || t.output.Announce? || t.output.OutLeaves?
  {
    hide Consume, Send, Handle, LeaveStep, Deliver;
  }

  lemma PumpFirst(s: State, t: State)
    requires Step(s, t) && t.output.Farewell?
    ensures s.output.Pump? || s.output.Farewell?
  {
    hide Consume, Send, Handle, LeaveStep, Deliver;
  }

  /** For every schedule: a SYNC that has been announced is never lost. */
  lemma {:induction false} AnnouncedStays(h: seq<State>, k: nat, i: nat)
    requires Run(h) && k <= i < |h| && h[k].output.Pump?
    ensures Announced(h[i].wires) && !h[i].output.Bump?
    decreases i
  {
    hide Step, Announced, Quiet;
    if i == k {
      PumpAnnounced(h, i);
    } else {
      AnnouncedStays(h, k, i - 1);
      assert Step(h[i-1], h[i-1+1]);
      AnnouncedStep(h[i-1], h[i]);
    }
  }

  ghost predicate Leads(s: State, t: State) {
    exists h: seq<State> :: h != [] && h[0] == s && h[|h|-1] == t && forall i :: 0 <= i < |h| - 1 ==> Step(h[i], h[i+1])
  }

  lemma LeadsNowhere(s: State)
    ensures Leads(s, s)
  {
    assert [s][0] == s;
  }

  lemma LeadsOn(s: State, t: State, u: State)
    requires Step(s, t) && Leads(t, u)
    ensures Leads(s, u)
  {
    hide Step;
    var h: seq<State> :|
      h != [] && h[0] == t && h[|h|-1] == u && forall i :: 0 <= i < |h| - 1 ==> Step(h[i], h[i+1]);
    var g := [s] + h;
    forall i | 0 <= i < |g| - 1
      ensures Step(g[i], g[i+1])
    {
      if i > 0 {
        assert g[i] == h[i-1] && g[i+1] == h[i-1+1];
      }
    }
    assert g[|g|-1] == u;
  }

  /** The input thread works through what it has been sent, up to the SYNC at `k`. */
  lemma {:induction false} ReadsUpTo(s: State, k: nat) returns (t: State)
    requires Flow(s.wires) && s.input.Reading? && !s.freed
    requires |s.wires.consumed| <= k < |s.wires.sent| && Plain(s.wires.sent[..k])
    requires s.wires.sent[k] == Sync(true, s.wires.token)
    ensures Leads(s, t) && t == s.(wires := t.wires) && Flow(t.wires)
    ensures t.wires.active && t.wires.sent == s.wires.sent && t.wires.consumed == s.wires.sent[..k+1]
    ensures t.wires.token == s.wires.token && t.wires.toLoop == s.wires.toLoop
    decreases k - |s.wires.consumed|
  {
    hide Relayed, Leads;
    var w := s.wires;
    var p := w.toThread[0];
    assert p == w.sent[|w.consumed|];
    var u := s.(wires := Consume(w));
    ConsumeFlow(w);
    if |w.consumed| < k {
      assert w.sent[..k][|w.consumed|] == p && p.Data?;
    }
    assert InputStep(s, u);
    assert u.wires.consumed + u.wires.toThread == w.sent;
    if |w.consumed| < k {
      t := ReadsUpTo(u, k);
    } else {
      t := u;
      LeadsNowhere(t);
      assert t.wires.consumed == w.sent[..k+1];
    }
    LeadsOn(s, u, t);
  }

  /** As long as the input thread has not given up, it can be made active: the stream to the remote starts. */
  lemma StreamStarts(h: seq<State>, k: nat, i: nat) returns (t: State)
    requires Run(h) && k <= i < |h| && h[k].output.Pump? && h[i].input.Reading? && !h[i].freed
    ensures Leads(h[i], t) && t.wires.active && t.wires.token == h[i].wires.token
  {
    hide Leads, Run, Relayed, Counted;
    AnnouncedStays(h, k, i);
    RunInv(h, i);
    var s := h[i];
    var w := s.wires;
    if n :| 0 <= n < |w.sent| && Plain(w.sent[..n]) && w.sent[n] == Sync(true, w.token) {
      t := StartsFrom(s, n);
    } else {
      var u := s.(wires := Handle(w, []));
      assert Plain([]) && LoopStep(s, u);
      assert [] + [w.toLoop[0]] == [w.toLoop[0]];
      assert u.wires.sent[..|w.sent|] == w.sent;
      HandledFlow(w);
      SendFlow(w.(toLoop := w.toLoop[1..]), [w.toLoop[0]]);
      t := StartsFrom(u, |w.sent|);
      LeadsOn(s, u, t);
    }
  }

  lemma StartsFrom(s: State, k: nat) returns (t: State)
    requires Flow(s.wires) && s.input.Reading? && !s.freed
    requires k < |s.wires.sent| && Plain(s.wires.sent[..k]) && s.wires.sent[k] == Sync(true, s.wires.token)
    ensures Leads(s, t) && t.wires.active && t.wires.token == s.wires.token
  {
    hide Relayed, Leads;
    if k < |s.wires.consumed| {
      t := s;
      LeadsNowhere(t);
      assert s.wires.consumed[k] == s.wires.sent[k];
    } else {
      t := ReadsUpTo(s, k);
    }
  }

  /** Then every packet that is sent can reach the remote, in order. */
  lemma {:induction false} StreamFlows(s: State) returns (t: State)
    requires s.input.Reading? && !s.freed && s.wires.active && Plain(s.wires.toThread)
    ensures Leads(s, t) && t.wires.toThread == [] && t.wires.passed == s.wires.passed + s.wires.toThread
    decreases |s.wires.toThread|
  {
    hide Leads;
    var w := s.wires;
    if w.toThread == [] {
      t := s;
      LeadsNowhere(t);
      assert w.passed + [] == w.passed;
    } else {
      var u := s.(wires := Consume(w));
      assert InputStep(s, u);
      t := StreamFlows(u);
      LeadsOn(s, u, t);
      assert w.toThread == [w.toThread[0]] + w.toThread[1..];
    }
  }
}
