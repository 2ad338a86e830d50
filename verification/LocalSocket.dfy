/**
 One local socket of minadbd: its packet queue, the events it waits for, and the loops that move bytes
 between the queue and the fd.  What the fd does is a script of results, so every behaviour is covered.
 */
module LocalSocket {
  import opened Bytes
  import opened SocketLog
  import FdEvent

  /** The address of a socket. */
  type Ref = nat

  datatype Peer = Nobody | Other(ref: Ref)

  /** FDE_READ and FDE_WRITE; sockets subscribe to nothing else. */
  datatype Mask = Mask(read: bool, write: bool)

  /**
   `want` are the events subscribed to and `got` those reported and not yet handled (FDE_PENDING is set
   while there are any); `bad` means the fd has become invalid, which select can only report as readable.
   */
  datatype Local = Local(
    id: nat, queue: seq<seq<byte>>, closing: bool, peer: Peer, want: Mask, got: Mask, bad: bool, log: seq<Event>)

  /** fdevent_set: it keeps the reported events that are NOT in the new subscription. */
  function FdSet(l: Local, want: Mask): (r: Local) {
    if want == l.want then l
    else l.(want := want, got := Mask(l.got.read && !want.read, l.got.write && !want.write))
  }

  function Flags(m: Mask): (r: set<FdEvent.Flag>) {
    (if m.read then {FdEvent.READ} else {}) + (if m.write then {FdEvent.WRITE} else {})
  }

  /** FdSet is what FdEvent.Loop.Set does to the flags of the socket's fdevent. */
  lemma FdSetAgrees(l: Local, want: Mask)
    ensures var r := FdSet(l, want);
      && Flags(r.want) == Flags(want)
      && Flags(r.got) == if Flags(want) == Flags(l.want) then Flags(l.got) else Flags(l.got) - Flags(want)
  {
    assert FdEvent.READ in Flags(want) <==> want.read;
    assert FdEvent.WRITE in Flags(want) <==> want.write;
    assert FdEvent.READ in Flags(l.want) <==> l.want.read;
    assert FdEvent.WRITE in Flags(l.want) <==> l.want.write;
  }

  function Note(l: Local, e: Event): (r: Local) {
    l.(log := l.log + [e])
  }

  function Flat(q: seq<seq<byte>>): (r: seq<byte>) {
    if q == [] then [] else q[0] + Flat(q[1..])
  }

  function Bit(b: bool): (r: nat) {
    if b then 1 else 0
  }

  // ----- what holds between handlers -----

  /** Bytes: what the host sent is what the fd got, followed by what is queued; what was read was passed on. */
  predicate Conserved(t: Tally, l: Local) {
    && t.accepted == t.written + Flat(l.queue)
    && t.closed == l.closing && !t.ended
    && (!l.closing ==> t.read == t.relayed)
  }

  /**
   Credits: WRTEs sent, plus one if more may be read, never exceed one plus the OKAYs received.  A socket waits
   for data exactly while the host has said that it may send.
   */
  predicate Credited(t: Tally, l: Local) {
    t.writesOut + Bit(l.want.read) <= 1 + t.okaysIn && (!l.closing ==> (l.want.read <==> t.granted))
  }

  /** Every WRTE but the one in progress has its own OKAY exactly if the host always waited for it. */
  predicate Answered(t: Tally, l: Local) {
    && t.okaysOut + Bit(l.queue != []) <= t.writesIn
    && (t.oneAtATime <==> t.okaysOut + Bit(l.queue != []) == t.writesIn)
  }

  predicate Subscribed(l: Local) {
    && (l.want.write <==> l.queue != [])
    && (l.got.write ==> l.want.write)
    && (l.closing ==> l.queue != [] && !l.want.read)
    && (!l.closing && l.got.read ==> l.want.read || l.bad)
  }

  predicate Agrees(t: Tally, l: Local) {
    Conserved(t, l) && Credited(t, l) && Answered(t, l) && Subscribed(l)
  }

  predicate Sound(l: Local) {
    Lawful(l.log) && Agrees(Sum(l.log), l)
  }

  // ----- writing -----

  /** adb_write: it took at most n bytes (none: end of file), EAGAIN, EINTR, another error. */
  datatype WriteResult = Took(n: nat) | Again | Interrupted | Failed

  datatype Outcome = Finished | Blocked | Broken

  /** What a script of writes makes of a packet of `len` bytes: bytes left, how it ended, script left. */
  function Writes(len: nat, ws: seq<WriteResult>, patient: bool): (r: (nat, Outcome, seq<WriteResult>))
    decreases |ws|
  {
    if len == 0 then (0, Finished, ws)
    else if ws == [] then (len, Blocked, [])
    else match ws[0]
      case Took(n) => if n == 0 then (len, Broken, ws[1..]) else Writes(if n < len then len - n else 0, ws[1..],
          patient)
      case Again => (len, Blocked, ws[1..])
      case Interrupted => if patient then Writes(len, ws[1..], patient) else (len, Broken, ws[1..])
      case Failed => (len, Broken, ws[1..])
  }

  /** The same for a whole queue: packets left and how it ended. */
  function Drains(q: seq<seq<byte>>, ws: seq<WriteResult>): (r: (nat, Outcome))
    decreases |q|
  {
    if q == [] then (0, Finished)
    else
      var w := Writes(|q[0]|, ws, true);
      if w.1 == Finished then Drains(q[1..], w.2) else (|q|, w.1)
  }

  /** The answer that local_socket_enqueue owes its caller. */
  function Due(l: Local, len: nat, ws: seq<WriteResult>): (r: Answer) {
    if l.queue != [] then Backlog
    else match Writes(len, ws, false).1
      case Finished => Ready
      case Blocked => Backlog
      case Broken => Lost
  }

  function WroteAll(t: Tally, d: seq<byte>): (r: Tally) {
    t.(written := t.written + d)
  }

  lemma WroteNone(t: Tally)
    ensures WroteAll(t, []) == t
  {
    assert t.written + [] == t.written;
  }

  lemma WroteMore(log: seq<Event>, d: seq<byte>, rest: seq<byte>)
    requires Lawful(log) && !Sum(log).ended && d != [] && Sum(log).accepted == Sum(log).written + d + rest
    ensures Lawful(log + [Wrote(d)]) && Sum(log + [Wrote(d)]) == WroteAll(Sum(log), d)
  {
    hide Lawful, Sum;
    LawfulSnoc(log, Wrote(d));
  }

  /** The inner loop over one packet; local_socket_enqueue gives up on EINTR, local_socket_event_func goes on. */
  method WritePacket(log: seq<Event>, data: seq<byte>, ghost tail: seq<byte>, ws: seq<WriteResult>, patient: bool)
    returns (done: seq<Event>, left: seq<byte>, rest: seq<WriteResult>, outcome: Outcome)
    requires Lawful(log) && !Sum(log).ended && Sum(log).accepted == Sum(log).written + data + tail
    ensures Lawful(done) && |left| <= |data| && left == data[|data|-|left|..]
    ensures Sum(done) == WroteAll(Sum(log), data[..|data|-|left|])
    ensures outcome == Finished <==> left == []
    ensures (|left|, outcome, rest) == Writes(|data|, ws, patient) && Voiced(done) == Voiced(log)
  {
    hide Lawful, Sum, Allowed, Next, Voiced, Writes, WroteAll;
    WroteNone(Sum(log));
    done, left, rest, outcome := log, data, ws, Finished;
    assert data[..0] == [];
    while left != []
      invariant Lawful(done) && |left| <= |data| && left == data[|data|-|left|..]
      invariant Sum(done) == WroteAll(Sum(log), data[..|data|-|left|])
      invariant outcome == Finished && Writes(|left|, rest, patient) == Writes(|data|, ws, patient)
      invariant Voiced(done) == Voiced(log)
      decreases |rest|
    {
      WritesStep(|left|, rest, patient);
      if rest == [] { outcome := Blocked; return; }
      var r := rest[0];
      rest := rest[1..];
      match r {
        case Took(n) =>
          if n == 0 { outcome := Broken; return; }
          var k := if n < |left| then n else |left|;
          WriteStep(log, done, data, left, tail, k);
          VoicedSnoc(done, Wrote(left[..k]));
          done := done + [Wrote(left[..k])];
          left := left[k..];
        case Again => outcome := Blocked; return;
        case Interrupted =>
          if !patient { outcome := Broken; return; }
        case Failed => outcome := Broken; return;
      }
    }
    WritesStep(0, rest, patient);
  }

  lemma WritesStep(len: nat, ws: seq<WriteResult>, patient: bool)
    ensures len == 0 ==> Writes(len, ws, patient) == (0, Finished, ws)
    ensures len > 0 && ws == [] ==> Writes(len, ws, patient) == (len, Blocked, [])
    ensures len > 0 && ws != [] ==>
      (match ws[0]
       case Took(n) =>
         Writes(len, ws, patient) ==
         if n == 0 then (len, Broken, ws[1..]) else Writes(if n < len then len - n else 0, ws[1..], patient)
       case Again => Writes(len, ws, patient) == (len, Blocked, ws[1..])
       case Interrupted =>
         Writes(len, ws, patient) == if patient then Writes(len, ws[1..], patient) else (len, Broken, ws[1..])
       case Failed => Writes(len, ws, patient) == (len, Broken, ws[1..]))
  {
  }

  lemma WriteStep(log: seq<Event>, done: seq<Event>, data: seq<byte>, left: seq<byte>, tail: seq<byte>, k: nat)
    requires !Sum(log).ended && Sum(log).accepted == Sum(log).written + data + tail
    requires Lawful(done) && |left| <= |data| && left == data[|data|-|left|..] && 0 < k <= |left|
    requires Sum(done) == WroteAll(Sum(log), data[..|data|-|left|])
    ensures Lawful(done + [Wrote(left[..k])]) && left[k..] == data[|data|-|left[k..]|..]
    ensures Sum(done + [Wrote(left[..k])]) == WroteAll(Sum(log), data[..|data|-|left[k..]|])
  {
    hide Lawful, Sum, Allowed, Next;
    WriteStepBytes(Sum(log).written, data, left, tail, k);
    WroteMore(done, left[..k], left[k..] + tail);
  }

  lemma WriteStepBytes(w: seq<byte>, data: seq<byte>, left: seq<byte>, tail: seq<byte>, k: nat)
    requires |left| <= |data| && left == data[|data|-|left|..] && 0 < k <= |left|
    ensures left[k..] == data[|data|-|left[k..]|..]
    ensures var i := |data| - |left|;
      && w + data + tail == (w + data[..i]) + left[..k] + (left[k..] + tail)
      && (w + data[..i]) + left[..k] == w + data[..|data|-|left[k..]|]
  {
    var i := |data| - |left|;
    assert data[..i+k] == data[..i] + left[..k];
    assert data == data[..i] + left[..k] + left[k..];
  }

  // ----- local_socket_enqueue -----

  datatype Answer = Ready | Backlog | Lost

  lemma {:induction false} FlatSnoc(q: seq<seq<byte>>, p: seq<byte>)
    ensures Flat(q + [p]) == Flat(q) + p
  {
    if q == [] {
      assert Flat([p]) == p + Flat([]);
    } else {
      FlatSnoc(q[1..], p);
      assert (q + [p])[1..] == q[1..] + [p];
      assert q[0] + (Flat(q[1..]) + p) == q[0] + Flat(q[1..]) + p;
    }
  }

  function Queued(l: Local, p: seq<byte>, log: seq<Event>): (r: Local) {
    FdSet(l.(queue := l.queue + [p], log := log), l.want.(write := true))
  }

  lemma QueuedBytes(w: seq<byte>, q: seq<seq<byte>>, p: seq<byte>, left: seq<byte>)
    requires |left| <= |p| && left == p[|p|-|left|..] && (q != [] ==> left == p)
    ensures w + Flat(q) + p == w + p[..|p|-|left|] + Flat(q + [left])
  {
    FlatSnoc(q, left);
    hide Flat;
    if q == [] {
      assert Flat(q) == [] by { FlatNone(); }
      assert p == p[..|p|-|left|] + left;
    } else {
      assert p[..|p|-|left|] == [];
    }
  }

  lemma FlatNone()
    ensures Flat([]) == []
  {
  }

  lemma QueuedAgrees(t: Tally, u: Tally, l: Local, p: seq<byte>, left: seq<byte>, log: seq<Event>)
    requires Agrees(t, l) && !l.closing
    requires |left| <= |p| && left == p[|p|-|left|..] && u == WroteAll(Next(t, GotWrite(p)), p[..|p|-|left|])
    requires l.queue != [] ==> left == p
    ensures Agrees(u, Queued(l, left, log))
  {
    hide Flat;
    QueuedBytes(t.written, l.queue, p, left);
  }

  lemma WholeAgrees(t: Tally, l: Local, p: seq<byte>)
    requires Agrees(t, l) && !l.closing && l.queue == []
    ensures Agrees(Next(WroteAll(Next(t, GotWrite(p)), p), SentOkay), l)
    ensures Allowed(WroteAll(Next(t, GotWrite(p)), p), SentOkay)
  {
  }

  lemma AgreesLog(t: Tally, l: Local, log: seq<Event>)
    requires Agrees(t, l)
    ensures Agrees(t, l.(log := log))
  {
  }

  /**
   The packet is written as far as the fd allows and the rest queued.  The answer is Ready only if all of it,
   and so everything accepted before, is in the fd; the OKAY is then due.  Lost means the fd broke.
   */
  method Enqueue(l: Local, p: seq<byte>, ws: seq<WriteResult>) returns (m: Local, answer: Answer)
    requires Sound(l) && !l.closing
    ensures m == l.(queue := m.queue, want := m.want, got := m.got, log := m.log)
    ensures answer == Due(l, |p|, ws) && Voiced(m.log) == Voiced(l.log)
    ensures Sum(m.log).accepted == Sum(l.log).accepted + p && Sum(m.log).writesIn == Sum(l.log).writesIn + 1
    ensures answer == Ready ==> m.queue == [] && Allowed(Sum(m.log), SentOkay) && Sound(Note(m, SentOkay))
    ensures answer == Backlog ==> Sound(m) && m.queue != []
    ensures answer == Lost ==> m.queue == [] && Lawful(m.log) && !Sum(m.log).ended
  {
    hide Lawful, Sum, Allowed, Agrees, Writes, Voiced;
    GotWriteLawful(l, p);
    VoicedSnoc(l.log, GotWrite(p));
    var log := l.log + [GotWrite(p)];
    var left := p;
    if l.queue == [] {
      var rest, outcome;
      log, left, rest, outcome := WritePacket(log, p, [], ws, false);
      if outcome == Broken {
        return l.(log := log), Lost;
      }
    }
    if left == [] && l.queue == [] {
      m, answer := l.(log := log), Ready;
      assert p[..|p|] == p;
      WholeAgrees(Sum(l.log), l, p);
      LawfulSnoc(log, SentOkay);
      AgreesLog(Sum(log + [SentOkay]), l, log + [SentOkay]);
    } else {
      m, answer := Queued(l, left, log), Backlog;
      assert l.queue != [] ==> p[..0] == [] && left == p[0..];
      QueuedAgrees(Sum(l.log), Sum(log), l, p, left, log);
    }
  }

  lemma GotWriteLawful(l: Local, p: seq<byte>)
    requires Sound(l) && !l.closing
    ensures var log := l.log + [GotWrite(p)];
      Lawful(log) && Sum(log) == Next(Sum(l.log), GotWrite(p)) && !Sum(log).ended &&
      Sum(log).accepted == Sum(l.log).accepted + p && WroteAll(Sum(log), []) == Sum(log) &&
      (l.queue == [] ==> Sum(log).accepted == Sum(log).written + p + [])
  {
    hide Lawful, Sum;
    LawfulSnoc(l.log, GotWrite(p));
    assert Flat([]) == [];
  }

  // ----- the FDE_WRITE half of local_socket_event_func -----

  /** Write the queue out.  Finished means that it is empty and the fd has every byte accepted. */
  method Drain(l: Local, ws: seq<WriteResult>) returns (m: Local, outcome: Outcome)
    requires Lawful(l.log) && Conserved(Sum(l.log), l)
    ensures m == l.(queue := m.queue, log := m.log)
    ensures Lawful(m.log) && Conserved(Sum(m.log), m)
    ensures Sum(m.log) == Sum(l.log).(written := Sum(m.log).written)
    ensures outcome == Finished <==> m.queue == []
    ensures (|m.queue|, outcome) == Drains(l.queue, ws) && Voiced(m.log) == Voiced(l.log)
  {
    hide Lawful, Sum, Conserved, Writes, Voiced;
    m, outcome := l, Finished;
    var rest := ws;
    while m.queue != []
      invariant m == l.(queue := m.queue, log := m.log)
      invariant Lawful(m.log) && Conserved(Sum(m.log), m)
      invariant Sum(m.log) == Sum(l.log).(written := Sum(m.log).written)
      invariant outcome == Finished && Drains(m.queue, rest) == Drains(l.queue, ws)
      invariant Voiced(m.log) == Voiced(l.log)
      decreases |m.queue|
    {
      HeadDue(Sum(m.log), m);
      var log, left;
      log, left, rest, outcome := WritePacket(m.log, m.queue[0], Flat(m.queue[1..]), rest, true);
      HeadWritten(Sum(m.log), m, left, log);
      if outcome != Finished {
        m := m.(queue := [left] + m.queue[1..], log := log);
        return;
      }
      m := m.(queue := m.queue[1..], log := log);
    }
  }

  lemma HeadDue(t: Tally, l: Local)
    requires Conserved(t, l) && l.queue != []
    ensures !t.ended && t.accepted == t.written + l.queue[0] + Flat(l.queue[1..])
  {
  }

  lemma HeadWritten(t: Tally, l: Local, left: seq<byte>, log: seq<Event>)
    requires Conserved(t, l) && l.queue != []
    requires |left| <= |l.queue[0]| && left == l.queue[0][|l.queue[0]|-|left|..]
    ensures var u := WroteAll(t, l.queue[0][..|l.queue[0]|-|left|]);
      && Conserved(u, l.(queue := [left] + l.queue[1..], log := log))
      && (left == [] ==> Conserved(u, l.(queue := l.queue[1..], log := log)))
      && u == t.(written := u.written)
  {
    hide Flat;
    var head, tail := l.queue[0], l.queue[1..];
    FlatFirst(l.queue);
    FlatCons(left, tail);
    SplitBytes(t.written, head, |head| - |left|, Flat(tail));
  }

  lemma FlatCons(p: seq<byte>, q: seq<seq<byte>>)
    ensures Flat([p] + q) == p + Flat(q)
  {
    assert ([p] + q)[1..] == q;
  }

  lemma FlatFirst(q: seq<seq<byte>>)
    requires q != []
    ensures Flat(q) == q[0] + Flat(q[1..])
  {
  }

  lemma SplitBytes(w: seq<byte>, head: seq<byte>, i: nat, f: seq<byte>)
    requires i <= |head|
    ensures w + (head + f) == w + head[..i] + (head[i..] + f)
    ensures i == |head| ==> w + (head + f) == w + head[..i] + f
  {
    assert head == head[..i] + head[i..];
  }

  /** After the last packet: stop waiting for writability and let the host go on. */
  function Resumed(l: Local): (r: Local) {
    Note(FdSet(l, l.want.(write := false)), SentOkay)
  }

  lemma ResumedSound(l: Local, m: Local)
    requires Sound(l) && !l.closing && l.queue != [] && l.got == Mask(false, false)
    requires m == l.(queue := [], log := m.log) && Lawful(m.log) && Conserved(Sum(m.log), m)
    requires Sum(m.log) == Sum(l.log).(written := Sum(m.log).written)
    ensures Sound(Resumed(m)) && Allowed(Sum(m.log), SentOkay)
  {
    hide Lawful, Sum;
    assert Flat([]) == [];
    LawfulSnoc(m.log, SentOkay);
  }

  // ----- the FDE_READ half -----

  /** adb_read: some bytes (none: end of file), EAGAIN, EINTR, another error. */
  datatype ReadResult = Gave(data: seq<byte>) | Dry | Broke | Retry

  /** What a script of reads delivers into `room` bytes, and whether the fd ended. */
  function Delivered(rs: seq<ReadResult>, room: nat): (r: (seq<byte>, bool))
    ensures |r.0| <= room
    decreases |rs|
  {
    if room == 0 || rs == [] then ([], false)
    else match rs[0]
      case Gave(d) =>
        if d == [] then ([], true)
        else
          var k := if |d| < room then |d| else room;
          var more := Delivered(rs[1..], room - k);
          (d[..k] + more.0, more.1)
      case Dry => ([], false)
      case Broke => ([], true)
      case Retry => Delivered(rs[1..], room)
  }

  method ReadAll(rs: seq<ReadResult>) returns (data: seq<byte>, ended: bool)
    ensures (data, ended) == Delivered(rs, MAX_PAYLOAD)
  {
    data, ended := [], false;
    var avail: nat := MAX_PAYLOAD;
    assert [] + Delivered(rs, MAX_PAYLOAD).0 == Delivered(rs, MAX_PAYLOAD).0;
    var rest := rs;
    while avail > 0
      invariant !ended
      invariant var d := Delivered(rest, avail); Delivered(rs, MAX_PAYLOAD) == (data + d.0, d.1)
      decreases |rest|
    {
      if rest == [] { break; }
      var r := rest[0];
      rest := rest[1..];
      match r {
        case Gave(d) =>
          if d == [] { ended := true; break; }
          var k := if |d| < avail then |d| else avail;
          ghost var more := Delivered(rest, avail - k);
          assert data + (d[..k] + more.0) == data + d[..k] + more.0;
          data := data + d[..k];
          avail := avail - k;
        case Dry => break;
        case Broke => ended := true; break;
        case Retry =>
      }
    }
    assert data + [] == data;
  }

  /** Bytes read while the host is connected go out in one WRTE, and no more are read before its OKAY. */
  function Passed(l: Local, data: seq<byte>): (r: Local) {
    FdSet(Note(Note(l, Read(data)), SentWrite(data)), l.want.(read := false))
  }

  lemma PassedSound(l: Local, data: seq<byte>)
    requires Sound(l) && !l.closing && l.got == Mask(false, false) && l.want.read && 0 < |data| <= MAX_PAYLOAD
    ensures Sound(Passed(l, data))
    ensures Lawful(l.log + [Read(data)]) && Allowed(Sum(l.log + [Read(data)]), SentWrite(data))
  {
    hide Lawful, Sum;
    LawfulSnoc(l.log, Read(data));
    LawfulSnoc(l.log + [Read(data)], SentWrite(data));
  }

  lemma DiscardSound(l: Local, data: seq<byte>)
    requires Sound(l) && l.closing
    ensures Sound(Note(l, Read(data)))
  {
    hide Lawful, Sum;
    LawfulSnoc(l.log, Read(data));
  }

  // ----- the other transitions -----

  /** OPEN: installed, answered with OKAY, and ready for data from the fd. */
  function Fresh(id: nat, peer: Ref): (r: Local) {
    Local(id, [], false, Other(peer), Mask(true, false), Mask(false, false), false, [Opened])
  }

  lemma FreshSound(id: nat, peer: Ref)
    ensures Sound(Fresh(id, peer))
  {
    SumSnoc([], Opened);
    assert [] + [Opened] == [Opened];
  }

  /** local_socket_ready for an OKAY from the host. */
  function Credit(l: Local): (r: Local) {
    FdSet(Note(l, GotOkay), l.want.(read := true))
  }

  lemma CreditSound(l: Local)
    requires Sound(l) && !l.closing
    ensures Sound(Credit(l))
  {
    hide Lawful, Sum;
    LawfulSnoc(l.log, GotOkay);
  }

  /** Moved to the closing list: it keeps draining, but is found by no packet any more. */
  function Shut(l: Local): (r: Local) {
    FdSet(Note(l, Closed), l.want.(read := false)).(closing := true, peer := Nobody, id := 0)
  }

  lemma ShutSound(l: Local)
    requires Sound(l) && !l.closing && l.queue != []
    ensures Sound(Shut(l))
  {
    hide Lawful, Sum;
    LawfulSnoc(l.log, Closed);
  }

  /**
   The mask of fdevent_set at work: closing a socket with both events reported drops the write it still waits
   for and keeps the read it no longer wants, so a closing socket can be asked to read.
   */
  lemma ClosingKeepsStaleRead(l: Local)
    requires Sound(l) && !l.closing && l.queue != []
    ensures Shut(l).want == Mask(false, true)
    ensures Shut(l).got == if l.want.read then Mask(l.got.read, false) else l.got
  {
    hide Lawful, Sum;
  }

  /** What select may report for this socket, and what the check for bad fds adds. */
  predicate Reportable(l: Local, ev: Mask) {
    (ev.read ==> l.want.read || l.bad) && (ev.write ==> l.want.write)
  }

  lemma ReportedSound(l: Local, ev: Mask)
    requires Sound(l) && Reportable(l, ev)
    ensures Sound(l.(got := Mask(l.got.read || ev.read, l.got.write || ev.write)))
    ensures Sound(l.(got := Mask(false, false)))
  {
    hide Lawful, Sum;
  }
}
