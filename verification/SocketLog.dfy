/**
 What may happen at one local socket of minadbd, as a law about its whole history.

 A history lists the packets exchanged with the host for the socket and the bytes that crossed its fd,
 in order.  `Lawful` says which histories are right; Sockets.dfy shows that the handlers produce no others.
 */
module SocketLog {
  import opened Bytes

  const MAX_PAYLOAD := 4096

  /** Why a socket was closed. */
  datatype Cause = PeerClosed | AllWritten | WriteFailed | ReadEnded

  datatype Event =
    | Opened                  // OPEN accepted, answered with the first OKAY
    | GotWrite(data: seq<byte>)
    | GotOkay
    | SentWrite(data: seq<byte>)
    | SentOkay
    | Wrote(data: seq<byte>)  // to the fd
    | Read(data: seq<byte>)   // from the fd
    | Closed                  // moved to the closing list
    | Destroyed(cause: Cause)

  /**
   Sums over a history.  `oneAtATime` tells whether every WRTE came when all earlier ones had their OKAY, and
   `granted` whether the host has sent an OKAY (or the OPEN) since the last WRTE to it.
   */
  datatype Tally = Tally(
    accepted: seq<byte>, written: seq<byte>, read: seq<byte>, relayed: seq<byte>,
    writesIn: nat, okaysOut: nat, writesOut: nat, okaysIn: nat,
    oneAtATime: bool, granted: bool, closed: bool, ended: bool)

  function Next(t: Tally, e: Event): (r: Tally) {
    match e
    case Opened => t
    case GotWrite(d) =>
      t.(accepted := t.accepted + d, writesIn := t.writesIn + 1, oneAtATime := t.oneAtATime && t.writesIn == t.okaysOut)
    case GotOkay => t.(okaysIn := t.okaysIn + 1, granted := true)
    case SentWrite(d) => t.(relayed := t.relayed + d, writesOut := t.writesOut + 1, granted := false)
    case SentOkay => t.(okaysOut := t.okaysOut + 1)
    case Wrote(d) => t.(written := t.written + d)
    case Read(d) => t.(read := t.read + d)
    case Closed => t.(closed := true)
    case Destroyed(_) => t.(ended := true)
  }

  function Sum(log: seq<Event>): (r: Tally) {
    if log == [] then Tally([], [], [], [], 0, 0, 0, 0, true, true, false, false)
    else Next(Sum(log[..|log|-1]), log[|log|-1])
  }

  /**
   The law for one event after a history with tally `t`:
   - a WRTE needs a credit, of which the host grants one at the start and one with every OKAY, and carries
     exactly the bytes read and not yet passed on;
   - an OKAY answers a WRTE, at a moment when every byte accepted so far is in the fd;
   - the fd gets the accepted bytes in order;
   - a closing socket neither sends nor accepts, it only drains;
   - a destroyed socket has nothing unwritten, unless writing failed or its fd ended while it was draining.
   */
  predicate Allowed(t: Tally, e: Event) {
    !t.ended &&
    match e
    case Opened => false
    case GotWrite(_) => !t.closed
    case GotOkay => !t.closed
    case SentWrite(d) =>
      !t.closed && t.writesOut <= t.okaysIn && 0 < |d| <= MAX_PAYLOAD && t.read == t.relayed + d
    case SentOkay => !t.closed && t.written == t.accepted && t.okaysOut < t.writesIn
    case Wrote(d) => d != [] && t.written + d <= t.accepted
    case Read(_) => true
    case Closed => !t.closed
    case Destroyed(c) => t.written == t.accepted || c == WriteFailed || (c == ReadEnded && t.closed)
  }

  predicate Lawful(log: seq<Event>) {
    log != [] && log[0] == Opened && forall k :: 1 <= k < |log| ==> Allowed(Sum(log[..k]), log[k])
  }

  lemma SumSnoc(log: seq<Event>, e: Event)
    ensures Sum(log + [e]) == Next(Sum(log), e)
  {
    assert (log + [e])[..|log|] == log;
  }

  lemma LawfulSnoc(log: seq<Event>, e: Event)
    requires Lawful(log) && Allowed(Sum(log), e)
    ensures Lawful(log + [e]) && Sum(log + [e]) == Next(Sum(log), e)
  {
    hide Allowed, Next, Sum;
    SumSnoc(log, e);
    var all := log + [e];
    forall k | 1 <= k < |all| ensures Allowed(Sum(all[..k]), all[k]) {
      if k < |log| {
        assert all[..k] == log[..k] && all[k] == log[k];
      } else {
        assert all[..k] == log;
      }
    }
  }

  /** The events that the host sees as packets. */
  function Voice(e: Event): (r: seq<Event>) {
    if e.Opened? || e.SentWrite? || e.SentOkay? then [e] else []
  }

  function Voiced(log: seq<Event>): (r: seq<Event>) {
    if log == [] then [] else Voiced(log[..|log|-1]) + Voice(log[|log|-1])
  }

  lemma VoicedSnoc(log: seq<Event>, e: Event)
    ensures Voiced(log + [e]) == Voiced(log) + Voice(e)
    ensures Voice(e) == [] ==> Voiced(log + [e]) == Voiced(log)
  {
    assert (log + [e])[..|log|] == log;
  }

  predicate Balanced(t: Tally) {
    t.written <= t.accepted && t.writesOut <= 1 + t.okaysIn && t.okaysOut <= t.writesIn
  }

  lemma BalancedNext(t: Tally, e: Event)
    requires Balanced(t) && Allowed(t, e)
    ensures Balanced(Next(t, e))
  {
  }

  /**
   At every moment of a lawful history: the bytes in the fd are a prefix of those accepted from the host,
   the WRTEs sent are at most one more than the OKAYs received, and no WRTE has been answered twice.
   */
  lemma {:induction false} AlwaysBalanced(log: seq<Event>, k: nat)
    requires Lawful(log) && 0 < k <= |log|
    ensures Balanced(Sum(log[..k]))
    decreases k
  {
    hide Lawful, Allowed, Sum, Next, Balanced;
    if k == 1 {
      FirstOpened(log);
    } else {
      AlwaysBalanced(log, k - 1);
      LawfulAt(log, k - 1);
      BalancedNext(Sum(log[..k-1]), log[k-1]);
      SumSnoc(log[..k-1], log[k-1]);
      assert log[..k-1] + [log[k-1]] == log[..k];
    }
  }

  lemma FirstOpened(log: seq<Event>)
    requires Lawful(log)
    ensures log != [] && Balanced(Sum(log[..1]))
  {
    hide Allowed;
    assert log[..1] == [] + [Opened];
    SumSnoc([], Opened);
  }

  lemma LawfulAt(log: seq<Event>, k: nat)
    requires Lawful(log) && 1 <= k < |log|
    ensures Allowed(Sum(log[..k]), log[k])
  {
    hide Allowed, Sum;
  }

  /**
   The history of a freed socket ends with its destruction, and nothing it had accepted is unwritten then
   unless writing to the fd failed or the fd ended while the socket was draining.
   */
  lemma {:induction false} FreedAfterDraining(log: seq<Event>)
    requires Lawful(log) && Sum(log).ended
    ensures log[|log|-1].Destroyed?
    ensures Sum(log).written == Sum(log).accepted
      || log[|log|-1].cause == WriteFailed || (log[|log|-1].cause == ReadEnded && Sum(log).closed)
  {
    hide Lawful, Sum;
    FirstOpened(log);
    var n := |log| - 1;
    assert log == log[..n] + [log[n]];
    SumSnoc(log[..n], log[n]);
    if n > 0 {
      LawfulAt(log, n);
    } else {
      OpenedNotEnded(log);
    }
  }

  lemma OpenedNotEnded(log: seq<Event>)
    requires Lawful(log) && |log| == 1
    ensures !Sum(log).ended
  {
    assert log == [] + [Opened];
    SumSnoc([], Opened);
  }
}
