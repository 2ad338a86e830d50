/**
 All sockets of minadbd together: the two lists, the local-remote pairs, the disconnect lists of the
 transports, and the handlers of adb.c and sockets.c that the event loop calls.

 A socket is reached through its address, and memory that has been freed is not in the maps, so every
 `locals[s]` and `remotes[r]` below is also a proof that the pointer is not dangling.
 */
module Sockets {
  import opened Bytes
  import opened SocketLog
  import opened LocalSocket

  type Transport = nat

  /** The histories of the sockets that have been freed. */
  type Graves = map<Ref, seq<Event>>

  datatype Remote = Remote(id: nat, peer: Peer, transport: Transport)

  /** local_socket_list, local_socket_closing_list and the disconnect list of every transport. */
  datatype Net = Net(
    locals: map<Ref, Local>, remotes: map<Ref, Remote>,
    list: seq<Ref>, closing: seq<Ref>, disconnects: map<Transport, seq<Ref>>)

  datatype Packet =
    | Sync(online: bool, token: nat)
    | Connect
    | Open(local: nat)
    | Okay(local: nat, remote: nat)
    | Close(local: nat, remote: nat)
    | Write(local: nat, remote: nat, data: seq<byte>)

  /** A packet given to send_packet, and the local socket it is about. */
  datatype Sent = To(transport: Transport, packet: Packet, about: Peer)

  // ----- lists -----

  predicate NoDup(l: seq<Ref>) {
    forall i, j :: 0 <= i < j < |l| ==> l[i] != l[j]
  }

  /** The oldest first. */
  predicate Increasing(l: seq<Ref>) {
    forall i, j :: 0 <= i < j < |l| ==> l[i] < l[j]
  }

  /** Unlinking a node. */
  function Without(l: seq<Ref>, s: Ref): (r: seq<Ref>) {
    if l == [] then [] else if l[0] == s then l[1..] else [l[0]] + Without(l[1..], s)
  }

  lemma {:induction false} WithoutKeeps(l: seq<Ref>, s: Ref)
    requires NoDup(l)
    ensures NoDup(Without(l, s))
    ensures forall x :: x in Without(l, s) <==> x in l && x != s
  {
    if l != [] {
      assert l == [l[0]] + l[1..];
      if l[0] != s {
        WithoutKeeps(l[1..], s);
        assert l[0] !in l[1..];
      }
    }
  }

  lemma FirstSmallest(x: Ref, tail: seq<Ref>, r: seq<Ref>)
    requires Increasing([x] + tail) && Increasing(r) && forall y :: y in r ==> y in tail
    ensures Increasing([x] + r)
  {
    var l, m := [x] + tail, [x] + r;
    forall i, j | 0 <= i < j < |m|
      ensures m[i] < m[j]
    {
      if i == 0 {
        assert r[j-1] in tail;
        var k :| 0 <= k < |tail| && tail[k] == r[j-1];
        assert l[0] < l[k+1];
      }
    }
  }

  lemma {:induction false} WithoutIncreasing(l: seq<Ref>, s: Ref)
    requires Increasing(l)
    ensures Increasing(Without(l, s))
  {
    if l != [] && l[0] != s {
      var tail := l[1..];
      assert Increasing(tail);
      WithoutIncreasing(tail, s);
      IncreasingNoDup(tail);
      WithoutKeeps(tail, s);
      hide Without, NoDup;
      FirstSmallest(l[0], tail, Without(tail, s));
    }
  }

  // ----- peer symmetry -----

  ghost predicate Lists(n: Net) {
    && Increasing(n.list) && NoDup(n.closing)
    && (forall s :: s in n.list <==> s in n.locals && !n.locals[s].closing)
    && (forall s :: s in n.closing <==> s in n.locals && n.locals[s].closing)
  }

  /** A listed socket and its remote point at each other; a closing one has no peer. */
  ghost predicate Paired(locals: map<Ref, Local>, remotes: map<Ref, Remote>) {
    && (forall s :: s in locals ==>
      if locals[s].closing then locals[s].peer == Nobody
      else locals[s].peer.Other? && locals[s].peer.ref in remotes && remotes[locals[s].peer.ref].peer == Other(s))
    && (forall r :: r in remotes ==>
      remotes[r].peer.Other? && remotes[r].peer.ref in locals && locals[remotes[r].peer.ref].peer == Other(r))
  }

  /** The disconnect list of a transport holds exactly its remote sockets, once each. */
  ghost predicate Attached(remotes: map<Ref, Remote>, disconnects: map<Transport, seq<Ref>>) {
    && (forall r :: r in remotes ==> remotes[r].transport in disconnects)
    && (forall t :: t in disconnects ==> NoDup(disconnects[t]))
    && (forall t, r :: t in disconnects ==> (r in disconnects[t] <==> r in remotes && remotes[r].transport == t))
  }

  ghost predicate Linked(n: Net) {
    Lists(n) && Paired(n.locals, n.remotes) && Attached(n.remotes, n.disconnects)
  }

  ghost predicate AllSound(locals: map<Ref, Local>) {
    forall s :: s in locals ==> Sound(locals[s])
  }

  predicate AllLawful(graves: Graves) {
    forall s :: s in graves ==> Lawful(graves[s]) && Sum(graves[s]).ended
  }

  /** All but `s`, on which a handler is working. */
  ghost predicate SoundBut(locals: map<Ref, Local>, s: Ref) {
    forall x :: x in locals && x != s ==> Sound(locals[x])
  }

  const ID_SPAN := 0x1_0000_0000

  /** The id that goes with an address: every pair of sockets takes two addresses and the next id. */
  function IdOf(s: Ref): (id: nat) {
    (1 + s / 2) % ID_SPAN
  }

  /** What has been handed out so far: addresses below `limit`, and their ids. */
  ghost predicate Bounded(n: Net, limit: Ref) {
    && limit % 2 == 0 && (forall x :: x in n.remotes ==> x < limit)
    && (forall x :: x in n.locals ==> x < limit && x % 2 == 0 && (n.locals[x].closing || n.locals[x].id == IdOf(x)))
  }

  /** A transport that is offline has no remote sockets. */
  ghost predicate Severed(disconnects: map<Transport, seq<Ref>>, online: set<Transport>) {
    forall t :: t in disconnects && t !in online ==> disconnects[t] == []
  }

  /** What a packet about socket `s` is in its history, after the packets `said`. */
  function Heard(m: Sent, s: Ref, said: seq<Event>): (r: seq<Event>) {
    if m.about != Other(s) then []
    else
      match m.packet
      case Write(_, _, data) => [SentWrite(data)]
      case Okay(_, _) => [if said == [] then Opened else SentOkay]
      case _ => []
  }

  /** The packets about socket `s`, as events. */
  function Said(sent: seq<Sent>, s: Ref): (r: seq<Event>) {
    if sent == [] then []
    else
      var front := Said(sent[..|sent|-1], s);
      front + Heard(sent[|sent|-1], s, front)
  }

  /** A WRTE or OKAY is about a socket, and a packet about a socket is about a live or a freed one. */
  predicate Known(locals: map<Ref, Local>, graves: Graves, m: Sent) {
    if m.about.Other? then m.about.ref in locals || m.about.ref in graves else !m.packet.Write? && !m.packet.Okay?
  }

  ghost predicate Buried(locals: map<Ref, Local>, graves: Graves, limit: Ref) {
    && (forall s :: s in locals ==> s < limit)
    && (forall s :: s in graves ==> s !in locals && s < limit)
  }

  /** The histories, live and ended, tell of exactly the WRTE and OKAY packets that were sent, in order. */
  ghost predicate Told(locals: map<Ref, Local>, graves: Graves, sent: seq<Sent>, limit: Ref) {
    && Buried(locals, graves, limit)
    && (forall s :: s in locals ==> Said(sent, s) == Voiced(locals[s].log))
    && (forall s :: s in graves ==> Said(sent, s) == Voiced(graves[s]))
    && (forall i :: 0 <= i < |sent| ==> Known(locals, graves, sent[i]))
  }

  lemma SaidSnoc(sent: seq<Sent>, m: Sent, s: Ref)
    ensures Said(sent + [m], s) == Said(sent, s) + Heard(m, s, Said(sent, s))
    ensures Heard(m, s, Said(sent, s)) == [] ==> Said(sent + [m], s) == Said(sent, s)
  {
    assert (sent + [m])[..|sent|] == sent;
  }

  lemma {:induction false} SaidNothing(sent: seq<Sent>, s: Ref)
    requires forall i :: 0 <= i < |sent| && sent[i].about.Other? ==> sent[i].about.ref < s
    ensures Said(sent, s) == []
    decreases |sent|
  {
    if sent != [] {
      SaidNothing(sent[..|sent|-1], s);
    }
  }

  /** A packet that is in no history. */
  lemma ToldQuiet(locals: map<Ref, Local>, graves: Graves, sent: seq<Sent>, limit: Ref, m: Sent)
    requires Told(locals, graves, sent, limit) && !m.packet.Write? && !m.packet.Okay? && Known(locals, graves, m)
    ensures Told(locals, graves, sent + [m], limit)
  {
    hide Said, Voiced, Known, Buried;
    forall s ensures Said(sent + [m], s) == Said(sent, s) {
      SaidSnoc(sent, m, s);
    }
  }

  lemma ToldPut(locals: map<Ref, Local>, graves: Graves, sent: seq<Sent>, limit: Ref, s: Ref, l: Local)
    requires Told(locals, graves, sent, limit) && s in locals && Voiced(l.log) == Voiced(locals[s].log)
    ensures Told(locals[s := l], graves, sent, limit)
  {
    hide Said, Voiced;
  }

  /** Freeing a socket. */
  lemma ToldBury(locals: map<Ref, Local>, graves: Graves, sent: seq<Sent>, limit: Ref, s: Ref, log: seq<Event>)
    requires Told(locals, graves, sent, limit) && s in locals && Voiced(log) == Voiced(locals[s].log)
    ensures Told(locals - {s}, graves[s := log], sent, limit)
  {
    hide Said, Voiced;
  }

  /** A packet about `s` and the event that tells of it. */
  lemma ToldVoice(locals: map<Ref, Local>, graves: Graves, sent: seq<Sent>, limit: Ref, s: Ref, l: Local, m: Sent)
    requires Told(locals, graves, sent, limit) && m.about == Other(s) && s < limit && s !in graves
    requires Voiced(l.log) == Said(sent, s) + Heard(m, s, Said(sent, s))
    ensures Told(locals[s := l], graves, sent + [m], limit)
  {
    hide Voiced, Said;
    forall x ensures Said(sent + [m], x) == if x == s then Voiced(l.log) else Said(sent, x) {
      SaidSnoc(sent, m, x);
    }
  }

  lemma ToldAt(locals: map<Ref, Local>, graves: Graves, sent: seq<Sent>, limit: Ref, s: Ref)
    requires Told(locals, graves, sent, limit) && s in locals
    ensures Said(sent, s) == Voiced(locals[s].log) && s !in graves && s < limit
  {
    hide Said, Voiced, Known;
  }

  lemma ToldMore(locals: map<Ref, Local>, graves: Graves, sent: seq<Sent>, limit: Ref, more: Ref)
    requires Told(locals, graves, sent, limit) && limit <= more
    ensures Told(locals, graves, sent, more)
  {
    hide Said, Voiced, Known;
  }

  // ----- changes of the net -----

  function Put(n: Net, s: Ref, l: Local): (m: Net) {
    n.(locals := n.locals[s := l])
  }

  lemma PutLinked(n: Net, s: Ref, l: Local)
    requires Linked(n) && s in n.locals && l.peer == n.locals[s].peer && l.closing == n.locals[s].closing
    ensures Linked(Put(n, s, l))
  {
    hide NoDup, Attached, Paired, Lists;
    PutPaired(n.locals, n.remotes, s, l);
    PutLists(n, s, l);
  }

  lemma PutLists(n: Net, s: Ref, l: Local)
    requires Lists(n) && s in n.locals && l.closing == n.locals[s].closing
    ensures Lists(Put(n, s, l))
  {
    hide NoDup;
  }

  lemma PutPaired(locals: map<Ref, Local>, remotes: map<Ref, Remote>, s: Ref, l: Local)
    requires Paired(locals, remotes) && s in locals && l.peer == locals[s].peer && l.closing == locals[s].closing
    ensures Paired(locals[s := l], remotes)
  {
  }

  lemma PutSound(locals: map<Ref, Local>, s: Ref, l: Local)
    requires SoundBut(locals, s) && Sound(l)
    ensures AllSound(locals[s := l])
  {
    hide Sound;
  }

  /** Lines 463-464 and 477-478 of sockets.c: unhook the disconnect and free the remote socket. */
  function DropRemote(n: Net, r: Ref): (m: Net)
    requires r in n.remotes && n.remotes[r].transport in n.disconnects
  {
    var t := n.remotes[r].transport;
    n.(remotes := n.remotes - {r}, disconnects := n.disconnects[t := Without(n.disconnects[t], r)])
  }

  /** The end of local_socket_close_locked: free the socket, or let it drain on the closing list. */
  function Retire(n: Net, s: Ref): (m: Net)
    requires s in n.locals
  {
    if n.locals[s].closing || n.locals[s].queue == [] then
      n.(locals := n.locals - {s}, list := Without(n.list, s), closing := Without(n.closing, s))
    else
      n.(locals := n.locals[s := Shut(n.locals[s])], list := Without(n.list, s), closing := n.closing + [s])
  }

  ghost predicate Linkable(n: Net, s: Ref) {
    s in n.locals && (n.locals[s].peer.Other? ==>
      n.locals[s].peer.ref in n.remotes && n.remotes[n.locals[s].peer.ref].transport in n.disconnects)
  }

  lemma LinkedLinkable(n: Net, s: Ref)
    requires Linked(n) && s in n.locals
    ensures Linkable(n, s)
  {
  }

  /** Closing a local socket: its remote is freed, and it is freed or left to drain. */
  ghost function Shutdown(n: Net, s: Ref): (m: Net)
    requires Linkable(n, s)
  {
    Retire(if n.locals[s].peer.Other? then DropRemote(n, n.locals[s].peer.ref) else n, s)
  }

  lemma RetireLists(n: Net, s: Ref)
    requires Lists(n) && s in n.locals
    ensures Lists(Retire(n, s))
  {
    hide Without, NoDup, Increasing;
    IncreasingNoDup(n.list);
    WithoutKeeps(n.list, s);
    WithoutIncreasing(n.list, s);
    WithoutKeeps(n.closing, s);
    assert NoDup(n.closing + [s]) || n.locals[s].closing by {
      if !n.locals[s].closing { NoDupSnoc(n.closing, s); }
    }
  }

  lemma IncreasingNoDup(l: seq<Ref>)
    requires Increasing(l)
    ensures NoDup(l)
  {
  }

  lemma NoDupSnoc(l: seq<Ref>, s: Ref)
    requires NoDup(l) && s !in l
    ensures NoDup(l + [s])
  {
  }

  lemma RetirePaired(locals: map<Ref, Local>, remotes: map<Ref, Remote>, s: Ref, l: Local)
    requires Paired(locals, remotes) && s in locals && l.closing && l.peer == Nobody
    ensures var rest := if locals[s].peer.Other? then remotes - {locals[s].peer.ref} else remotes;
      Paired(locals - {s}, rest) && Paired(locals[s := l], rest)
  {
  }

  lemma DropAttached(remotes: map<Ref, Remote>, disconnects: map<Transport, seq<Ref>>, r: Ref)
    requires Attached(remotes, disconnects) && r in remotes
    ensures var t := remotes[r].transport;
      Attached(remotes - {r}, disconnects[t := Without(disconnects[t], r)])
  {
    hide Without, NoDup;
    var t := remotes[r].transport;
    WithoutKeeps(disconnects[t], r);
  }

  lemma ShutdownLinked(n: Net, s: Ref)
    requires Linked(n) && s in n.locals
    ensures Linkable(n, s) && Linked(Shutdown(n, s))
  {
    LinkedLinkable(n, s);
    hide Lists, Paired, Attached;
    RetireLists(n, s);
    RetirePaired(n.locals, n.remotes, s, Shut(n.locals[s]));
    if n.locals[s].peer.Other? {
      var m := DropRemote(n, n.locals[s].peer.ref);
      ListsIgnoresRemotes(n, m);
      RetireLists(m, s);
      DropAttached(n.remotes, n.disconnects, n.locals[s].peer.ref);
    }
  }

  lemma ListsIgnoresRemotes(n: Net, m: Net)
    requires Lists(n) && m == n.(remotes := m.remotes, disconnects := m.disconnects)
    ensures Lists(m)
  {
  }

  /** What close needs to know of a socket that a handler has changed. */
  predicate Closable(l: Local, cause: Cause) {
    Lawful(l.log) && if l.closing || l.queue == [] then Allowed(Sum(l.log), Destroyed(cause)) else Sound(l)
  }

  lemma SoundClosable(l: Local, cause: Cause)
    requires Sound(l) && (l.closing ==> cause == WriteFailed || cause == ReadEnded)
    ensures Closable(l, cause)
  {
    hide Lawful, Sum;
    assert Flat([]) == [];
  }

  lemma ShutdownSound(n: Net, s: Ref, cause: Cause)
    requires Linkable(n, s) && SoundBut(n.locals, s) && Closable(n.locals[s], cause)
    ensures AllSound(Shutdown(n, s).locals)
  {
    hide Sound, Without;
    if !(n.locals[s].closing || n.locals[s].queue == []) {
      ShutSound(n.locals[s]);
    }
  }

  lemma ShutdownChanges(n: Net, s: Ref)
    requires Linkable(n, s) && !n.locals[s].closing
    ensures var m := Shutdown(n, s); s !in m.locals || m.locals[s].closing
  {
    hide Without;
  }

  lemma ShutdownRest(n: Net, s: Ref, online: set<Transport>, limit: Ref)
    requires Linkable(n, s) && Bounded(n, limit) && Severed(n.disconnects, online)
    ensures Bounded(Shutdown(n, s), limit) && Severed(Shutdown(n, s).disconnects, online)
  {
  }

  lemma ShutdownTold(n: Net, graves: Graves, s: Ref, cause: Cause, sent: seq<Sent>, limit: Ref)
    requires Linkable(n, s) && Told(n.locals, graves, sent, limit)
    ensures var (m, after) := (Shutdown(n, s).locals, Grave(n, graves, s, cause));
      Told(m, after, sent, limit) && Told(m, after, sent + Farewell(n, s), limit)
  {
    hide Said, Voiced, Told, Without;
    var log := n.locals[s].log;
    VoicedSnoc(log, Closed);
    VoicedSnoc(log, Destroyed(cause));
    ToldPut(n.locals, graves, sent, limit, s, Shut(n.locals[s]));
    ToldBury(n.locals, graves, sent, limit, s, log + [Destroyed(cause)]);
    assert sent + [] == sent;
    if n.locals[s].peer.Other? {
      ToldQuiet(Shutdown(n, s).locals, Grave(n, graves, s, cause), sent, limit, Farewell(n, s)[0]);
    }
  }

  lemma GraveLawful(n: Net, graves: Graves, s: Ref, cause: Cause)
    requires AllLawful(graves) && s in n.locals && Closable(n.locals[s], cause)
    ensures AllLawful(Grave(n, graves, s, cause))
  {
    hide Lawful, Sum, Sound, Allowed;
    var l := n.locals[s];
    if l.closing || l.queue == [] {
      LawfulSnoc(l.log, Destroyed(cause));
    }
  }

  /** OPEN: a new pair. */
  function AddPair(n: Net, s: Ref, l: Local, r: Ref, remote: Remote): (m: Net)
    requires remote.transport in n.disconnects
  {
    Net(n.locals[s := l], n.remotes[r := remote], n.list + [s], n.closing,
        n.disconnects[remote.transport := n.disconnects[remote.transport] + [r]])
  }

  lemma AddLinked(n: Net, s: Ref, l: Local, r: Ref, remote: Remote)
    requires Linked(n) && remote.transport in n.disconnects && s !in n.locals && r !in n.remotes
    requires forall x :: x in n.locals ==> x < s
    requires !l.closing && l.peer == Other(r) && remote.peer == Other(s)
    ensures Linked(AddPair(n, s, l, r, remote))
  {
    AddLists(n, s, l);
    ListsIgnoresRemotes(n.(locals := n.locals[s := l], list := n.list + [s]), AddPair(n, s, l, r, remote));
    AddPaired(n.locals, n.remotes, s, l, r, remote);
    AddAttached(n.remotes, n.disconnects, r, remote);
    hide Paired, Attached, NoDup;
  }

  lemma AddLists(n: Net, s: Ref, l: Local)
    requires Lists(n) && !l.closing && forall x :: x in n.locals ==> x < s
    ensures Lists(n.(locals := n.locals[s := l], list := n.list + [s]))
  {
    hide NoDup;
    var m := n.(locals := n.locals[s := l], list := n.list + [s]);
    assert Increasing(m.list) by {
      assert forall i :: 0 <= i < |n.list| ==> n.list[i] in n.list;
    }
    assert s !in n.closing && s !in n.list;
  }

  lemma AddPaired(locals: map<Ref, Local>, remotes: map<Ref, Remote>, s: Ref, l: Local, r: Ref, remote: Remote)
    requires Paired(locals, remotes) && s !in locals && r !in remotes
    requires !l.closing && l.peer == Other(r) && remote.peer == Other(s)
    ensures Paired(locals[s := l], remotes[r := remote])
  {
  }

  lemma AddAttached(remotes: map<Ref, Remote>, disconnects: map<Transport, seq<Ref>>, r: Ref, remote: Remote)
    requires Attached(remotes, disconnects) && r !in remotes && remote.transport in disconnects
    ensures Attached(remotes[r := remote], disconnects[remote.transport := disconnects[remote.transport] + [r]])
  {
    hide NoDup;
    NoDupSnoc(disconnects[remote.transport], r);
  }

  /** Ids count up. */
  lemma NextId(s: Ref)
    requires s % 2 == 0
    ensures IdOf(s + 2) == (IdOf(s) + 1) % ID_SPAN && (s + 2) / 2 == s / 2 + 1
  {
  }

  lemma EvenLimit(n: Net, limit: Ref)
    requires Bounded(n, limit)
    ensures limit % 2 == 0
  {
  }

  /** As long as the ids have not wrapped around, listed sockets have their own. */
  lemma DistinctIds(n: Net, limit: Ref)
    requires Lists(n) && Bounded(n, limit) && limit / 2 <= ID_SPAN
    ensures forall s, x :: s in n.list && x in n.list && n.locals[s].id == n.locals[x].id ==> s == x
  {
    hide NoDup, IdOf;
    forall s, x | s in n.list && x in n.list && n.locals[s].id == n.locals[x].id
      ensures s == x
    {
      assert IdOf(s) == IdOf(x);
      SameId(s, x);
    }
  }

  lemma SameId(s: Ref, x: Ref)
    requires s % 2 == 0 && x % 2 == 0 && s / 2 < ID_SPAN && x / 2 < ID_SPAN && IdOf(s) == IdOf(x)
    ensures s == x
  {
  }

  // ----- the handlers -----

  /** The socket that a packet with this id is for: the first listed one that has it. */
  ghost predicate Addressee(n: Net, id: nat, s: Ref) {
    exists k :: 0 <= k < |n.list| && n.list[k] == s && s in n.locals && n.locals[s].id == id
      && forall i :: 0 <= i < k && n.list[i] in n.locals ==> n.locals[n.list[i]].id != id
  }

  /** No listed socket has the id. */
  ghost predicate Unknown(n: Net, id: nat) {
    forall s :: s in n.list && s in n.locals ==> n.locals[s].id != id
  }

  /** The walk along local_socket_list. */
  function Find(n: Net, id: nat, from: nat := 0): (r: Peer)
    requires from <= |n.list|
    ensures r.Other? ==> r.ref in n.list
    decreases |n.list| - from
  {
    if from == |n.list| then Nobody
    else if n.list[from] in n.locals && n.locals[n.list[from]].id == id then Other(n.list[from])
    else Find(n, id, from + 1)
  }

  lemma {:induction false} FindStops(n: Net, id: nat, from: nat)
    requires from <= |n.list|
    ensures var f := Find(n, id, from);
      if f.Other? then
        exists k :: from <= k < |n.list| && n.list[k] == f.ref && f.ref in n.locals && n.locals[f.ref].id == id
          && forall i :: from <= i < k && n.list[i] in n.locals ==> n.locals[n.list[i]].id != id
      else forall i :: from <= i < |n.list| && n.list[i] in n.locals ==> n.locals[n.list[i]].id != id
    decreases |n.list| - from
  {
    if from < |n.list| && !(n.list[from] in n.locals && n.locals[n.list[from]].id == id) {
      FindStops(n, id, from + 1);
    }
  }

  /** The walk finds the addressee, and nothing exactly if the id is unknown. */
  lemma FindExactly(n: Net, id: nat)
    ensures var f := Find(n, id); forall s :: Addressee(n, id, s) <==> f == Other(s)
    ensures Find(n, id) == Nobody <==> Unknown(n, id)
  {
    hide Find;
    FindStops(n, id, 0);
  }

  class Engine {
    var net: Net
    var online: set<Transport>
    var sent: seq<Sent>
    var nextId: nat
    var nextRef: Ref
    var graves: Graves

    /** Peer symmetry, sound sockets, lawful histories; every handler keeps it. */
    ghost predicate Valid()
      reads this
    {
      && Linked(net) && AllSound(net.locals) && AllLawful(graves) && Bounded(net, nextRef)
          && Severed(net.disconnects, online)
      && Told(net.locals, graves, sent, nextRef) && nextId == IdOf(nextRef)
    }

    /** How many OPENs have been accepted. */
    function Opened(): (n: nat)
      reads this
    {
      nextRef / 2
    }

    ghost predicate ValidBut(s: Ref)
      reads this
    {
      && Linked(net) && SoundBut(net.locals, s) && AllLawful(graves) && Bounded(net, nextRef)
          && Severed(net.disconnects, online)
      && Told(net.locals, graves, sent, nextRef) && nextId == IdOf(nextRef)
    }

    constructor (transports: set<Transport>)
      ensures Valid() && net.locals == map[] && net.disconnects.Keys == transports && online == {} && sent == []
      ensures graves == map[]
    {
      net := Net(map[], map[], [], [], map t | t in transports :: []);
      online, sent, nextId, nextRef, graves := {}, [], 1, 0, map[];
    }

    method Send(t: Transport, p: Packet, about: Peer)
      modifies this`sent
      ensures sent == old(sent) + [To(t, p, about)]
    {
      sent := sent + [To(t, p, about)];
    }

    /**
     local_socket_close and remote_socket_close: the remote end is freed and the host told, then the socket is
     freed if it has nothing to write or was closing already, else moved to the closing list.
     */
    method CloseLocal(s: Ref, cause: Cause)
      requires ValidBut(s) && s in net.locals && Closable(net.locals[s], cause)
      modifies this`net, this`sent, this`graves
      ensures Valid()
      ensures Linkable(old(net), s) && net == Shutdown(old(net), s)
      ensures sent == old(sent) + Farewell(old(net), s)
      ensures graves == Grave(old(net), old(graves), s, cause)
    {
      hide Linked, SoundBut, AllLawful, Bounded, Severed, Closable, AllSound, Shut, Without, Told;
      LinkedLinkable(net, s);
      ShutdownLinked(net, s);
      ShutdownSound(net, s, cause);
      ShutdownRest(net, s, online, nextRef);
      ShutdownTold(net, graves, s, cause, sent, nextRef);
      GraveLawful(net, graves, s, cause);
      var l := net.locals[s];
      if l.peer.Other? {
        var r := l.peer.ref;
        Send(net.remotes[r].transport, Close(0, net.remotes[r].id), Other(s));
        net := DropRemote(net, r);
      }
      if l.closing || l.queue == [] {
        graves := graves[s := l.log + [Destroyed(cause)]];
      }
      net := Retire(net, s);
    }

    /** remote_socket_disconnect: the local socket is closed and the remote freed, and nothing is sent. */
    method Disconnect(r: Ref)
      requires Valid() && r in net.remotes
      modifies this`net, this`graves
      ensures Valid()
      ensures old(net.remotes[r].peer).Other? && Linkable(old(net), old(net.remotes[r].peer).ref)
      ensures old(net.locals[net.remotes[r].peer.ref].peer) == Other(r)
      ensures net == Shutdown(old(net), old(net.remotes[r].peer).ref)
      ensures graves == Grave(old(net), old(graves), old(net.remotes[r].peer).ref, PeerClosed)
    {
      hide Linked, SoundBut, AllLawful, Bounded, Severed, Closable, AllSound, Shut, Without, Told;
      RemoteFacts(net, r);
      var s := net.remotes[r].peer.ref;
      LinkedLinkable(net, s);
      ShutdownLinked(net, s);
      SoundAt(net.locals, s);
      SoundClosable(net.locals[s], PeerClosed);
      ShutdownSound(net, s, PeerClosed);
      ShutdownRest(net, s, online, nextRef);
      ShutdownTold(net, graves, s, PeerClosed, sent, nextRef);
      GraveLawful(net, graves, s, PeerClosed);
      var l := net.locals[s];
      if l.queue == [] {
        graves := graves[s := l.log + [Destroyed(PeerClosed)]];
      }
      net := Retire(net, s);
      net := DropRemote(net, r);
    }

    /** run_transport_disconnects: the successor is fetched before the callback frees the node. */
    method RunDisconnects(t: Transport)
      requires Valid() && t in net.disconnects
      modifies this`net, this`graves
      ensures Valid() && t in net.disconnects && net.disconnects[t] == []
      ensures Spared(old(net), net, t)
      ensures forall r :: r in net.remotes ==> net.remotes[r].transport != t
    {
      hide Linked, AllLawful, Bounded, Severed, AllSound, Spared, Without, Shutdown, Told;
      var dis := First(net.disconnects[t]);
      SparedSelf(net, t);
      while dis.Other?
        invariant Valid() && t in net.disconnects && dis == First(net.disconnects[t])
        invariant Spared(old(net), net, t)
        decreases |net.disconnects[t]|
      {
        var r := dis.ref;
        AttachedAt(net, t, r);
        var next := After(net.disconnects[t], r);
        ShutdownSpares(old(net), net, t, r);
        Disconnect(r);
        dis := next;
      }
      NoneLeft(net, t);
    }

    /** SYNC: coming online only echoes; going offline drops the transport's sockets first. */
    method HandleSync(t: Transport, up: bool, token: nat)
      requires Valid() && t in net.disconnects
      modifies this`net, this`sent, this`graves, this`online
      ensures Valid() && sent == old(sent) + [To(t, Sync(up, token), Nobody)]
      ensures up ==> net == old(net) && online == old(online)
      ensures !up ==> online == old(online) - {t} && Spared(old(net), net, t)
      ensures !up ==> t in net.disconnects && net.disconnects[t] == []
    {
      hide Linked, AllLawful, Bounded, AllSound, Spared, Told;
      if !up {
        RunDisconnects(t);
        online := online - {t};
      }
      ToldQuiet(net.locals, graves, sent, nextRef, To(t, Sync(up, token), Nobody));
      Send(t, Sync(up, token), Nobody);
    }

    /** CNXN: an online transport is reset first; any banner brings it online. */
    method HandleConnect(t: Transport)
      requires Valid() && t in net.disconnects
      modifies this`net, this`sent, this`graves, this`online
      ensures Valid() && sent == old(sent) + [To(t, Connect, Nobody)] && online == old(online) + {t}
      ensures t in net.disconnects && net.disconnects[t] == [] && Spared(old(net), net, t)
    {
      hide Linked, AllLawful, Bounded, AllSound, Spared, Told;
      SparedSelf(net, t);
      if t in online {
        RunDisconnects(t);
      }
      online := online + {t};
      ToldQuiet(net.locals, graves, sent, nextRef, To(t, Connect, Nobody));
      Send(t, Connect, Nobody);
    }

    /** OPEN: a socket pair, the first OKAY, and the first credit; a refused service is answered with CLSE. */
    method HandleOpen(t: Transport, remoteId: nat, served: bool)
      requires Valid() && t in net.disconnects
      modifies this
      ensures Valid() && online == old(online) && graves == old(graves)
      ensures Opened() == old(Opened()) + (if t in online && served then 1 else 0)
      ensures nextId == if t in online && served then (old(nextId) + 1) % ID_SPAN else old(nextId)
      ensures t !in online ==> net == old(net) && sent == old(sent)
      ensures t in online && !served ==> net == old(net) && sent == old(sent) + [To(t, Close(0, remoteId), Nobody)]
      ensures t in online && served ==>
        && net == AddPair(old(net), old(nextRef), Fresh(old(nextId), old(nextRef) + 1),
                          old(nextRef) + 1, Remote(remoteId, Other(old(nextRef)), t))
        && old(nextRef) !in old(net.locals) && old(nextRef) + 1 !in old(net.remotes)
        && sent == old(sent) + [To(t, Okay(old(nextId), remoteId), Other(old(nextRef)))]
    {
      hide Linked, AllLawful, Bounded, AllSound, Severed, Told, IdOf;
      if t in online {
        if !served {
          ToldQuiet(net.locals, graves, sent, nextRef, To(t, Close(0, remoteId), Nobody));
          Send(t, Close(0, remoteId), Nobody);
        } else {
          EvenLimit(net, nextRef);
          NextId(nextRef);
          var s, r := nextRef, nextRef + 1;
          var l, remote := Fresh(nextId, r), Remote(remoteId, Other(s), t);
          OpenKeeps(net, online, s, l, remote);
          OpenTold(net.locals, graves, sent, s, l, To(t, Okay(l.id, remoteId), Other(s)));
          net := AddPair(net, s, l, r, remote);
          nextRef := nextRef + 2;
          nextId := (nextId + 1) % ID_SPAN;
          Send(t, Okay(l.id, remoteId), Other(s));
        }
      }
    }

    /** OKAY: one more credit for the socket.  A listed socket has a peer, so no remote is ever made here. */
    method HandleOkay(t: Transport, id: nat)
      requires Valid() && t in net.disconnects
      modifies this`net
      ensures Valid()
      ensures net == old(net) <==> t !in online || Unknown(old(net), id)
      ensures forall s :: t in online && Addressee(old(net), id, s) ==>
        net == Put(old(net), s, Credit(old(net.locals)[s]))
    {
      hide Linked, AllLawful, Bounded, AllSound, Severed, Sound, Told, Voiced;
      var f := Find(net, id);
      FindExactly(net, id);
      if t in online && f.Other? {
        ListedFacts(net, f.ref);
        SoundAt(net.locals, f.ref);
        CreditSound(net.locals[f.ref]);
        VoicedSnoc(net.locals[f.ref].log, GotOkay);
        ToldPut(net.locals, graves, sent, nextRef, f.ref, Credit(net.locals[f.ref]));
        PutKeeps(net, f.ref, Credit(net.locals[f.ref]), nextRef);
        assert |Credit(net.locals[f.ref]).log| > |net.locals[f.ref].log|;
        net := Put(net, f.ref, Credit(net.locals[f.ref]));
      }
    }

    /** CLSE from the host. */
    method HandleClose(t: Transport, id: nat)
      requires Valid() && t in net.disconnects
      modifies this`net, this`sent, this`graves
      ensures Valid()
      ensures net == old(net) <==> t !in online || Unknown(old(net), id)
      ensures t !in online || Unknown(old(net), id) ==> sent == old(sent) && graves == old(graves)
      ensures forall s :: t in online && Addressee(old(net), id, s) ==>
        Linkable(old(net), s) && net == Shutdown(old(net), s) && sent == old(sent) + Farewell(old(net), s)
    {
      hide Linked, AllLawful, Bounded, AllSound, Severed, Sound, Shutdown, Farewell, SoundBut, Grave, Closable, Told;
      var f := Find(net, id);
      FindExactly(net, id);
      if t in online && f.Other? {
        ListedFacts(net, f.ref);
        SoundAt(net.locals, f.ref);
        SoundClosable(net.locals[f.ref], PeerClosed);
        ShutdownChanges(net, f.ref);
        CloseLocal(f.ref, PeerClosed);
      }
    }

    /**
     WRTE from the host.  The OKAY goes out at once if the fd took every byte, and the packet is queued if the
     fd would block; a broken fd closes the socket.
     */
    method HandleWrite(t: Transport, remoteId: nat, id: nat, data: seq<byte>, ws: seq<WriteResult>)
      returns (answer: Answer)
      requires Valid() && t in net.disconnects
      modifies this`net, this`sent, this`graves
      ensures Valid()
      ensures net == old(net) <==> t !in online || Unknown(old(net), id)
      ensures t !in online || Unknown(old(net), id) ==> sent == old(sent) && graves == old(graves)
      ensures forall s :: t in online && Addressee(old(net), id, s) ==>
          && Linkable(old(net), s) && answer == Due(old(net.locals)[s], |data|, ws)
          && (answer == Ready ==> sent == old(sent) + [To(t, Okay(id, remoteId), Other(s))])
          && (answer == Backlog ==> sent == old(sent) && s in net.locals && net.locals[s].queue != [])
          && (answer == Lost ==> sent == old(sent) + Farewell(old(net), s) && s !in net.locals)
          && (answer != Lost ==> s in net.locals && net == Put(old(net), s, net.locals[s]))
          && (answer != Lost ==> Sum(net.locals[s].log).accepted == Sum(old(net.locals)[s].log).accepted + data)
    {
      hide Linked, AllLawful, Bounded, AllSound, Severed, Sound, SoundBut, Allowed, Lawful, Sum, Closable, Without;
      hide Due, Told, Voiced, Said;
      answer := Backlog;
      var f := Find(net, id);
      FindExactly(net, id);
      if t in online && f.Other? {
        var s := f.ref;
        ListedFacts(net, s);
        SoundAt(net.locals, s);
        var m;
        m, answer := Enqueue(net.locals[s], data, ws);
        if answer == Lost {
          LostClosable(m);
          PutBut(net, s, m, nextRef);
          ToldPut(net.locals, graves, sent, nextRef, s, m);
          net := Put(net, s, m);
          CloseLocal(s, WriteFailed);
        } else {
          if answer == Ready {
            SumSnoc(m.log, SentOkay);
            OkayTold(net, graves, sent, nextRef, s, m, Note(m, SentOkay), To(t, Okay(m.id, remoteId), f));
            m := Note(m, SentOkay);
            Send(t, Okay(m.id, remoteId), f);
          } else {
            ToldPut(net.locals, graves, sent, nextRef, s, m);
          }
          PutKeeps(net, s, m, nextRef);
          net := Put(net, s, m);
        }
      }
    }

    // ----- events -----

    /** select, or the check for bad fds, reports events. */
    method Report(s: Ref, ev: Mask)
      requires Valid() && s in net.locals && Reportable(net.locals[s], ev)
      modifies this`net
      ensures Valid()
      ensures var l := old(net.locals)[s];
        net == Put(old(net), s, l.(got := Mask(l.got.read || ev.read, l.got.write || ev.write)))
    {
      hide Linked, AllLawful, Bounded, AllSound, Severed, Sound, Told, Voiced;
      var l := net.locals[s];
      SoundAt(net.locals, s);
      ReportedSound(l, ev);
      ToldPut(net.locals, graves, sent, nextRef, s, l.(got := Mask(l.got.read || ev.read, l.got.write || ev.write)));
      var m := l.(got := Mask(l.got.read || ev.read, l.got.write || ev.write));
      PutKeeps(net, s, m, nextRef);
      net := Put(net, s, m);
    }

    /** The FDE_WRITE half.  Finished on a socket that is not closing lets the handler go on to read. */
    method WriteEvent(s: Ref, ws: seq<WriteResult>) returns (outcome: Outcome)
      requires Valid() && s in net.locals && net.locals[s].got == Mask(false, false) && net.locals[s].queue != []
      modifies this`net, this`sent, this`graves
      ensures Valid() && OnlyAt(old(net.locals), net.locals, s) && Linkable(old(net), s)
      ensures outcome == Drains(old(net.locals)[s].queue, ws).1
      ensures outcome == Blocked ==>
        && s in net.locals && net == Put(old(net), s, net.locals[s]) && net.locals[s].queue != []
        && sent == old(sent) && graves == old(graves)
      ensures outcome == Broken ==>
        && (s !in net.locals <==> old(net.locals)[s].closing) && (s in net.locals ==> net.locals[s].closing)
        && sent == old(sent) + Farewell(old(net), s)
      ensures outcome == Finished && old(net.locals)[s].closing ==>
        && s !in net.locals && sent == old(sent)
        && graves.Keys == old(graves.Keys) + {s}
        && graves[s] != [] && graves[s][|graves[s]|-1] == Destroyed(AllWritten)
      ensures outcome == Finished && !old(net.locals)[s].closing ==>
        var l := old(net.locals)[s];
        && s in net.locals && net == Put(old(net), s, net.locals[s]) && l.peer.Other? && l.peer.ref in old(net.remotes)
        && net.locals[s] == l.(queue := [], want := l.want.(write := false), log := net.locals[s].log)
        && sent == old(sent) + [To(old(net.remotes)[l.peer.ref].transport,
            Okay(l.id, old(net.remotes)[l.peer.ref].id), Other(s))]
    {
      hide Linked, AllLawful, Bounded, AllSound, Severed, Sound, SoundBut, Allowed, Lawful, Sum, Closable, Conserved;
      hide Agrees, Shutdown, OnlyAt, Drains, Told, Voiced, Said;
      LinkedLinkable(net, s);
      var l := net.locals[s];
      SoundAt(net.locals, s);
      SoundParts(l);
      var m;
      m, outcome := Drain(l, ws);
      if outcome != Finished {
        UndrainedSound(l, m);
        ToldPut(net.locals, graves, sent, nextRef, s, m);
        PutKeeps(net, s, m, nextRef);
        ShutdownAt(net, s, m);
        net := Put(net, s, m);
        if outcome == Broken {
          SoundAt(net.locals, s);
          SoundClosable(m, WriteFailed);
          CloseLocal(s, WriteFailed);
        }
      } else if l.closing {
        ClosingPeer(net, s);
        DrainedClosable(m);
        ToldPut(net.locals, graves, sent, nextRef, s, m);
        ShutdownAt(net, s, m);
        PutBut(net, s, m, nextRef);
        net := Put(net, s, m);
        CloseLocal(s, AllWritten);
      } else {
        ResumedSound(l, m);
        ListedPeer(net, s);
        PutKeeps(net, s, Resumed(m), nextRef);
        PutOnly(net.locals, s, Resumed(m));
        var remote := net.remotes[l.peer.ref];
        OkayTold(net, graves, sent, nextRef, s, m, Resumed(m), To(remote.transport, Okay(l.id, remote.id), Other(s)));
        net := Put(net, s, Resumed(m));
        Send(remote.transport, Okay(l.id, remote.id), Other(s));
      }
    }

    /**
     The FDE_READ half: one WRTE with everything read, and no more reading until the host's OKAY; the end of
     the fd closes the socket.  A closing socket throws the bytes away.
     */
    method ReadEvent(s: Ref, rs: seq<ReadResult>)
      requires Valid() && s in net.locals && net.locals[s].got == Mask(false, false)
      requires !net.locals[s].closing ==> net.locals[s].want.read || net.locals[s].bad
      requires net.locals[s].bad ==> Delivered(rs, MAX_PAYLOAD).0 == []
      modifies this`net, this`sent, this`graves
      ensures Valid() && OnlyAt(old(net.locals), net.locals, s) && Linkable(old(net), s)
      ensures var (data, ended) := Delivered(rs, MAX_PAYLOAD);
        && sent == old(sent) + Outgoing(old(net), s, data) + (if ended then Farewell(old(net), s) else [])
        && (!ended ==> net == Put(old(net), s, ReadInto(old(net.locals)[s], data)))
        && (ended && s in net.locals ==> !old(net.locals)[s].closing && net.locals[s].closing)
        && (ended && s !in net.locals ==> old(net.locals)[s].closing || old(net.locals)[s].queue == [])
    {
      hide Linked, AllLawful, Bounded, AllSound, Severed, Sound, SoundBut, Closable, Delivered, Passed, Shutdown;
      hide OnlyAt, Told, Voiced, Said;
      LinkedLinkable(net, s);
      var l := net.locals[s];
      SoundAt(net.locals, s);
      var data, ended := ReadAll(rs);
      var m := ReadInto(l, data);
      ReadIntoSound(l, data);
      PutKeeps(net, s, m, nextRef);
      ShutdownAt(net, s, m);
      if l.closing { ClosingPeer(net, s); } else { ListedPeer(net, s); }
      if data != [] && !l.closing {
        var remote := net.remotes[l.peer.ref];
        WriteTold(net, graves, sent, nextRef, s, data, To(remote.transport, Write(l.id, remote.id, data), Other(s)));
        Send(remote.transport, Write(l.id, remote.id, data), Other(s));
      } else {
        VoicedSnoc(l.log, Read(data));
        ToldPut(net.locals, graves, sent, nextRef, s, m);
      }
      net := Put(net, s, m);
      if ended {
        SoundAt(net.locals, s);
        SoundClosable(m, ReadEnded);
        CloseLocal(s, ReadEnded);
      }
    }

    /**
     local_socket_event_func, called with the reported events: `outcome` is how the write half went, and the
     read half follows if there was none, or if it emptied the queue of a socket that is not closing.
     */
    method Handle(s: Ref, ws: seq<WriteResult>, rs: seq<ReadResult>) returns (outcome: Outcome)
      requires Valid() && s in net.locals && net.locals[s].got != Mask(false, false)
      requires net.locals[s].bad ==> Delivered(rs, MAX_PAYLOAD).0 == []
      modifies this`net, this`sent, this`graves
      ensures Valid() && OnlyAt(old(net.locals), net.locals, s) && Linkable(old(net), s)
      ensures outcome == if old(net.locals)[s].got.write then Drains(old(net.locals)[s].queue, ws).1 else Finished
      ensures var l := old(net.locals)[s];
        l.got.write && outcome != Finished ==>
          sent == old(sent) + (if outcome == Broken then Farewell(old(net), s) else []) && (outcome == Blocked ==>
            s in net.locals)
      ensures var l := old(net.locals)[s];
        l.got.write && outcome == Finished && l.closing ==> s !in net.locals && sent == old(sent)
      ensures var l := old(net.locals)[s];
        !l.got.write || (outcome == Finished && !l.closing) ==>
          var (data, ended) := if l.got.read then Delivered(rs, MAX_PAYLOAD) else ([], false);
          && sent == old(sent) + Answers(old(net), s) + Outgoing(old(net), s, data)
              + (if ended then Farewell(old(net), s) else [])
          && (s !in net.locals ==> ended)
    {
      hide Linked, AllLawful, Bounded, AllSound, Severed, Sound, SoundBut, Delivered, Farewell, Linkable, Lawful, Sum;
      hide Outgoing, OnlyAt, ReadInto, Drains, Told, Voiced, Said;
      var l := net.locals[s];
      SoundAt(net.locals, s);
      ReportedSound(l, Mask(false, false));
      EventFacts(l);
      LinkedLinkable(net, s);
      var m := l.(got := Mask(false, false));
      PutKeeps(net, s, m, nextRef);
      PutOnly(net.locals, s, m);
      SameMessages(net, s, m);
      ToldPut(net.locals, graves, sent, nextRef, s, m);
      ghost var n0 := net;
      net := Put(net, s, m);
      outcome := Finished;
      if l.got.write {
        outcome := WriteEvent(s, ws);
        OnlyAtTwice(n0.locals, m, net.locals, s);
        if outcome != Finished || l.closing { return; }
        PutTwice(n0, s, m, net.locals[s]);
        SameMessages(n0, s, net.locals[s]);
      }
      assert sent == old(sent) + Answers(n0, s);
      if l.got.read {
        ghost var n1 := net;
        ReadEvent(s, rs);
        OnlyAtThen(n0.locals, n1.locals, net.locals, s);
      } else {
        NoOutgoing(n0, s);
      }
    }

    /** An fd becomes invalid behind the socket's back. */
    method Spoil(s: Ref)
      requires Valid() && s in net.locals
      modifies this`net
      ensures Valid() && net == Put(old(net), s, old(net.locals)[s].(bad := true))
    {
      hide Linked, AllLawful, Bounded, AllSound, Severed, Sound, SoundBut, Told, Voiced;
      SoundAt(net.locals, s);
      SpoiledSound(net.locals[s]);
      ToldPut(net.locals, graves, sent, nextRef, s, net.locals[s].(bad := true));
      PutKeeps(net, s, net.locals[s].(bad := true), nextRef);
      net := Put(net, s, net.locals[s].(bad := true));
    }

    /** Peer symmetry and the laws, as they hold whenever no handler is running. */
    lemma BetweenHandlers()
      requires Valid()
      ensures forall s :: s in net.list ==>
        s in net.locals && net.locals[s].peer.Other? && net.locals[s].peer.ref in net.remotes &&
        net.remotes[net.locals[s].peer.ref].peer == Other(s)
      ensures Increasing(net.list)
      ensures Opened() <= ID_SPAN ==>
        forall s, x :: s in net.list && x in net.list && net.locals[s].id == net.locals[x].id ==> s == x
      ensures forall s :: s in net.closing ==>
        s in net.locals && net.locals[s].peer == Nobody && net.locals[s].queue != []
      ensures forall s :: s in net.locals ==>
        var t := Sum(net.locals[s].log);
        t.accepted == t.written + Flat(net.locals[s].queue) && t.writesOut <= 1 + t.okaysIn &&
        (t.oneAtATime <==> t.okaysOut + Bit(net.locals[s].queue != []) == t.writesIn) &&
        (s in net.list ==> (net.locals[s].want.read <==> t.granted))
      ensures forall s :: s in net.locals ==> Said(sent, s) == Voiced(net.locals[s].log)
      ensures forall s :: s in graves ==>
        s !in net.locals && Lawful(graves[s]) && Sum(graves[s]).ended && Said(sent, s) == Voiced(graves[s])
      ensures forall i :: 0 <= i < |sent| ==> Known(net.locals, graves, sent[i])
    {
      if Opened() <= ID_SPAN {
        DistinctIds(net, nextRef);
      }
      hide Lawful, Sum, NoDup, Flat, Said, Voiced, Known, IdOf;
    }
  }

  lemma SpoiledSound(l: Local)
    requires Sound(l)
    ensures Sound(l.(bad := true))
  {
    hide Lawful, Sum;
  }

  lemma EventFacts(l: Local)
    requires Sound(l)
    ensures l.got.write ==> l.queue != []
    ensures !l.closing && l.got.read ==> l.want.read || l.bad
  {
    hide Lawful, Sum;
  }

  ghost predicate OnlyAt(a: map<Ref, Local>, b: map<Ref, Local>, s: Ref) {
    forall x :: x != s ==> (x in a <==> x in b) && (x in a ==> a[x] == b[x])
  }

  /** The OKAY that answers the packets written out by this event. */
  function Answers(n: Net, s: Ref): (r: seq<Sent>)
    requires s in n.locals && (n.locals[s].peer.Other? ==> n.locals[s].peer.ref in n.remotes)
  {
    if n.locals[s].got.write && n.locals[s].peer.Other? then
      var remote := n.remotes[n.locals[s].peer.ref];
      [To(remote.transport, Okay(n.locals[s].id, remote.id), Other(s))]
    else []
  }

  lemma NoOutgoing(n: Net, s: Ref)
    requires Linkable(n, s)
    ensures Outgoing(n, s, []) == []
  {
  }

  /** What is sent for a socket depends on its id and peer alone. */
  lemma SameMessages(n: Net, s: Ref, l: Local)
    requires Linkable(n, s) && l.id == n.locals[s].id && l.peer == n.locals[s].peer
    ensures Linkable(Put(n, s, l), s) && Farewell(Put(n, s, l), s) == Farewell(n, s)
    ensures forall d :: Outgoing(Put(n, s, l), s, d) == Outgoing(n, s, d)
  {
  }

  lemma PutTwice(n: Net, s: Ref, l: Local, m: Local)
    ensures Put(Put(n, s, l), s, m) == Put(n, s, m)
  {
  }

  lemma OnlyAtTwice(a: map<Ref, Local>, l: Local, b: map<Ref, Local>, s: Ref)
    requires OnlyAt(a[s := l], b, s)
    ensures OnlyAt(a, b, s)
  {
  }

  lemma OnlyAtThen(a: map<Ref, Local>, b: map<Ref, Local>, c: map<Ref, Local>, s: Ref)
    requires OnlyAt(a, b, s) && OnlyAt(b, c, s)
    ensures OnlyAt(a, c, s)
  {
  }

  lemma PutOnly(a: map<Ref, Local>, s: Ref, l: Local)
    ensures OnlyAt(a, a[s := l], s)
  {
  }

  lemma ShutdownAt(n: Net, s: Ref, l: Local)
    requires Linkable(n, s) && l.peer == n.locals[s].peer && l.closing == n.locals[s].closing
    ensures Linkable(Put(n, s, l), s)
    ensures var m := Shutdown(Put(n, s, l), s).locals;
      && OnlyAt(n.locals, m, s)
      && (s in m <==> !l.closing && l.queue != []) && (s in m ==> m[s].closing)
    ensures OnlyAt(n.locals, Put(n, s, l).locals, s)
  {
    hide Without, Shut;
    ShutClosing(l);
  }

  /** The WRTE for bytes read from socket `s`. */
  function Outgoing(n: Net, s: Ref, data: seq<byte>): (r: seq<Sent>)
    requires s in n.locals && (n.locals[s].peer.Other? ==> n.locals[s].peer.ref in n.remotes)
  {
    if data != [] && n.locals[s].peer.Other? then
      var remote := n.remotes[n.locals[s].peer.ref];
      [To(remote.transport, Write(n.locals[s].id, remote.id, data), Other(s))]
    else []
  }

  function ReadInto(l: Local, data: seq<byte>): (r: Local) {
    if data == [] then l else if l.closing then Note(l, Read(data)) else Passed(l, data)
  }

  lemma ReadIntoSound(l: Local, data: seq<byte>)
    requires Sound(l) && l.got == Mask(false, false) && |data| <= MAX_PAYLOAD
    requires !l.closing && data != [] ==> l.want.read
    ensures Sound(ReadInto(l, data))
    ensures var m := ReadInto(l, data); m.peer == l.peer && m.closing == l.closing && m.queue == l.queue && m.id == l.id
  {
    hide Sound;
    if data != [] {
      if l.closing { DiscardSound(l, data); } else { PassedSound(l, data); }
    }
  }

  /** Everything read is in the history, passed on or not. */
  lemma ReadIntoReads(l: Local, data: seq<byte>)
    ensures var t, u := Sum(l.log), Sum(ReadInto(l, data).log);
      u.read == t.read + data && u.relayed == t.relayed + if l.closing then [] else data
  {
    hide Sum, Passed;
    SumSnoc(l.log, Read(data));
    SumSnoc(l.log + [Read(data)], SentWrite(data));
    PassedLog(l, data);
  }

  lemma PassedLog(l: Local, data: seq<byte>)
    ensures Passed(l, data).log == l.log + [Read(data)] + [SentWrite(data)]
  {
  }

  lemma ClosingPeer(n: Net, s: Ref)
    requires Linked(n) && s in n.locals && n.locals[s].closing
    ensures n.locals[s].peer == Nobody
  {
  }

  /** An OKAY after the first one. */
  lemma OkayTold(n: Net, graves: Graves, sent: seq<Sent>, limit: Ref, s: Ref, m: Local, l: Local, p: Sent)
    requires Told(n.locals, graves, sent, limit) && s in n.locals && Sound(n.locals[s])
    requires Voiced(m.log) == Voiced(n.locals[s].log) && l.log == m.log + [SentOkay]
    requires p.about == Other(s) && p.packet.Okay?
    ensures Told(n.locals[s := l], graves, sent + [p], limit)
  {
    hide Told, Said, Voiced, Agrees;
    ToldAt(n.locals, graves, sent, limit, s);
    SpokenTo(n.locals[s].log);
    VoicedSnoc(m.log, SentOkay);
    ToldVoice(n.locals, graves, sent, limit, s, l, p);
  }

  lemma WriteTold(n: Net, graves: Graves, sent: seq<Sent>, limit: Ref, s: Ref, data: seq<byte>, p: Sent)
    requires Told(n.locals, graves, sent, limit) && s in n.locals
    requires p.about == Other(s) && p.packet.Write? && p.packet.data == data
    ensures Told(n.locals[s := Passed(n.locals[s], data)], graves, sent + [p], limit)
  {
    hide Told, Said, Voiced;
    ToldAt(n.locals, graves, sent, limit, s);
    VoicedSnoc(n.locals[s].log, Read(data));
    VoicedSnoc(n.locals[s].log + [Read(data)], SentWrite(data));
    ToldVoice(n.locals, graves, sent, limit, s, Passed(n.locals[s], data), p);
  }

  /** A history that has begun has told something. */
  lemma {:induction false} SpokenTo(log: seq<Event>)
    requires log != [] && log[0] == Opened
    ensures Voiced(log) != []
    decreases |log|
  {
    if |log| > 1 {
      SpokenTo(log[..|log|-1]);
    }
  }

  lemma ListedPeer(n: Net, s: Ref)
    requires Linked(n) && s in n.locals && !n.locals[s].closing
    ensures n.locals[s].peer.Other? && n.locals[s].peer.ref in n.remotes
  {
  }

  lemma SoundParts(l: Local)
    requires Sound(l)
    ensures Lawful(l.log) && Conserved(Sum(l.log), l)
  {
    hide Lawful, Sum, Conserved;
  }

  lemma UndrainedSound(l: Local, m: Local)
    requires Sound(l) && l.queue != [] && m.queue != [] && m == l.(queue := m.queue, log := m.log)
    requires Lawful(m.log) && Conserved(Sum(m.log), m) && Sum(m.log) == Sum(l.log).(written := Sum(m.log).written)
    ensures Sound(m)
  {
    hide Lawful, Sum;
  }

  lemma DrainedClosable(m: Local)
    requires m.closing && m.queue == [] && Lawful(m.log) && Conserved(Sum(m.log), m)
    ensures Closable(m, AllWritten)
  {
    hide Lawful, Sum;
    assert Flat([]) == [];
  }

  lemma LostClosable(m: Local)
    requires m.queue == [] && Lawful(m.log) && !Sum(m.log).ended
    ensures Closable(m, WriteFailed)
  {
    hide Lawful, Sum;
  }

  lemma ListedFacts(n: Net, s: Ref)
    requires Linked(n) && s in n.list
    ensures Linkable(n, s) && !n.locals[s].closing && n.locals[s].peer.Other?
  {
    LinkedLinkable(n, s);
  }

  lemma PutBut(n: Net, s: Ref, l: Local, limit: Ref)
    requires Linked(n) && SoundBut(n.locals, s) && Bounded(n, limit) && s in n.locals
    requires l.peer == n.locals[s].peer && l.closing == n.locals[s].closing && l.id == n.locals[s].id
    ensures Linked(Put(n, s, l)) && SoundBut(Put(n, s, l).locals, s) && Bounded(Put(n, s, l), limit)
  {
    hide Linked, Sound;
    PutLinked(n, s, l);
  }

  lemma PutKeeps(n: Net, s: Ref, l: Local, limit: Ref)
    requires Linked(n) && SoundBut(n.locals, s) && Bounded(n, limit) && s in n.locals && Sound(l)
    requires l.peer == n.locals[s].peer && l.closing == n.locals[s].closing && l.id == n.locals[s].id
    ensures Linked(Put(n, s, l)) && AllSound(Put(n, s, l).locals) && Bounded(Put(n, s, l), limit)
  {
    hide Linked, Sound, Bounded, AllSound, SoundBut;
    PutBut(n, s, l, limit);
    PutSound(n.locals, s, l);
  }

  lemma OpenTold(locals: map<Ref, Local>, graves: Graves, sent: seq<Sent>, s: Ref, l: Local, m: Sent)
    requires Told(locals, graves, sent, s) && l == Fresh(l.id, s + 1) && m.about == Other(s) && m.packet.Okay?
    ensures Told(locals[s := l], graves, sent + [m], s + 2)
  {
    SaidNothing(sent, s);
    ToldMore(locals, graves, sent, s, s + 2);
    VoicedSnoc([], Opened);
    assert [] + [Opened] == [Opened];
    hide Said, Voiced, Told;
    ToldVoice(locals, graves, sent, s + 2, s, l, m);
  }

  lemma FreshFacts(id: nat, peer: Ref)
    ensures Fresh(id, peer).peer == Other(peer) && !Fresh(id, peer).closing && Fresh(id, peer).id == id
  {
  }

  lemma OpenKeeps(n: Net, online: set<Transport>, s: Ref, l: Local, remote: Remote)
    requires Linked(n) && AllSound(n.locals) && Bounded(n, s) && Severed(n.disconnects, online)
    requires l == Fresh(IdOf(s), s + 1) && remote.peer == Other(s) && remote.transport in n.disconnects
    requires remote.transport in online
    ensures s !in n.locals && s + 1 !in n.remotes
    ensures var m := AddPair(n, s, l, s + 1, remote);
      Linked(m) && AllSound(m.locals) && Bounded(m, s + 2) && Severed(m.disconnects, online)
  {
    hide Sound, Linked, Fresh, IdOf;
    FreshSound(IdOf(s), s + 1);
    FreshFacts(IdOf(s), s + 1);
    AddLinked(n, s, l, s + 1, remote);
  }

  // ----- disconnect lists -----

  function First(l: seq<Ref>): (r: Peer) {
    if l == [] then Nobody else Other(l[0])
  }

  /** dis->next. */
  function After(l: seq<Ref>, x: Ref): (r: Peer) {
    if l == [] then Nobody else if l[0] == x then First(l[1..]) else After(l[1..], x)
  }

  /**
   Only sockets of transport `t` are affected: the others, and those closing already, are as before, and what
   is left of the rest is closing.
   */
  ghost predicate Spared(n: Net, m: Net, t: Transport) {
    m.disconnects.Keys == n.disconnects.Keys && SparedLocals(n.locals, m.locals)
      && SparedRemotes(n.remotes, m.remotes, t)
  }

  ghost predicate SparedLocals(a: map<Ref, Local>, b: map<Ref, Local>) {
    && (forall s :: s in b ==> s in a && (b[s] == a[s] || b[s] == Shut(a[s])))
    && (forall s :: s in a && a[s].closing ==> s in b && b[s] == a[s])
  }

  ghost predicate SparedRemotes(a: map<Ref, Remote>, b: map<Ref, Remote>, t: Transport) {
    && (forall r :: r in b ==> r in a && b[r] == a[r])
    && (forall r :: r in a && a[r].transport != t ==> r in b)
  }

  lemma SparedSelf(n: Net, t: Transport)
    ensures Spared(n, n, t)
  {
  }

  lemma AttachedAt(n: Net, t: Transport, r: Ref)
    requires Linked(n) && t in n.disconnects && r in n.disconnects[t]
    ensures r in n.remotes && n.remotes[r].transport == t
  {
  }

  lemma NoneLeft(n: Net, t: Transport)
    requires Linked(n) && t in n.disconnects && n.disconnects[t] == []
    ensures forall r :: r in n.remotes ==> n.remotes[r].transport != t
  {
  }

  lemma ShutClosing(l: Local)
    ensures Shut(l).closing
  {
  }

  lemma RetireSpares(a: map<Ref, Local>, n: Net, s: Ref)
    requires SparedLocals(a, n.locals) && s in n.locals && !n.locals[s].closing
    ensures SparedLocals(a, Retire(n, s).locals)
  {
    hide Shut, Without;
    ShutClosing(a[s]);
  }

  lemma DropSpares(a: map<Ref, Remote>, b: map<Ref, Remote>, r: Ref, t: Transport)
    requires SparedRemotes(a, b, t) && r in b && b[r].transport == t
    ensures SparedRemotes(a, b - {r}, t)
  {
  }

  lemma ShutdownSpares(n: Net, m: Net, t: Transport, r: Ref)
    requires Spared(n, m, t) && Linked(m) && t in m.disconnects && First(m.disconnects[t]) == Other(r)
    requires r in m.remotes && m.remotes[r].transport == t
    ensures m.remotes[r].peer.Other? && Linkable(m, m.remotes[r].peer.ref)
    ensures var k := Shutdown(m, m.remotes[r].peer.ref);
      && Spared(n, k, t) && t in k.disconnects
      && First(k.disconnects[t]) == After(m.disconnects[t], r) && |k.disconnects[t]| < |m.disconnects[t]|
  {
    hide Linked, Shut, SparedLocals, SparedRemotes;
    RemoteFacts(m, r);
    var s := m.remotes[r].peer.ref;
    LinkedLinkable(m, s);
    RetireSpares(n.locals, DropRemote(m, r), s);
    DropSpares(n.remotes, m.remotes, r, t);
    assert Without(m.disconnects[t], r) == m.disconnects[t][1..];
  }

  /** The CLSE that goes out when `s` is closed from this side. */
  function Farewell(n: Net, s: Ref): (r: seq<Sent>)
    requires s in n.locals && (n.locals[s].peer.Other? ==> n.locals[s].peer.ref in n.remotes)
  {
    if n.locals[s].peer.Other? then
      var remote := n.remotes[n.locals[s].peer.ref];
      [To(remote.transport, Close(0, remote.id), Other(s))]
    else []
  }

  /** The history of `s` is complete if closing frees it. */
  function Grave(n: Net, graves: Graves, s: Ref, cause: Cause): (r: Graves)
    requires s in n.locals
  {
    var l := n.locals[s];
    if l.closing || l.queue == [] then graves[s := l.log + [Destroyed(cause)]] else graves
  }

  lemma RemoteFacts(n: Net, r: Ref)
    requires Linked(n) && r in n.remotes
    ensures n.remotes[r].transport in n.disconnects && n.remotes[r].peer.Other?
    ensures var s := n.remotes[r].peer.ref; s in n.locals && n.locals[s].peer == Other(r) && !n.locals[s].closing
  {
  }

  lemma SoundAt(locals: map<Ref, Local>, s: Ref)
    requires AllSound(locals) && s in locals
    ensures Sound(locals[s]) && SoundBut(locals, s)
  {
    hide Sound;
  }
}
