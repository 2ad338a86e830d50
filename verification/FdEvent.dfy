/**
 The select-based event loop of minadbd/fdevent.c: the table of registered fds, the three fd sets, and the
 ring of fdevents with unhandled events, which is doubly linked through the fdevents themselves.
 */
module FdEvent {
  /** The low byte of `state` and of `events`. */
  datatype Flag = READ | WRITE | ERROR | TIMEOUT | DONT_CLOSE

  class Fde {
    var next: Fde?
    var prev: Fde?
    var fd: int
    var active: bool       // FDE_ACTIVE
    var pending: bool      // FDE_PENDING
    var want: set<Flag>    // state & FDE_EVENTMASK
    var got: set<Flag>     // events

    constructor ()
      ensures next == null && prev == null && !active && !pending && want == {} && got == {}
    {
      next, prev, fd, active, pending, want, got := null, null, 0, false, false, {}, {};
    }

    /** The first lines of fdevent_install. */
    method Reset(fd: int)
      modifies this
      ensures next == null && prev == null && this.fd == fd && active && !pending && want == {} && got == {}
    {
      next, prev, active, pending, want, got := null, null, true, false, {}, {};
      this.fd := fd;
    }
  }

  // ----- the ring -----

  /** Each element is linked to the following one, both ways. */
  ghost predicate Chain(c: seq<Fde>)
    reads c`next, c`prev
  {
    forall i, j :: 0 <= i < |c| && j == i + 1 && j < |c| ==> c[i].next == c[j] && c[j].prev == c[i]
  }

  ghost predicate Distinct(c: seq<Fde>) {
    forall i, j :: 0 <= i < j < |c| ==> c[i] != c[j]
  }

  /** A circular list through the sentinel `list`, holding `ring` in order and nothing twice. */
  ghost predicate Ring(list: Fde, ring: seq<Fde>)
    reads list`next, list`prev, ring`next, ring`prev
  {
    Distinct([list] + ring) && Chain([list] + ring + [list])
  }

  lemma DistinctSnoc(list: Fde, ring: seq<Fde>, node: Fde)
    requires Distinct([list] + ring) && node != list && node !in ring
    ensures Distinct([list] + (ring + [node]))
  {
    var c, d := [list] + ring, [list] + (ring + [node]);
    assert forall i :: 0 <= i <= |ring| ==> d[i] == c[i];
    assert forall i :: 0 <= i <= |ring| ==> c[i] == list || c[i] in ring;
  }

  lemma DistinctCut(list: Fde, ring: seq<Fde>, k: nat)
    requires Distinct([list] + ring) && k < |ring|
    ensures Distinct([list] + (ring[..k] + ring[k+1..]))
    ensures ring[k] !in ring[..k] + ring[k+1..]
    ensures forall x :: x in ring[..k] + ring[k+1..] <==> x in ring && x != ring[k]
  {
    var c, d := [list] + ring, [list] + (ring[..k] + ring[k+1..]);
    assert forall i :: 0 <= i <= k ==> d[i] == c[i];
    assert forall i :: k < i < |d| ==> d[i] == c[i+1];
    var e := ring[..k] + ring[k+1..];
    assert forall i :: 0 <= i < k ==> e[i] == c[i+1];
    assert forall i :: k <= i < |e| ==> e[i] == c[i+2];
    assert c[k+1] == ring[k];
    forall x | x in ring && x != ring[k] ensures x in e {
      var i :| 0 <= i < |ring| && ring[i] == x;
      if i < k { assert e[i] == x; } else { assert e[i-1] == x; }
    }
  }

  method PlistEnqueue(list: Fde, ghost ring: seq<Fde>, node: Fde)
    requires Ring(list, ring) && node != list && node !in ring
    modifies list`prev, list`next, node`next, node`prev, ring`next
    ensures Ring(list, ring + [node])
  {
    hide Distinct;
    ghost var n := |ring|;
    ghost var c := [list] + ring + [list];
    assert c[n+1].prev == c[n] && c[n+1] == list;
    DistinctSnoc(list, ring, node);
    node.next := list;
    node.prev := list.prev;
    node.prev.next := node;
    list.prev := node;
    ghost var d := [list] + (ring + [node]) + [list];
    assert d[n] == c[n] && d[n+1] == node && d[n+2] == list;
    forall i, j | 0 <= i < |d| && j == i + 1 && j < |d| ensures d[i].next == d[j] && d[j].prev == d[i] {
      if j <= n {
        assert d[i] == c[i] && d[j] == c[j];
        DistinctAt([list] + ring, i, n);
        DistinctAt([list] + ring, 0, j);
      }
    }
  }

  lemma DistinctAt(c: seq<Fde>, i: nat, j: nat)
    requires Distinct(c) && i < j < |c|
    ensures c[i] != c[j]
  {
  }

  /** Positions before and after cutting out element k, and which nodes the cut does not touch. */
  lemma CutStep(list: Fde, ring: seq<Fde>, k: nat, i: nat)
    requires Distinct([list] + ring) && k < |ring| && i < |ring|
    ensures var c, d := [list] + ring + [list], [list] + (ring[..k] + ring[k+1..]) + [list];
      && (i < k ==> d[i] == c[i] && d[i+1] == c[i+1] && c[i] !in {c[k], c[k+1]} && c[i+1] !in {c[k+1], c[k+2]})
      && (i == k ==> d[i] == c[k] && d[i+1] == c[k+2] && c[k] != c[k+1] && c[k+2] != c[k+1])
      && (i > k ==> d[i] == c[i+1] && d[i+1] == c[i+2] && c[i+1] !in {c[k], c[k+1]} && c[i+2] !in {c[k+1], c[k+2]})
  {
    var c, r := [list] + ring + [list], [list] + ring;
    assert forall x :: 0 <= x <= |ring| ==> c[x] == r[x];
    assert c[|ring|+1] == r[0];
  }

  method PlistRemove(list: Fde, ghost ring: seq<Fde>, node: Fde, ghost k: nat)
    requires Ring(list, ring) && k < |ring| && ring[k] == node
    modifies list`prev, list`next, ring`next, ring`prev
    ensures Ring(list, ring[..k] + ring[k+1..]) && node.next == null && node.prev == null
  {
    hide Distinct;
    ghost var r := [list] + ring;
    ghost var c := [list] + ring + [list];
    assert c[k].next == c[k+1] && c[k+1].prev == c[k] && c[k+1].next == c[k+2] && c[k+1] == node;
    DistinctCut(list, ring, k);
    node.prev.next := node.next;
    node.next.prev := node.prev;
    assert node == r[k+1] && c[k] == r[k];
    DistinctAt(r, k, k + 1);
    node.next := null;
    node.prev := null;
    ghost var d := [list] + (ring[..k] + ring[k+1..]) + [list];
    forall i, j | 0 <= i < |d| && j == i + 1 && j < |d| ensures d[i].next == d[j] && d[j].prev == d[i] {
      CutStep(list, ring, k, i);
      if i < k {
        assert old(c[i].next == c[i+1] && c[i+1].prev == c[i]);
      } else if i > k {
        assert old(c[i+1].next == c[i+2] && c[i+2].prev == c[i+1]);
      }
    }
  }

  method PlistDequeue(list: Fde, ghost ring: seq<Fde>) returns (node: Fde?)
    requires Ring(list, ring)
    modifies list`prev, list`next, ring`next, ring`prev
    ensures node == null <==> ring == []
    ensures node == null ==> Ring(list, ring)
    ensures node != null ==> node == ring[0] && Ring(list, ring[1..]) && node.next == null && node.prev == null
  {
    hide Distinct;
    ghost var c := [list] + ring + [list];
    assert c[0].next == c[1];
    var first := list.next;
    if first == list {
      node := null;
      if ring != [] { DistinctAt([list] + ring, 0, 1); }
    } else {
      node := first;
      assert c[1].next == c[2] && c[1] == node && ring[0] == node;
      DistinctCut(list, ring, 0);
      assert ring[..0] + ring[1..] == ring[1..];
      CutStep(list, ring, 0, 0);
      list.next := node.next;
      list.next.prev := list;
      node.next := null;
      node.prev := null;
      ghost var d := [list] + (ring[..0] + ring[1..]) + [list];
      forall i, j | 0 <= i < |d| && j == i + 1 && j < |d| ensures d[i].next == d[j] && d[j].prev == d[i] {
        CutStep(list, ring, 0, i);
        if i > 0 {
          assert old(c[i+1].next == c[i+2] && c[i+2].prev == c[i+1]);
        }
      }
    }
  }

  // ----- the loop -----

  /** The fdevents in the ring are exactly those with FDE_PENDING, which are those with unhandled events. */
  ghost predicate Ringed(list: Fde, ring: seq<Fde>, nodes: set<Fde>)
    reads list`next, list`prev, ring`next, ring`prev, nodes`pending, nodes`got
  {
    Ring(list, ring) && list !in nodes && (forall x :: x in ring ==> x in nodes) && Tagged(ring, nodes)
  }

  ghost predicate Tagged(ring: seq<Fde>, nodes: set<Fde>)
    reads nodes`pending, nodes`got
  {
    forall x :: x in nodes ==> (x.pending <==> x in ring) && (x.pending <==> x.got != {})
  }

  /** fd_table holds exactly the installed fdevents, each at its own fd, and select looks at all of them. */
  ghost predicate Registered(table: seq<Fde?>, selectN: nat, nodes: set<Fde>)
    reads nodes`fd, nodes`active
  {
    && selectN <= |table|
    && (forall x :: x in nodes ==> x.active && 0 <= x.fd < |table| && table[x.fd] == x && x.fd < selectN)
    && (forall i :: 0 <= i < |table| && table[i] != null ==> table[i] in nodes && table[i].fd == i)
  }

  /** An fd is in a set that select watches exactly if it is registered and wants that event. */
  ghost predicate Watching(fds: set<int>, flag: Flag, table: seq<Fde?>, nodes: set<Fde>)
    reads nodes`fd, nodes`want
  {
    && (forall x :: x in nodes ==> (flag in x.want <==> x.fd in fds))
    && (forall f :: f in fds ==> 0 <= f < |table| && table[f] != null)
  }

  ghost predicate Watched(r: set<int>, w: set<int>, e: set<int>, table: seq<Fde?>, nodes: set<Fde>)
    reads nodes`fd, nodes`want
  {
    Watching(r, READ, table, nodes) && Watching(w, WRITE, table, nodes) && Watching(e, ERROR, table, nodes)
  }

  /** select's answer: the ready fds, EBADF with the fds found bad, or another error. */
  datatype Selected = Fine(r: set<int>, w: set<int>, e: set<int>) | BadFds(bad: set<int>) | Nothing

  class Loop {
    const list: Fde
    var table: seq<Fde?>
    var selectN: nat
    var readFds: set<int>
    var writeFds: set<int>
    var errorFds: set<int>
    ghost var ring: seq<Fde>
    ghost var nodes: set<Fde>

    ghost predicate Valid()
      reads this, list, ring, nodes
    {
      && Ringed(list, ring, nodes)
      && Registered(table, selectN, nodes)
      && Watched(readFds, writeFds, errorFds, table, nodes)
    }

    constructor ()
      ensures Valid() && nodes == {} && ring == [] && fresh(list)
    {
      var l := new Fde();
      list := l;
      table, selectN, readFds, writeFds, errorFds, ring, nodes := [], 0, {}, {}, {}, [], {};
      new;
      l.next, l.prev := l, l;
    }

    /**
     fdevent_install with fdevent_register and fdevent_connect; false where the program aborts.  An fdevent
     that is registered for the fd already is displaced, which breaks the invariant.
     */
    method Install(fde: Fde, fd: int) returns (ok: bool)
      requires Valid() && fde !in nodes && fde != list
      modifies this, fde
      ensures ok <==> 0 <= fd && (fd < |old(table)| || fd <= 32000)
      ensures ok ==> ring == old(ring) && fde.fd == fd && fde.want == {} && !fde.pending
      ensures ok && !(fd < |old(table)| && old(table)[fd] != null) ==> Valid() && nodes == old(nodes) + {fde}
      ensures ok && fd < |old(table)| && old(table)[fd] != null ==>
        table == old(table)[fd := fde] && nodes == old(nodes)
    {
      hide Ringed, Registered, Watched;
      NotInRing(list, ring, nodes);
      fde.Reset(fd);
      if fd < 0 { return false; }
      if fd < |table| && table[fd] != null {
        table := table[fd := fde];
        if fd >= selectN { selectN := fd + 1; }
        return true;
      }
      ok := Reserve(fd);
      if ok {
        Register(fde);
      }
    }

    /** fd_table[fde->fd] = fde, and fdevent_connect. */
    method Register(fde: Fde)
      requires Valid() && fde !in nodes && fde != list
      requires fde.active && 0 <= fde.fd < |table| && table[fde.fd] == null && !fde.pending && fde.want == {}
      requires fde.got == {}
      modifies this`table, this`nodes, this`selectN
      ensures Valid() && nodes == old(nodes) + {fde}
    {
      hide Ringed, Registered, Watched;
      InstallKeeps(list, ring, table, selectN, nodes, fde);
      InstallWatches(readFds, writeFds, errorFds, table, nodes, fde);
      table := table[fde.fd := fde];
      nodes := nodes + {fde};
      if fde.fd >= selectN { selectN := fde.fd + 1; }
    }

    /** The growth of fd_table in fdevent_register. */
    method Reserve(fd: nat) returns (ok: bool)
      requires Registered(table, selectN, nodes) && Watched(readFds, writeFds, errorFds, table, nodes)
      requires fd < |table| ==> table[fd] == null
      modifies this`table
      ensures ok <==> fd < |old(table)| || fd <= 32000
      ensures ok ==> fd < |table| && table[fd] == null
      ensures Registered(table, selectN, nodes) && Watched(readFds, writeFds, errorFds, table, nodes)
    {
      hide Registered, Watched;
      if fd >= |table| {
        if fd > 32000 { return false; }
        var max := if |table| == 0 then 256 else |table|;
        while max <= fd
          invariant max >= |table| && max > 0
        {
          max := max * 2;
        }
        GrownKeeps(table, max, selectN, nodes, readFds, writeFds, errorFds);
        table := Grown(table, max);
      }
      return true;
    }

    /** fdevent_disconnect: select_n shrinks to the highest registered fd (the one being removed included). */
    method Disconnect(fd: nat)
      requires Registered(table, selectN, nodes) && table != []
      modifies this`readFds, this`writeFds, this`errorFds, this`selectN
      ensures readFds == old(readFds) - {fd} && writeFds == old(writeFds) - {fd} && errorFds == old(errorFds) - {fd}
      ensures Registered(table, selectN, nodes)
      ensures selectN == 1 || (0 < selectN <= |table| && table[selectN-1] != null)
    {
      hide Registered;
      readFds, writeFds, errorFds := readFds - {fd}, writeFds - {fd}, errorFds - {fd};
      var n, i: nat := 0, 0;
      InBounds(table, selectN, nodes);
      while i < selectN
        invariant i <= selectN && (n == 0 || (n < i && table[n] != null))
        invariant forall j :: 0 <= j < i && table[j] != null ==> j <= n
      {
        if table[i] != null { n := i; }
        i := i + 1;
      }
      ShrunkKeeps(table, selectN, n + 1, nodes);
      selectN := n + 1;
    }

    /** fdevent_plist_remove for an fdevent in the ring. */
    method Unring(fde: Fde)
      requires Ring(list, ring) && list !in nodes && Tagged(ring, nodes - {fde}) && fde in ring
      modifies this`ring, list`prev, list`next, ring`next, ring`prev
      ensures Ring(list, ring) && Tagged(ring, nodes - {fde}) && fde !in ring
      ensures forall x :: x in ring <==> x in old(ring) && x != fde
    {
      hide Ring, Tagged;
      ghost var k :| 0 <= k < |ring| && ring[k] == fde;
      RingDistinct(list, ring);
      DistinctCut(list, ring, k);
      ghost var cut := ring[..k] + ring[k+1..];
      TaggedCut(ring, cut, nodes, fde);
      PlistRemove(list, ring, fde, k);
      ring := cut;
    }

    /** fdevent_remove: out of the ring, out of the sets, out of the table. */
    method Remove(fde: Fde)
      requires Valid() && fde in nodes
      modifies this, fde, list, ring
      ensures Valid() && nodes == old(nodes) - {fde}
      ensures forall x :: x in ring <==> x in old(ring) && x != fde
      ensures 0 <= old(fde.fd) < |old(table)| && table == old(table)[old(fde.fd) := null]
      ensures !fde.active && !fde.pending && fde.want == {} && fde.got == {}
    {
      hide Registered, Watched, Ringed, Ring, Tagged;
      RegisteredAt(table, selectN, nodes, fde);
      RingedParts(list, ring, nodes, fde);
      if fde.pending {
        Unring(fde);
      }
      Unregister(fde);
      fde.active, fde.pending, fde.want, fde.got := false, false, {}, {};
      RingedFrom(list, ring, nodes);
    }

    /** fdevent_disconnect and fdevent_unregister. */
    method Unregister(fde: Fde)
      requires Registered(table, selectN, nodes) && Watched(readFds, writeFds, errorFds, table, nodes) && fde in nodes
      modifies this`readFds, this`writeFds, this`errorFds, this`selectN, this`table, this`nodes
      ensures nodes == old(nodes) - {fde} && 0 <= fde.fd < |old(table)| && table == old(table)[fde.fd := null]
      ensures Registered(table, selectN, nodes) && Watched(readFds, writeFds, errorFds, table, nodes)
    {
      hide Registered, Watched;
      RegisteredAt(table, selectN, nodes, fde);
      RemoveWatches(readFds, writeFds, errorFds, table, selectN, nodes, fde);
      Disconnect(fde.fd);
      RemoveRegisters(table, selectN, nodes, fde);
      table := table[fde.fd := null];
      nodes := nodes - {fde};
    }

    /**
     fdevent_set.  Reported events survive exactly if they are not in the new subscription, and the fdevent
     leaves the ring when none survives; a subscription that does not change leaves everything as it is.
     */
    method Set(fde: Fde, events: set<Flag>)
      requires Valid() && fde in nodes
      modifies this`readFds, this`writeFds, this`errorFds, this`ring, fde, list, ring
      ensures Valid() && fde.want == events && fde.fd == old(fde.fd)
      ensures fde.got == if events == old(fde.want) then old(fde.got) else old(fde.got) - events
      ensures forall x :: x in ring <==> x in old(ring) && (x != fde || fde.got != {})
    {
      hide Registered, Watched, Ringed, Ring, Tagged, Toggle;
      RingedParts(list, ring, nodes, fde);
      if fde.want == events { return; }
      Update(fde, events);
      if fde.pending {
        Mask(fde, events);
      }
    }

    /** fdevent_update: the fd joins or leaves each of the three sets. */
    method Update(fde: Fde, events: set<Flag>)
      requires Registered(table, selectN, nodes) && Watched(readFds, writeFds, errorFds, table, nodes) && fde in nodes
      modifies this`readFds, this`writeFds, this`errorFds, fde`want
      ensures Watched(readFds, writeFds, errorFds, table, nodes) && fde.want == events
    {
      hide Registered, Watched, Toggle;
      UpdateWatches(readFds, writeFds, errorFds, table, selectN, nodes, fde, events);
      readFds := Toggle(readFds, fde.fd, READ in events);
      writeFds := Toggle(writeFds, fde.fd, WRITE in events);
      errorFds := Toggle(errorFds, fde.fd, ERROR in events);
      fde.want := events;
      UpdatedWatches(readFds, writeFds, errorFds, table, nodes, fde);
    }

    /** Lines 641-651: the events in the new subscription are dropped. */
    method Mask(fde: Fde, events: set<Flag>)
      requires Ringed(list, ring, nodes) && fde in nodes && fde.pending
      modifies this`ring, fde`got, fde`pending, list`prev, list`next, ring`next, ring`prev
      ensures Ringed(list, ring, nodes) && fde.got == old(fde.got) - events
      ensures forall x :: x in ring <==> x in old(ring) && (x != fde || fde.got != {})
    {
      hide Ringed, Ring, Tagged;
      RingedParts(list, ring, nodes, fde);
      fde.got := fde.got - events;
      if fde.got == {} {
        Unring(fde);
        fde.pending := false;
      }
      TaggedFrom(ring, nodes, fde);
      RingedFrom(list, ring, nodes);
    }

    method Add(fde: Fde, events: set<Flag>)
      requires Valid() && fde in nodes
      modifies this`readFds, this`writeFds, this`errorFds, this`ring, fde, list, ring
      ensures Valid() && fde.want == old(fde.want) + events && fde.fd == old(fde.fd)
      ensures fde.got == if events <= old(fde.want) then old(fde.got) else old(fde.got) - (old(fde.want) + events)
      ensures forall x :: x in ring <==> x in old(ring) && (x != fde || fde.got != {})
    {
      hide Ringed, Registered, Watched;
      assert events <= fde.want <==> fde.want + events == fde.want;
      Set(fde, fde.want + events);
    }

    method Del(fde: Fde, events: set<Flag>)
      requires Valid() && fde in nodes
      modifies this`readFds, this`writeFds, this`errorFds, this`ring, fde, list, ring
      ensures Valid() && fde.want == old(fde.want) - events && fde.fd == old(fde.fd)
      ensures fde.got == if events !! old(fde.want) then old(fde.got) else old(fde.got) - (old(fde.want) - events)
      ensures forall x :: x in ring <==> x in old(ring) && (x != fde || fde.got != {})
    {
      hide Ringed, Registered, Watched;
      assert events !! fde.want <==> fde.want - events == fde.want;
      Set(fde, fde.want - events);
    }

    /**
     fdevent_plist_dequeue and fdevent_call_fdfunc up to the callback: the oldest pending fdevent, no longer
     pending, with the events it is called with.
     */
    method TakeNext() returns (fde: Fde?, events: set<Flag>)
      requires Valid()
      modifies this`ring, list, ring
      ensures Valid() && (fde == null <==> old(ring) == []) && (fde == null ==> ring == [])
      ensures fde != null ==> fde in nodes && fde == old(ring)[0] && ring == old(ring)[1..]
      ensures fde != null ==> events == old(fde.got) && events != {} && fde.got == {} && !fde.pending
    {
      hide Registered, Watched, Ringed, Ring, Tagged;
      RingedAll(list, ring, nodes);
      fde := PlistDequeue(list, ring);
      events := {};
      if fde == null {
        RingedFrom(list, ring, nodes);
        return;
      }
      ghost var cut := ring[1..];
      assert cut == ring[..0] + ring[1..];
      DistinctCut(list, ring, 0);
      TaggedCut(ring, cut, nodes, fde);
      ring := cut;
      events := fde.got;
      fde.got := {};
      fde.pending := false;
      TaggedFrom(ring, nodes, fde);
      RingedFrom(list, ring, nodes);
    }

    /** Lines 415-421: an fdevent gets events and joins the ring unless it is there. */
    method Signal(fde: Fde, events: set<Flag>)
      requires Ringed(list, ring, nodes) && fde in nodes && events != {}
      modifies this`ring, list`next, list`prev, fde`got, fde`pending, fde`next, fde`prev, ring`next
      ensures Ringed(list, ring, nodes) && fde.got == old(fde.got) + events
      ensures ring == old(ring) + if old(fde.pending) then [] else [fde]
    {
      hide Ringed, Ring, Tagged;
      RingedParts(list, ring, nodes, fde);
      fde.got := fde.got + events;
      if !fde.pending {
        fde.pending := true;
        TaggedSnoc(ring, nodes, fde);
        PlistEnqueue(list, ring, fde);
        ring := ring + [fde];
      }
      TaggedFrom(ring, nodes, fde);
      RingedFrom(list, ring, nodes);
    }
  
    /** fdevent_fd_check: registered fds that the system says are invalid. */
    method FdCheck(bad: set<int>) returns (fds: set<int>, n: nat)
      requires Registered(table, selectN, nodes)
      ensures n == |fds| && forall f :: f in fds <==> f in bad && 0 <= f < |table| && table[f] != null
    {
      hide Registered;
      InBounds(table, selectN, nodes);
      fds, n := {}, 0;
      var i: nat := 0;
      while i < selectN
        invariant i <= selectN && n == |fds|
        invariant forall f :: f in fds <==> f in bad && 0 <= f < i && table[f] != null
      {
        if table[i] != null && i in bad {
          fds := fds + {i};
          n := n + 1;
        }
        i := i + 1;
      }
      AllBelow(table, selectN, nodes);
    }

    /**
     fdevent_process: every ready fd's fdevent gets exactly the ready events and joins the end of the ring in
     order of fd, if it is not there.  The fd in the set always has an fdevent.
     */
    method Process(sel: Selected)
      requires Valid()
      requires sel.Fine? ==> sel.r <= readFds && sel.w <= writeFds && sel.e <= errorFds
      requires sel.Fine? ==> |sel.r| + |sel.w| + |sel.e| > 0
      modifies this`ring, list, nodes
      ensures Valid() && old(ring) <= ring
      ensures forall x :: x in nodes ==> x.want == old(x.want) && x.fd == old(x.fd)
      ensures forall x :: x in nodes ==> x.got == old(x.got) + Reported(sel, x.fd)
    {
      hide Ringed, Registered, Watched, Ready;
      match sel {
        case Nothing =>
        case Fine(r, w, e) =>
          SelectedRegistered(readFds, writeFds, errorFds, table, nodes, r, w, e);
          Dispatch(r, w, e, |r| + |w| + |e|);
        case BadFds(bad) => ReportBad(bad);
      }
    }

    /** Lines 389-402: after an error, every registered fd that is invalid counts as readable. */
    method ReportBad(bad: set<int>)
      requires Ringed(list, ring, nodes) && Registered(table, selectN, nodes)
      modifies this`ring, list`next, list`prev, nodes`got, nodes`pending, nodes`next, nodes`prev
      ensures Ringed(list, ring, nodes) && old(ring) <= ring
      ensures forall x :: x in nodes ==> x.got == old(x.got) + if x.fd in bad then {READ} else {}
    {
      hide Ringed, Registered, Ready;
      var r, n := FdCheck(bad);
      BadReady(table, selectN, nodes, r, bad);
      Dispatch(r, {}, {}, n);
    }

    /** The loop of fdevent_process over the fds, until all `n` bits have been seen. */
    method Dispatch(r: set<int>, w: set<int>, e: set<int>, n: nat)
      requires Ringed(list, ring, nodes) && Registered(table, selectN, nodes) && n == |r| + |w| + |e|
      requires forall f :: f in r + w + e ==> 0 <= f < |table| && table[f] != null
      modifies this`ring, list`next, list`prev, nodes`got, nodes`pending, nodes`next, nodes`prev
      ensures Ringed(list, ring, nodes) && old(ring) <= ring
      ensures forall x :: x in nodes ==> x.got == old(x.got) + Ready(x.fd, r, w, e)
    {
      hide Ringed, Registered, Ready, Left, Marked;
      ghost var was := map x | x in nodes :: x.got;
      InBounds(table, selectN, nodes);
      MarkedStart(nodes, was, r, w, e, table, selectN);
      var left, i: nat := n, 0;
      FromAll(r, w, e, table);
      while i < selectN && left > 0
        invariant i <= selectN && left == Left(r, w, e, i)
        invariant Ringed(list, ring, nodes) && Registered(table, selectN, nodes) && old(ring) <= ring
        invariant Marked(nodes, was, i, r, w, e)
      {
        var events := Ready(i, r, w, e);
        LeftStep(r, w, e, i);
        left := left - |events|;
        if events != {} {
          assert i in r + w + e by { ReadyIn(i, r, w, e); }
          TableAt(table, selectN, nodes, i);
          Visit(table[i], events, was, i, r, w, e);
        } else {
          MarkedNone(nodes, was, i, r, w, e);
        }
        i := i + 1;
      }
      MarkedEnd(nodes, was, i, r, w, e, table, selectN);
    }

    method Visit(fde: Fde, events: set<Flag>, ghost was: map<Fde, set<Flag>>, i: int, ghost r: set<int>,
                 ghost w: set<int>, ghost e: set<int>)
      requires Ringed(list, ring, nodes) && Marked(nodes, was, i, r, w, e) && events == Ready(i, r, w, e)
      requires events != {}
      requires fde in nodes && fde.fd == i && forall x :: x in nodes && x.fd == i ==> x == fde
      modifies this`ring, list`next, list`prev, nodes`got, nodes`pending, nodes`next, nodes`prev
      ensures Ringed(list, ring, nodes) && Marked(nodes, was, i + 1, r, w, e)
      ensures old(ring) <= ring
    {
      hide Ringed, Ready, Marked;
      NotInRing(list, ring, nodes);
      MarkedBut(nodes, was, i, r, w, e, fde);
      Signal(fde, events);
      MarkedWith(nodes, was, i, r, w, e, fde);
    }
  }

  /** The fdevents below fd `i` have their events, the others are as they were. */
  ghost predicate Marked(nodes: set<Fde>, was: map<Fde, set<Flag>>, i: int, r: set<int>, w: set<int>, e: set<int>)
    reads nodes`got, nodes`fd
  {
    forall x :: x in nodes ==> x in was && x.got == was[x] + (if x.fd < i then Ready(x.fd, r, w, e) else {})
  }

  lemma MarkedStart(nodes: set<Fde>, was: map<Fde, set<Flag>>, r: set<int>, w: set<int>, e: set<int>,
                    table: seq<Fde?>, selectN: nat)
    requires Registered(table, selectN, nodes) && forall x :: x in nodes ==> x in was && was[x] == x.got
    ensures Marked(nodes, was, 0, r, w, e)
  {
    hide Ready;
  }

  lemma MarkedBut(nodes: set<Fde>, was: map<Fde, set<Flag>>, i: int, r: set<int>, w: set<int>, e: set<int>, fde: Fde)
    requires Marked(nodes, was, i, r, w, e) && fde in nodes && fde.fd == i
    requires forall x :: x in nodes && x.fd == i ==> x == fde
    ensures Marked(nodes - {fde}, was, i + 1, r, w, e) && fde in was && fde.got == was[fde]
  {
    hide Ready;
  }

  lemma MarkedWith(nodes: set<Fde>, was: map<Fde, set<Flag>>, i: int, r: set<int>, w: set<int>, e: set<int>, fde: Fde)
    requires Marked(nodes - {fde}, was, i + 1, r, w, e) && fde.fd == i && fde in was
    requires fde.got == was[fde] + Ready(i, r, w, e)
    ensures Marked(nodes, was, i + 1, r, w, e)
  {
    hide Ready;
  }

  lemma MarkedNone(nodes: set<Fde>, was: map<Fde, set<Flag>>, i: int, r: set<int>, w: set<int>, e: set<int>)
    requires Marked(nodes, was, i, r, w, e) && Ready(i, r, w, e) == {}
    ensures Marked(nodes, was, i + 1, r, w, e)
  {
    hide Ready;
  }

  lemma MarkedEnd(nodes: set<Fde>, was: map<Fde, set<Flag>>, i: int, r: set<int>, w: set<int>, e: set<int>,
                  table: seq<Fde?>, selectN: nat)
    requires Registered(table, selectN, nodes) && Marked(nodes, was, i, r, w, e)
    requires (i >= selectN || Left(r, w, e, i) == 0)
    ensures forall x :: x in nodes ==> x in was && x.got == was[x] + Ready(x.fd, r, w, e)
  {
    hide Ready, Left;
    if i < selectN {
      NoneReady(r, w, e, i, nodes);
    }
  }

  lemma ReadyIn(i: int, r: set<int>, w: set<int>, e: set<int>)
    requires Ready(i, r, w, e) != {}
    ensures i in r + w + e
  {
  }

  /** What select's answer means for one fd. */
  function Reported(sel: Selected, fd: int): (ev: set<Flag>) {
    match sel
    case Fine(r, w, e) => Ready(fd, r, w, e)
    case BadFds(bad) => if fd in bad then {READ} else {}
    case Nothing => {}
  }

  /** The events of one fd in the three sets. */
  function Ready(fd: int, r: set<int>, w: set<int>, e: set<int>): (ev: set<Flag>) {
    (if fd in r then {READ} else {}) + (if fd in w then {WRITE} else {}) + (if fd in e then {ERROR} else {})
  }

  /** An fd that select reports is readable, writable or in error as select says; an invalid one is readable. */
  lemma ReportedExactly(sel: Selected, fd: int)
    ensures READ in Reported(sel, fd) <==> (sel.Fine? && fd in sel.r) || (sel.BadFds? && fd in sel.bad)
    ensures WRITE in Reported(sel, fd) <==> sel.Fine? && fd in sel.w
    ensures ERROR in Reported(sel, fd) <==> sel.Fine? && fd in sel.e
    ensures Reported(sel, fd) <= {READ, WRITE, ERROR}
  {
  }

  function From(s: set<int>, i: int): (r: set<int>) {
    set x | x in s && x >= i
  }

  /** How many bits are still to be seen from fd `i` on. */
  function Left(r: set<int>, w: set<int>, e: set<int>, i: int): (n: nat) {
    |From(r, i)| + |From(w, i)| + |From(e, i)|
  }

  lemma FromStep(s: set<int>, i: int)
    ensures |From(s, i)| == |From(s, i + 1)| + (if i in s then 1 else 0)
  {
    assert From(s, i) == From(s, i + 1) + (if i in s then {i} else {});
  }

  lemma LeftStep(r: set<int>, w: set<int>, e: set<int>, i: int)
    ensures Left(r, w, e, i) == Left(r, w, e, i + 1) + |Ready(i, r, w, e)|
  {
    hide From;
    FromStep(r, i);
    FromStep(w, i);
    FromStep(e, i);
  }

  lemma FromAll(r: set<int>, w: set<int>, e: set<int>, table: seq<Fde?>)
    requires forall f :: f in r + w + e ==> 0 <= f < |table| && table[f] != null
    ensures Left(r, w, e, 0) == |r| + |w| + |e|
  {
    assert forall f :: f in r ==> f in r + w + e;
    assert forall f :: f in w ==> f in r + w + e;
    assert forall f :: f in e ==> f in r + w + e;
    assert From(r, 0) == r && From(w, 0) == w && From(e, 0) == e;
  }

  lemma NoneReady(r: set<int>, w: set<int>, e: set<int>, i: int, nodes: set<Fde>)
    requires Left(r, w, e, i) == 0
    ensures forall x :: x in nodes && x.fd >= i ==> Ready(x.fd, r, w, e) == {}
  {
    forall x | x in nodes && x.fd >= i ensures Ready(x.fd, r, w, e) == {} {
      assert x.fd !in From(r, i) && x.fd !in From(w, i) && x.fd !in From(e, i);
    }
  }

  function Toggle(fds: set<int>, fd: int, on: bool): (r: set<int>)
    ensures forall f :: f in r <==> (if f == fd then on else f in fds)
  {
    if on then fds + {fd} else fds - {fd}
  }

  // ----- proofs -----

  lemma RingDistinct(list: Fde, ring: seq<Fde>)
    requires Ring(list, ring)
    ensures Distinct([list] + ring)
  {
    hide Distinct, Chain;
  }

  lemma TaggedCut(ring: seq<Fde>, cut: seq<Fde>, nodes: set<Fde>, fde: Fde)
    requires Tagged(ring, nodes - {fde})
    requires forall x :: x in cut <==> x in ring && x != fde
    ensures Tagged(cut, nodes - {fde})
  {
  }

  lemma TaggedSnoc(ring: seq<Fde>, nodes: set<Fde>, fde: Fde)
    requires Tagged(ring, nodes - {fde})
    ensures Tagged(ring + [fde], nodes - {fde})
  {
  }

  lemma TaggedFrom(ring: seq<Fde>, nodes: set<Fde>, fde: Fde)
    requires Tagged(ring, nodes - {fde}) && (fde.pending <==> fde in ring) && (fde.pending <==> fde.got != {})
    ensures Tagged(ring, nodes)
  {
  }

  lemma RingedAll(list: Fde, ring: seq<Fde>, nodes: set<Fde>)
    requires Ringed(list, ring, nodes)
    ensures Ring(list, ring) && list !in nodes && (forall x :: x in ring ==> x in nodes) && Tagged(ring, nodes)
    ensures Distinct([list] + ring)
    ensures ring != [] ==> ring[0].pending && ring[0].got != {} && Tagged(ring, nodes - {ring[0]})
  {
    hide Distinct, Chain;
  }

  lemma RingedParts(list: Fde, ring: seq<Fde>, nodes: set<Fde>, fde: Fde)
    requires Ringed(list, ring, nodes) && fde in nodes
    ensures Ring(list, ring) && list !in nodes && (forall x :: x in ring ==> x in nodes)
    ensures Tagged(ring, nodes - {fde})
    ensures (fde.pending <==> fde in ring) && (fde.pending <==> fde.got != {})
  {
    hide Ring;
  }

  lemma UpdateWatches(r: set<int>, w: set<int>, e: set<int>, table: seq<Fde?>, selectN: nat, nodes: set<Fde>,
                      fde: Fde, events: set<Flag>)
    requires Registered(table, selectN, nodes) && Watched(r, w, e, table, nodes) && fde in nodes
    ensures Watched(Toggle(r, fde.fd, READ in events), Toggle(w, fde.fd, WRITE in events),
        Toggle(e, fde.fd, ERROR in events),
                    table, nodes - {fde})
    ensures fde.fd in Toggle(r, fde.fd, READ in events) <==> READ in events
    ensures fde.fd in Toggle(w, fde.fd, WRITE in events) <==> WRITE in events
    ensures fde.fd in Toggle(e, fde.fd, ERROR in events) <==> ERROR in events
  {
    UpdateWatch(r, READ, table, selectN, nodes, fde, READ in events);
    UpdateWatch(w, WRITE, table, selectN, nodes, fde, WRITE in events);
    UpdateWatch(e, ERROR, table, selectN, nodes, fde, ERROR in events);
    hide Watching, Registered;
  }

  lemma UpdateWatch(fds: set<int>, flag: Flag, table: seq<Fde?>, selectN: nat, nodes: set<Fde>, fde: Fde, on: bool)
    requires Registered(table, selectN, nodes) && Watching(fds, flag, table, nodes) && fde in nodes
    ensures Watching(Toggle(fds, fde.fd, on), flag, table, nodes - {fde})
  {
  }

  lemma UpdatedWatches(r: set<int>, w: set<int>, e: set<int>, table: seq<Fde?>, nodes: set<Fde>, fde: Fde)
    requires Watched(r, w, e, table, nodes - {fde})
    requires (fde.fd in r <==> READ in fde.want) && (fde.fd in w <==> WRITE in fde.want)
    requires (fde.fd in e <==> ERROR in fde.want)
    ensures Watched(r, w, e, table, nodes)
  {
  }

  lemma RingedFrom(list: Fde, ring: seq<Fde>, nodes: set<Fde>)
    requires Ring(list, ring) && list !in nodes && (forall x :: x in ring ==> x in nodes) && Tagged(ring, nodes)
    ensures Ringed(list, ring, nodes)
  {
    hide Ring, Tagged;
  }

  lemma RemoveWatches(r: set<int>, w: set<int>, e: set<int>, table: seq<Fde?>, selectN: nat, nodes: set<Fde>, fde: Fde)
    requires Registered(table, selectN, nodes) && Watched(r, w, e, table, nodes) && fde in nodes
    ensures 0 <= fde.fd < |table|
    ensures Watched(r - {fde.fd}, w - {fde.fd}, e - {fde.fd}, table[fde.fd := null], nodes - {fde})
  {
  }

  lemma RemoveRegisters(table: seq<Fde?>, selectN: nat, nodes: set<Fde>, fde: Fde)
    requires Registered(table, selectN, nodes) && fde in nodes
    ensures 0 <= fde.fd < |table| && Registered(table[fde.fd := null], selectN, nodes - {fde})
  {
  }

  lemma RegisteredAt(table: seq<Fde?>, selectN: nat, nodes: set<Fde>, x: Fde)
    requires Registered(table, selectN, nodes) && x in nodes
    ensures x.active && 0 <= x.fd < |table| && table[x.fd] == x && x.fd < selectN
  {
  }

  lemma TableAt(table: seq<Fde?>, selectN: nat, nodes: set<Fde>, i: nat)
    requires Registered(table, selectN, nodes) && i < |table| && table[i] != null
    ensures table[i] in nodes && table[i].fd == i
    ensures forall x :: x in nodes && x.fd == i ==> x == table[i]
  {
  }

  lemma AllBelow(table: seq<Fde?>, selectN: nat, nodes: set<Fde>)
    requires Registered(table, selectN, nodes)
    ensures forall x :: x in nodes ==> x.fd < selectN
    ensures forall i :: 0 <= i < |table| && table[i] != null ==> i < selectN
  {
  }

  lemma SelectedRegistered(rs: set<int>, ws: set<int>, es: set<int>, table: seq<Fde?>, nodes: set<Fde>, r: set<int>,
                           w: set<int>, e: set<int>)
    requires Watched(rs, ws, es, table, nodes) && r <= rs && w <= ws && e <= es
    ensures forall f :: f in r + w + e ==> 0 <= f < |table| && table[f] != null
  {
  }

  lemma BadReady(table: seq<Fde?>, selectN: nat, nodes: set<Fde>, r: set<int>, bad: set<int>)
    requires Registered(table, selectN, nodes)
    requires forall f :: f in r <==> f in bad && 0 <= f < |table| && table[f] != null
    ensures forall x :: x in nodes ==> Ready(x.fd, r, {}, {}) == if x.fd in bad then {READ} else {}
  {
  }

  lemma InBounds(table: seq<Fde?>, selectN: nat, nodes: set<Fde>)
    requires Registered(table, selectN, nodes)
    ensures selectN <= |table|
  {
  }

  lemma ShrunkKeeps(table: seq<Fde?>, selectN: nat, n: nat, nodes: set<Fde>)
    requires Registered(table, selectN, nodes)
    requires n <= |table| && forall j :: 0 <= j < selectN && j < |table| && table[j] != null ==> j < n
    ensures Registered(table, n, nodes)
  {
  }

  lemma NotInRing(list: Fde, ring: seq<Fde>, nodes: set<Fde>)
    requires Ringed(list, ring, nodes)
    ensures list !in nodes && forall x :: x in ring ==> x in nodes
  {
    hide Ring;
  }

  function Grown(table: seq<Fde?>, max: nat): (r: seq<Fde?>)
    requires |table| <= max
    ensures |r| == max && r[..|table|] == table && forall i :: |table| <= i < max ==> r[i] == null
  {
    table + seq(max - |table|, _ => null)
  }

  lemma GrownKeeps(table: seq<Fde?>, max: nat, selectN: nat, nodes: set<Fde>, r: set<int>, w: set<int>, e: set<int>)
    requires Registered(table, selectN, nodes) && Watched(r, w, e, table, nodes) && |table| <= max
    ensures Registered(Grown(table, max), selectN, nodes) && Watched(r, w, e, Grown(table, max), nodes)
  {
    var g := Grown(table, max);
    assert forall i :: 0 <= i < |table| ==> g[i] == g[..|table|][i];
  }

  lemma InstallKeeps(list: Fde, ring: seq<Fde>, table: seq<Fde?>, selectN: nat, nodes: set<Fde>, fde: Fde)
    requires Ringed(list, ring, nodes) && Registered(table, selectN, nodes) && fde !in nodes && fde != list
    requires fde.active && 0 <= fde.fd < |table| && table[fde.fd] == null && !fde.pending && fde.got == {}
    ensures Ringed(list, ring, nodes + {fde})
    ensures Registered(table[fde.fd := fde], if fde.fd >= selectN then fde.fd + 1 else selectN, nodes + {fde})
  {
    hide Ring;
  }

  lemma InstallWatches(r: set<int>, w: set<int>, e: set<int>, table: seq<Fde?>, nodes: set<Fde>, fde: Fde)
    requires Watched(r, w, e, table, nodes) && 0 <= fde.fd < |table| && table[fde.fd] == null && fde.want == {}
    ensures Watched(r, w, e, table[fde.fd := fde], nodes + {fde})
  {
  }
}
