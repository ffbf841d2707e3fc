/** The registry of live connections as a value, and the effect of each step
    that touches it: register and delete (each under the registry lock), the
    unlocked close at the start of a session's teardown, and the
    exclude-sender broadcast (under the lock for the whole fan-out) that
    closes and deletes every recipient whose write fails. */
module Fanout {
  import opened Wire

  /** The registry's state: the members of the `clients` map, the handles
      Close has been called on, and every WriteMessage attempt so far. */
  datatype Hub = Hub(clients: set<Conn>, closed: set<Conn>, writes: seq<Write>)

  /** No registered handle has been closed. This is an invariant of the
      model's steps as one session takes them (its close and its delete back
      to back), not of the program: between a session's unlocked close and
      its locked delete another session's broadcast can still find the
      handle registered and write to it (see CloseWindow). */
  predicate WellFormed(h: Hub)
  {
    h.clients !! h.closed
  }

  /** `clients[conn] = true`: insert the handle. A map keyed by handle holds
      each handle once, so registering a member again changes nothing. */
  function Register(h: Hub, conn: Conn): (r: Hub)
    ensures conn in r.clients
    ensures forall c :: c != conn ==> (c in r.clients <==> c in h.clients)
    ensures conn in h.clients ==> r == h
    ensures r.closed == h.closed && r.writes == h.writes
  {
    h.(clients := h.clients + {conn})
  }

  /** `conn.Close()` in the deferred block, before the lock is taken: the
      handle is closed and stays registered. */
  function Close(h: Hub, conn: Conn): (r: Hub)
    ensures conn in r.closed
    ensures forall c :: c != conn ==> (c in r.closed <==> c in h.closed)
    ensures conn in h.closed ==> r == h
    ensures r.clients == h.clients && r.writes == h.writes
  {
    h.(closed := h.closed + {conn})
  }

  /** The locked `delete(clients, conn)`. Deleting an absent handle changes
      nothing. */
  function Unregister(h: Hub, conn: Conn): (r: Hub)
    ensures conn !in r.clients
    ensures forall c :: c != conn ==> (c in r.clients <==> c in h.clients)
    ensures conn !in h.clients ==> r == h
    ensures r.closed == h.closed && r.writes == h.writes
  {
    h.(clients := h.clients - {conn})
  }

  /** Close followed by delete: the deferred teardown of a session when no
      other step falls between the two, and the pruning of a recipient whose
      write failed (main.go:60-61, both under the lock). Tearing down a
      handle that is not a member leaves the members unchanged; tearing it
      down again changes nothing. */
  function Teardown(h: Hub, conn: Conn): (r: Hub)
    ensures conn !in r.clients && conn in r.closed
    ensures forall c :: c != conn ==> (c in r.clients <==> c in h.clients)
    ensures forall c :: c != conn ==> (c in r.closed <==> c in h.closed)
    ensures conn !in h.clients ==> r.clients == h.clients
    ensures conn !in h.clients && conn in h.closed ==> r == h
    ensures r.writes == h.writes
  {
    Unregister(Close(h, conn), conn)
  }

  /** Register grows the registry by one exactly when the handle was not yet
      a member, and teardown shrinks it by one exactly when it was. */
  lemma MembershipCount(h: Hub, conn: Conn)
    ensures |Register(h, conn).clients| == if conn in h.clients then |h.clients| else |h.clients| + 1
    ensures |Teardown(h, conn).clients| == if conn in h.clients then |h.clients| - 1 else |h.clients|
  {
  }

  /** One turn of the range loop in the broadcast: skip the sender; otherwise
      write the message to `c`, and close and delete `c` when the write fails. */
  function Deliver(h: Hub, sender: Conn, m: Message, fails: set<Conn>, c: Conn): Hub
  {
    if c == sender then h
    else
      var sent := h.(writes := h.writes + [Write(c, m)]);
      if c in fails then Teardown(sent, c) else sent
  }

  /** The whole range loop, visiting the handles in `order`. */
  function Broadcast(h: Hub, sender: Conn, m: Message, fails: set<Conn>, order: seq<Conn>): Hub
    decreases |order|
  {
    if order == [] then h
    else
      var n := |order| - 1;
      Deliver(Broadcast(h, sender, m, fails, order[..n]), sender, m, fails, order[n])
  }

  /** The write attempts a broadcast makes, in the order it makes them. */
  function Attempts(sender: Conn, m: Message, order: seq<Conn>): seq<Write>
    decreases |order|
  {
    if order == [] then []
    else
      var n := |order| - 1;
      Attempts(sender, m, order[..n]) + (if order[n] == sender then [] else [Write(order[n], m)])
  }

  /** The recipients of a broadcast whose write fails. */
  function Failed(sender: Conn, fails: set<Conn>, order: seq<Conn>): set<Conn>
  {
    (Elems(order) - {sender}) * fails
  }

  /** What a broadcast does to each part of the state, whatever the order. */
  lemma {:induction false} BroadcastEffect(h: Hub, sender: Conn, m: Message, fails: set<Conn>, order: seq<Conn>)
    ensures Broadcast(h, sender, m, fails, order).clients == h.clients - Failed(sender, fails, order)
    ensures Broadcast(h, sender, m, fails, order).closed == h.closed + Failed(sender, fails, order)
    ensures Broadcast(h, sender, m, fails, order).writes == h.writes + Attempts(sender, m, order)
    decreases |order|
  {
    if order != [] {
      var n := |order| - 1;
      var prefix, c := order[..n], order[n];
      var p := Broadcast(h, sender, m, fails, prefix);
      BroadcastEffect(h, sender, m, fails, prefix);
      assert order == prefix + [c];
      assert Elems(order) == Elems(prefix) + {c};
      var f, fp := Failed(sender, fails, order), Failed(sender, fails, prefix);
      if c == sender {
        assert f == fp;
      } else if c in fails {
        assert f == fp + {c};
        assert Broadcast(h, sender, m, fails, order) == Teardown(p.(writes := p.writes + [Write(c, m)]), c);
      } else {
        assert f == fp;
      }
    }
  }

  /** Every attempt carries the broadcast message unchanged and goes to a
      listed handle other than the sender. */
  lemma {:induction false} AttemptsTargets(sender: Conn, m: Message, order: seq<Conn>)
    ensures forall i :: 0 <= i < |Attempts(sender, m, order)| ==>
      Attempts(sender, m, order)[i].msg == m &&
      Attempts(sender, m, order)[i].to != sender &&
      Attempts(sender, m, order)[i].to in order
    decreases |order|
  {
    if order != [] {
      var n := |order| - 1;
      AttemptsTargets(sender, m, order[..n]);
    }
  }

  /** Over an order without repetitions, each listed handle other than the
      sender is written exactly once, with the broadcast message, and nothing
      else is written. */
  lemma {:induction false} AttemptsExactlyOnce(sender: Conn, m: Message, order: seq<Conn>)
    requires Distinct(order)
    ensures forall w {:trigger multiset(Attempts(sender, m, order))[w]} ::
              multiset(Attempts(sender, m, order))[w] ==
              if w.msg == m && w.to in order && w.to != sender then 1 else 0
    decreases |order|
  {
    if order != [] {
      var n := |order| - 1;
      var prefix := order[..n];
      assert Distinct(prefix);
      AttemptsExactlyOnce(sender, m, prefix);
      assert order[n] !in prefix;
      forall w
        ensures multiset(Attempts(sender, m, order))[w] ==
          if w.msg == m && w.to in order && w.to != sender then 1 else 0
      {
        assert w.to in order <==> w.to in prefix || w.to == order[n] by {
          assert order == prefix + [order[n]];
        }
      }
    }
  }

  /** The broadcast of main.go over any run order of the range loop, as seen
      by the registry: the failing recipients are closed and pruned and no
      one else is, nothing is added and the sender stays registered. */
  lemma {:induction false} BroadcastMembers(h: Hub, sender: Conn, m: Message, fails: set<Conn>, order: seq<Conn>)
    requires Enumerates(order, h.clients)
    ensures var r := Broadcast(h, sender, m, fails, order);
      && r.clients == h.clients - (fails - {sender})
      && r.closed == h.closed + (h.clients - {sender}) * fails
      && r.clients <= h.clients
      && (sender in h.clients ==> sender in r.clients)
  {
    BroadcastEffect(h, sender, m, fails, order);
  }

  /** The broadcast of main.go over any run order of the range loop, as seen
      by the clients: the recipients are exactly the registered clients
      other than the sender, and each gets exactly one attempt carrying the
      received frame kind and payload unchanged. */
  lemma {:induction false} BroadcastAttempts(h: Hub, sender: Conn, m: Message, fails: set<Conn>, order: seq<Conn>)
    requires Enumerates(order, h.clients)
    ensures var r := Broadcast(h, sender, m, fails, order);
      && |h.writes| <= |r.writes|
      && r.writes[..|h.writes|] == h.writes
      && (forall w :: multiset(r.writes[|h.writes|..])[w] ==
            if w.msg == m && w.to in h.clients && w.to != sender then 1 else 0)
  {
    BroadcastEffect(h, sender, m, fails, order);
    AttemptsExactlyOnce(sender, m, order);
    var r := Broadcast(h, sender, m, fails, order);
    assert r.writes[|h.writes|..] == Attempts(sender, m, order);
  }

  /** A broadcast never writes to a closed handle and keeps the registry
      well formed; the sender itself is never written to. */
  lemma {:induction false} BroadcastKeepsWellFormed(h: Hub, sender: Conn, m: Message, fails: set<Conn>, order: seq<Conn>)
    requires WellFormed(h)
    requires Enumerates(order, h.clients)
    ensures var r := Broadcast(h, sender, m, fails, order);
      && WellFormed(r)
      && (forall i :: |h.writes| <= i < |r.writes| ==>
            r.writes[i].to in h.clients && r.writes[i].to !in h.closed && r.writes[i].to != sender)
  {
    BroadcastEffect(h, sender, m, fails, order);
    AttemptsTargets(sender, m, order);
    var r := Broadcast(h, sender, m, fails, order);
    forall i | |h.writes| <= i < |r.writes|
      ensures r.writes[i].to in h.clients && r.writes[i].to !in h.closed && r.writes[i].to != sender
    {
      assert r.writes[i] == Attempts(sender, m, order)[i - |h.writes|];
    }
  }

  /** A failed write does not stop the fan-out: the attempts made are the
      same whichever writes fail. */
  lemma {:induction false} FailuresDoNotStopFanout(h: Hub, sender: Conn, m: Message, fails1: set<Conn>, fails2: set<Conn>, order: seq<Conn>)
    ensures Broadcast(h, sender, m, fails1, order).writes == Broadcast(h, sender, m, fails2, order).writes
  {
    BroadcastEffect(h, sender, m, fails1, order);
    BroadcastEffect(h, sender, m, fails2, order);
  }

  /** Go leaves the order of a range loop over a map unspecified; any two
      orders give the same registry, the same closed handles and the same
      attempts up to order. */
  lemma {:induction false} BroadcastOrderIndependent(h: Hub, sender: Conn, m: Message, fails: set<Conn>, o1: seq<Conn>, o2: seq<Conn>)
    requires Enumerates(o1, h.clients) && Enumerates(o2, h.clients)
    ensures Broadcast(h, sender, m, fails, o1).clients == Broadcast(h, sender, m, fails, o2).clients
    ensures Broadcast(h, sender, m, fails, o1).closed == Broadcast(h, sender, m, fails, o2).closed
    ensures multiset(Broadcast(h, sender, m, fails, o1).writes) == multiset(Broadcast(h, sender, m, fails, o2).writes)
  {
    BroadcastEffect(h, sender, m, fails, o1);
    BroadcastEffect(h, sender, m, fails, o2);
    AttemptsExactlyOnce(sender, m, o1);
    AttemptsExactlyOnce(sender, m, o2);
    assert multiset(Attempts(sender, m, o1)) == multiset(Attempts(sender, m, o2));
  }

  /** The messages written to `c`, in the order written. */
  function WritesTo(ws: seq<Write>, c: Conn): seq<Message>
    decreases |ws|
  {
    if ws == [] then []
    else
      var n := |ws| - 1;
      WritesTo(ws[..n], c) + (if ws[n].to == c then [ws[n].msg] else [])
  }

  lemma {:induction false} WritesToAppend(a: seq<Write>, b: seq<Write>, c: Conn)
    ensures WritesTo(a + b, c) == WritesTo(a, c) + WritesTo(b, c)
    decreases |b|
  {
    if b != [] {
      var n := |b| - 1;
      assert (a + b)[..|a| + n] == a + b[..n];
      WritesToAppend(a, b[..n], c);
    } else {
      assert a + b == a;
    }
  }

  /** One broadcast writes its message to a handle once when the handle is
      listed and is not the sender, and otherwise not at all. */
  lemma {:induction false} WritesToAttempts(sender: Conn, m: Message, order: seq<Conn>, c: Conn)
    requires Distinct(order)
    ensures WritesTo(Attempts(sender, m, order), c) == if c in order && c != sender then [m] else []
    decreases |order|
  {
    if order != [] {
      var n := |order| - 1;
      var prefix := order[..n];
      assert Distinct(prefix);
      assert order == prefix + [order[n]];
      var tail := if order[n] == sender then [] else [Write(order[n], m)];
      WritesToAttempts(sender, m, prefix, c);
      WritesToAppend(Attempts(sender, m, prefix), tail, c);
      assert WritesTo(tail, c) == if order[n] != sender && order[n] == c then [m] else [] by {
        if tail != [] {
          assert tail[..0] == [];
        }
      }
    }
  }

  /** Seen from one handle, a broadcast appends the message once when the
      handle is a member other than the sender, and nothing otherwise. */
  lemma {:induction false} BroadcastWritesTo(h: Hub, sender: Conn, m: Message, fails: set<Conn>, order: seq<Conn>, c: Conn)
    requires Enumerates(order, h.clients)
    ensures WritesTo(Broadcast(h, sender, m, fails, order).writes, c) ==
      WritesTo(h.writes, c) + (if c in h.clients && c != sender then [m] else [])
  {
    BroadcastEffect(h, sender, m, fails, order);
    WritesToAppend(h.writes, Attempts(sender, m, order), c);
    WritesToAttempts(sender, m, order, c);
  }

  /** The window the unlocked close leaves open: once a session has closed
      its handle and before it deletes it, a broadcast by another session
      still finds the handle registered and attempts a write to it. So the
      program does write to closed handles, and the registry is then not
      well formed. */
  lemma CloseWindow(h: Hub, conn: Conn, sender: Conn, m: Message, fails: set<Conn>, order: seq<Conn>)
    requires conn in h.clients && conn != sender
    requires Enumerates(order, h.clients)
    ensures var closing := Close(h, conn);
      var r := Broadcast(closing, sender, m, fails, order);
      && !WellFormed(closing)
      && |closing.writes| <= |r.writes|
      && multiset(r.writes[|closing.writes|..])[Write(conn, m)] == 1
  {
    BroadcastAttempts(Close(h, conn), sender, m, fails, order);
  }
}
