/** One connection's handleWebSocket after the upgrade: register, read
    messages until the first read error and broadcast each one to the other
    clients, then the deferred teardown. The reads the peer produces are a
    finite trace; a trace without a read error stands for a session that is
    still blocked in ReadMessage, so its teardown has not run yet. */
module Session {
  import opened Wire
  import opened Fanout
  import opened Registry

  /** The index of the first read error, or the length of the trace when
      every read succeeds. */
  function FirstError(trace: seq<ReadResult>): (k: nat)
    ensures k <= |trace|
    ensures forall i :: 0 <= i < k ==> trace[i].Received?
    ensures k < |trace| ==> trace[k].ReadError?
  {
    if trace == [] || trace[0].ReadError? then 0 else 1 + FirstError(trace[1..])
  }

  /** The trace contains a read error, which ends the loop. */
  predicate Ends(trace: seq<ReadResult>)
  {
    FirstError(trace) < |trace|
  }

  /** How many times the loop calls ReadMessage on the trace. */
  function Taken(trace: seq<ReadResult>): (n: nat)
    ensures n <= |trace|
    ensures Ends(trace) ==> 0 < n && trace[n - 1].ReadError? && forall i :: 0 <= i < n - 1 ==> trace[i].Received?
    ensures !Ends(trace) ==> n == |trace| && forall i :: 0 <= i < n ==> trace[i].Received?
  {
    if Ends(trace) then FirstError(trace) + 1 else |trace|
  }

  /** The messages read before the first error: the ones the loop broadcasts. */
  function FramesBefore(trace: seq<ReadResult>): (ms: seq<Message>)
    ensures |ms| == FirstError(trace)
    ensures forall i :: 0 <= i < |ms| ==> trace[i] == Received(ms[i])
  {
    seq(FirstError(trace), i requires 0 <= i < FirstError(trace) => trace[i].msg)
  }

  /** Handles whose write fails in at least one of the first `n` broadcasts;
      `fails(k)` is the set of handles whose write fails during the `k`-th. */
  function Union(fails: nat -> set<Conn>, n: nat): set<Conn>
  {
    if n == 0 then {} else Union(fails, n - 1) + fails(n - 1)
  }

  /** The broadcasts of `msgs` by `conn`, one after the other, the `k`-th
      ranging over the registry in the order `orders[k]`. */
  function Relay(h: Hub, conn: Conn, msgs: seq<Message>, fails: nat -> set<Conn>, orders: seq<seq<Conn>>): Hub
    requires |orders| == |msgs|
    decreases |msgs|
  {
    if msgs == [] then h
    else
      var n := |msgs| - 1;
      Broadcast(Relay(h, conn, msgs[..n], fails, orders[..n]), conn, msgs[n], fails(n), orders[n])
  }

  /** Each order is a run order of the range loop over the registry as that
      broadcast finds it. */
  predicate ValidOrders(h: Hub, conn: Conn, msgs: seq<Message>, fails: nat -> set<Conn>, orders: seq<seq<Conn>>)
    decreases |msgs|
  {
    && |orders| == |msgs|
    && (msgs != [] ==>
          var n := |msgs| - 1;
          && ValidOrders(h, conn, msgs[..n], fails, orders[..n])
          && Enumerates(orders[n], Relay(h, conn, msgs[..n], fails, orders[..n]).clients))
  }

  /** The whole session on a read trace. */
  function Run(h: Hub, conn: Conn, trace: seq<ReadResult>, fails: nat -> set<Conn>, orders: seq<seq<Conn>>): Hub
    requires |orders| == FirstError(trace)
  {
    var live := Relay(Fanout.Register(h, conn), conn, FramesBefore(trace), fails, orders);
    if Ends(trace) then Fanout.Teardown(live, conn) else live
  }

  /** How many of `n` broadcasts reach `c`: every one up to and including
      the first whose write to `c` fails, and none after it. */
  function Delivered(fails: nat -> set<Conn>, c: Conn, n: nat): (d: nat)
    ensures d <= n
  {
    if n == 0 then 0
    else if c in Union(fails, n - 1) then Delivered(fails, c, n - 1)
    else n
  }

  /** A run of broadcasts removes from the registry exactly the handles some
      write failed to, the sender excepted, and adds nothing. */
  lemma {:induction false} RelayClients(h: Hub, conn: Conn, msgs: seq<Message>, fails: nat -> set<Conn>, orders: seq<seq<Conn>>)
    requires ValidOrders(h, conn, msgs, fails, orders)
    ensures Relay(h, conn, msgs, fails, orders).clients == h.clients - (Union(fails, |msgs|) - {conn})
    decreases |msgs|
  {
    if msgs != [] {
      var n := |msgs| - 1;
      var p := Relay(h, conn, msgs[..n], fails, orders[..n]);
      RelayClients(h, conn, msgs[..n], fails, orders[..n]);
      BroadcastMembers(p, conn, msgs[n], fails(n), orders[n]);
    }
  }

  /** A run of broadcasts keeps the registry well formed, keeps the earlier
      writes, and writes only to members other than the sender. */
  lemma {:induction false} RelayWrites(h: Hub, conn: Conn, msgs: seq<Message>, fails: nat -> set<Conn>, orders: seq<seq<Conn>>)
    requires WellFormed(h)
    requires ValidOrders(h, conn, msgs, fails, orders)
    ensures var r := Relay(h, conn, msgs, fails, orders);
      && WellFormed(r)
      && r.clients <= h.clients
      && |h.writes| <= |r.writes| && r.writes[..|h.writes|] == h.writes
      && (forall i :: |h.writes| <= i < |r.writes| ==> r.writes[i].to in h.clients && r.writes[i].to != conn)
    decreases |msgs|
  {
    if msgs != [] {
      var n := |msgs| - 1;
      var p := Relay(h, conn, msgs[..n], fails, orders[..n]);
      var r := Relay(h, conn, msgs, fails, orders);
      RelayWrites(h, conn, msgs[..n], fails, orders[..n]);
      BroadcastMembers(p, conn, msgs[n], fails(n), orders[n]);
      BroadcastAttempts(p, conn, msgs[n], fails(n), orders[n]);
      BroadcastKeepsWellFormed(p, conn, msgs[n], fails(n), orders[n]);
      assert r.writes[..|h.writes|] == h.writes by {
        assert r.writes[..|h.writes|] == r.writes[..|p.writes|][..|h.writes|];
      }
      forall i | |h.writes| <= i < |r.writes|
        ensures r.writes[i].to in h.clients && r.writes[i].to != conn
      {
        if i < |p.writes| {
          assert r.writes[i] == p.writes[i];
        }
      }
    }
  }

  /** A run of broadcasts only appends to the log of writes. */
  lemma {:induction false} RelayLogGrows(h: Hub, conn: Conn, msgs: seq<Message>, fails: nat -> set<Conn>, orders: seq<seq<Conn>>)
    requires |orders| == |msgs|
    ensures var r := Relay(h, conn, msgs, fails, orders);
      |h.writes| <= |r.writes| && r.writes[..|h.writes|] == h.writes
    decreases |msgs|
  {
    if msgs != [] {
      var n := |msgs| - 1;
      var p := Relay(h, conn, msgs[..n], fails, orders[..n]);
      RelayLogGrows(h, conn, msgs[..n], fails, orders[..n]);
      BroadcastEffect(p, conn, msgs[n], fails(n), orders[n]);
      var r := Relay(h, conn, msgs, fails, orders);
      assert r.writes[..|h.writes|] == p.writes[..|h.writes|];
    }
  }

  /** Seen from one handle, the last broadcast of a run appends its message
      once when the handle is then a member other than the sender. */
  lemma RelayStep(h: Hub, conn: Conn, msgs: seq<Message>, fails: nat -> set<Conn>, orders: seq<seq<Conn>>, c: Conn)
    requires msgs != [] && ValidOrders(h, conn, msgs, fails, orders)
    ensures var n := |msgs| - 1;
      var p := Relay(h, conn, msgs[..n], fails, orders[..n]);
      var r := Relay(h, conn, msgs, fails, orders);
      && |h.writes| <= |p.writes| <= |r.writes|
      && WritesTo(r.writes[|h.writes|..], c) ==
           WritesTo(p.writes[|h.writes|..], c) + (if c in p.clients && c != conn then [msgs[n]] else [])
  {
    var n := |msgs| - 1;
    var p := Relay(h, conn, msgs[..n], fails, orders[..n]);
    var r := Relay(h, conn, msgs, fails, orders);
    RelayLogGrows(h, conn, msgs[..n], fails, orders[..n]);
    var block := Attempts(conn, msgs[n], orders[n]);
    assert r.writes == p.writes + block by {
      BroadcastEffect(p, conn, msgs[n], fails(n), orders[n]);
    }
    assert r.writes[|h.writes|..] == p.writes[|h.writes|..] + block;
    WritesToAppend(p.writes[|h.writes|..], block, c);
    WritesToAttempts(conn, msgs[n], orders[n], c);
  }

  /** A member other than the sender is written the messages in the order
      sent, up to and including the first whose write to it fails, and
      nothing after; no other handle is written. */
  lemma {:induction false} RelayDelivery(h: Hub, conn: Conn, msgs: seq<Message>, fails: nat -> set<Conn>, orders: seq<seq<Conn>>, c: Conn)
    requires ValidOrders(h, conn, msgs, fails, orders)
    ensures var r := Relay(h, conn, msgs, fails, orders);
      && |h.writes| <= |r.writes|
      && WritesTo(r.writes[|h.writes|..], c) ==
           if c in h.clients && c != conn then msgs[..Delivered(fails, c, |msgs|)] else []
    decreases |msgs|
  {
    if msgs == [] {
      assert Relay(h, conn, msgs, fails, orders).writes[|h.writes|..] == [];
    } else {
      var n := |msgs| - 1;
      var p := Relay(h, conn, msgs[..n], fails, orders[..n]);
      RelayDelivery(h, conn, msgs[..n], fails, orders[..n], c);
      RelayStep(h, conn, msgs, fails, orders, c);
      RelayClients(h, conn, msgs[..n], fails, orders[..n]);
      if c in h.clients && c != conn && c !in Union(fails, n) {
        DeliveredAll(fails, c, n);
        assert msgs[..n] + [msgs[n]] == msgs[..n + 1];
      }
    }
  }

  /** A handle no write has failed to yet has been reached by every broadcast. */
  lemma DeliveredAll(fails: nat -> set<Conn>, c: Conn, n: nat)
    requires c !in Union(fails, n)
    ensures Delivered(fails, c, n) == n
  {
  }

  /** Once a read has failed, later reads in the trace change nothing: the
      loop never reads again, so the same messages are broadcast and the
      same number of reads is made. */
  lemma {:induction false} StopsAtFirstError(trace: seq<ReadResult>, more: seq<ReadResult>)
    requires Ends(trace)
    ensures FirstError(trace + more) == FirstError(trace)
    ensures FramesBefore(trace + more) == FramesBefore(trace)
    ensures Taken(trace + more) == Taken(trace)
    decreases |trace|
  {
    if trace[0].Received? {
      assert (trace + more)[1..] == trace[1..] + more;
      StopsAtFirstError(trace[1..], more);
    }
  }

  /** The session registers its handle before the first read and the handle
      stays registered while the loop runs, since the sender is never pruned
      by its own broadcasts; once a read fails, the teardown has closed the
      handle and removed it. The other members lose exactly the handles a
      write failed to. */
  lemma {:induction false} RunMembership(h: Hub, conn: Conn, trace: seq<ReadResult>, fails: nat -> set<Conn>, orders: seq<seq<Conn>>)
    requires |orders| == FirstError(trace)
    requires ValidOrders(Fanout.Register(h, conn), conn, FramesBefore(trace), fails, orders)
    ensures var r := Run(h, conn, trace, fails, orders);
      && (Ends(trace) ==> conn !in r.clients && conn in r.closed)
      && (!Ends(trace) ==> conn in r.clients)
      && r.clients - {conn} == h.clients - Union(fails, FirstError(trace)) - {conn}
  {
    var g := Fanout.Register(h, conn);
    RelayClients(g, conn, FramesBefore(trace), fails, orders);
  }

  /** A session keeps the registry well formed, and each other client that
      was registered when it began is written the messages read, unchanged
      and in order, up to and including the first whose write to it fails;
      nothing is written to the session's own handle or to any handle that
      was not registered. */
  lemma {:induction false} RunDelivery(h: Hub, conn: Conn, trace: seq<ReadResult>, fails: nat -> set<Conn>, orders: seq<seq<Conn>>, c: Conn)
    requires |orders| == FirstError(trace)
    requires ValidOrders(Fanout.Register(h, conn), conn, FramesBefore(trace), fails, orders)
    requires WellFormed(h) && conn !in h.closed
    ensures var r := Run(h, conn, trace, fails, orders);
      && WellFormed(r)
      && |h.writes| <= |r.writes| && r.writes[..|h.writes|] == h.writes
      && WritesTo(r.writes[|h.writes|..], c) ==
           if c in h.clients && c != conn then FramesBefore(trace)[..Delivered(fails, c, FirstError(trace))] else []
  {
    var g := Fanout.Register(h, conn);
    RelayWrites(g, conn, FramesBefore(trace), fails, orders);
    RelayDelivery(g, conn, FramesBefore(trace), fails, orders, c);
  }

  /** handleWebSocket after a successful upgrade, on the registry `reg`:
      register, then `for { ReadMessage; break on error; broadcast }`, then
      the deferred teardown once the loop has ended. `fails(k)` says which
      writes fail during the `k`-th broadcast; `taken` is the number of
      ReadMessage calls and `orders` the run order of each broadcast. */
  method HandleWebSocket(reg: Clients, conn: Conn, trace: seq<ReadResult>, fails: nat -> set<Conn>)
    returns (taken: nat, ghost orders: seq<seq<Conn>>)
    requires reg.Valid()
    requires conn !in reg.closed
    modifies reg
    ensures reg.Valid()
    ensures taken == Taken(trace)
    ensures |orders| == FirstError(trace)
    ensures ValidOrders(Fanout.Register(old(reg.State()), conn), conn, FramesBefore(trace), fails, orders)
    ensures reg.State() == Run(old(reg.State()), conn, trace, fails, orders)
  {
    reg.Register(conn);
    ghost var start := reg.State();
    ghost var msgs := FramesBefore(trace);
    taken, orders := 0, [];
    var ended, sent := false, 0;
    while !ended && taken < |trace|
      invariant taken <= |trace|
      invariant !ended ==> taken <= FirstError(trace) && |orders| == taken
      invariant ended ==> taken == FirstError(trace) + 1 && |orders| == FirstError(trace)
      invariant sent == |orders|
      invariant reg.Valid()
      invariant ValidOrders(start, conn, msgs[..|orders|], fails, orders)
      invariant reg.State() == Relay(start, conn, msgs[..|orders|], fails, orders)
      decreases |trace| - taken
    {
      var r := trace[taken];
      taken := taken + 1;
      match r
      case ReadError =>
        ended := true;
      case Received(m) =>
        var k := sent;
        assert m == msgs[k];
        var o := reg.Broadcast(conn, m, fails(k));
        assert msgs[..k + 1][..k] == msgs[..k];
        assert (orders + [o])[..k] == orders;
        orders := orders + [o];
        sent := sent + 1;
    }
    assert msgs[..|orders|] == msgs;
    if ended {
      reg.Teardown(conn);
    }
  }
}
