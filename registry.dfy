/** The `clients` map of main.go as an object whose fields the three locked
    regions of handleWebSocket update in place. */
module Registry {
  import opened Wire
  import opened Fanout

  class Clients {
    /** The keys of the `clients` map. */
    var clients: set<Conn>
    /** Every handle Close has been called on. */
    var closed: set<Conn>
    /** Every WriteMessage attempt, in the order made. */
    ghost var writes: seq<Write>

    ghost function State(): Hub
      reads this
    {
      Hub(clients, closed, writes)
    }

    ghost predicate Valid()
      reads this
    {
      WellFormed(State())
    }

    /** `make(map[*websocket.Conn]bool)`: an empty registry. */
    constructor ()
      ensures Valid()
      ensures State() == Hub({}, {}, [])
    {
      clients, closed := {}, {};
      writes := [];
    }

    /** The locked insert `clients[conn] = true`. The handle comes from a
        fresh upgrade, so it has not been closed. */
    method Register(conn: Conn)
      requires Valid()
      requires conn !in closed
      modifies this
      ensures Valid()
      ensures State() == Fanout.Register(old(State()), conn)
    {
      clients := clients + {conn};
    }

    /** `conn.Close()` at the start of the deferred block, outside the lock. */
    method Close(conn: Conn)
      modifies this
      ensures State() == Fanout.Close(old(State()), conn)
    {
      closed := closed + {conn};
    }

    /** The locked `delete(clients, conn)` of the deferred block. Once the
        handle is gone, no closed handle is left registered unless one was
        before. */
    method Unregister(conn: Conn)
      modifies this
      ensures old(clients) - {conn} !! old(closed) ==> Valid()
      ensures State() == Fanout.Unregister(old(State()), conn)
    {
      clients := clients - {conn};
    }

    /** The deferred block with nothing between its two steps:
        `conn.Close()`, then the locked `delete(clients, conn)`. */
    method Teardown(conn: Conn)
      requires Valid()
      modifies this
      ensures Valid()
      ensures State() == Fanout.Teardown(old(State()), conn)
    {
      Close(conn);
      Unregister(conn);
    }

    /** The locked fan-out: range over the map, skip the sender, write `m` to
        every other member, and close and delete each member whose write
        fails (`fails` says which writes fail). Go leaves the iteration order
        unspecified, so the loop takes the members in any order; `order` is
        the order it took. Deleting the current key during a range loop is
        allowed in Go and does not disturb the visits still to come. */
    method Broadcast(sender: Conn, m: Message, fails: set<Conn>) returns (ghost order: seq<Conn>)
      modifies this
      ensures old(Valid()) ==> Valid()
      ensures Enumerates(order, old(clients))
      ensures State() == Fanout.Broadcast(old(State()), sender, m, fails, order)
    {
      ghost var start := State();
      var pending := clients;
      order := [];
      while pending != {}
        invariant pending !! Elems(order)
        invariant pending + Elems(order) == start.clients
        invariant Distinct(order)
        invariant State() == Fanout.Broadcast(start, sender, m, fails, order)
        decreases pending
      {
        var client :| client in pending;
        if client != sender {
          writes := writes + [Write(client, m)];
          if client in fails {
            closed := closed + {client};
            clients := clients - {client};
          }
        }
        assert (order + [client])[..|order|] == order;
        order := order + [client];
        pending := pending - {client};
      }
      if WellFormed(start) {
        BroadcastKeepsWellFormed(start, sender, m, fails, order);
      }
    }
  }
}
