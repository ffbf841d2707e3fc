/** A three-client exchange: A, B and C connect; A sends 0x01 0x02; B
    vanishes without a close frame, and the next write to it is taken to
    fail; C then sends 0xFF twice. Every statement holds for every run order
    of the range loops. */
module Scenario {
  import opened Wire
  import opened Fanout

  const A := Conn(0)
  const B := Conn(1)
  const C := Conn(2)
  const Hello := Message(BinaryMessage, [1, 2])
  const Bye := Message(BinaryMessage, [0xFF])

  /** A, B and C registered in that order on a fresh registry. */
  function Joined(): (h: Hub)
    ensures h == Hub({A, B, C}, {}, [])
  {
    Fanout.Register(Fanout.Register(Fanout.Register(Hub({}, {}, []), A), B), C)
  }

  /** B is pruned by C's first message and no one else leaves. */
  lemma Pruned(o1: seq<Conn>, o2: seq<Conn>)
    requires Enumerates(o1, {A, B, C}) && Enumerates(o2, {A, B, C})
    ensures
      var h1 := Broadcast(Joined(), A, Hello, {}, o1);
      var h2 := Broadcast(h1, C, Bye, {B}, o2);
      && h1.clients == {A, B, C}
      && h2.clients == {A, C} && h2.closed == {B}
  {
    var h1 := Broadcast(Joined(), A, Hello, {}, o1);
    BroadcastMembers(Joined(), A, Hello, {}, o1);
    BroadcastMembers(h1, C, Bye, {B}, o2);
  }

  /** What each of the three has been written after the exchange. */
  lemma Inbox(o1: seq<Conn>, o2: seq<Conn>, o3: seq<Conn>, x: Conn)
    requires Enumerates(o1, {A, B, C}) && Enumerates(o2, {A, B, C}) && Enumerates(o3, {A, C})
    ensures
      var h1 := Broadcast(Joined(), A, Hello, {}, o1);
      var h2 := Broadcast(h1, C, Bye, {B}, o2);
      var h3 := Broadcast(h2, C, Bye, {}, o3);
      WritesTo(h3.writes, x) ==
        (if x in {B, C} then [Hello] else []) + (if x in {A, B} then [Bye] else []) + (if x == A then [Bye] else [])
  {
    var h1 := Broadcast(Joined(), A, Hello, {}, o1);
    var h2 := Broadcast(h1, C, Bye, {B}, o2);
    Pruned(o1, o2);
    var s1 := if x in {B, C} then [Hello] else [];
    var s2 := if x in {A, B} then [Bye] else [];
    var s3 := if x == A then [Bye] else [];
    assert WritesTo(h1.writes, x) == s1 by {
      BroadcastWritesTo(Joined(), A, Hello, {}, o1, x);
    }
    assert WritesTo(h2.writes, x) == s1 + s2 by {
      BroadcastWritesTo(h1, C, Bye, {B}, o2, x);
    }
    BroadcastWritesTo(h2, C, Bye, {}, o3, x);
  }

  /** A's 0x01 0x02 reaches B and C and not A; C's first 0xFF is attempted to
      A and B, fails at B, which is closed and pruned; C's second 0xFF
      reaches A and is never attempted to B. */
  lemma ThreeClients(o1: seq<Conn>, o2: seq<Conn>, o3: seq<Conn>)
    requires Enumerates(o1, {A, B, C}) && Enumerates(o2, {A, B, C}) && Enumerates(o3, {A, C})
    ensures
      var h3 := Broadcast(Broadcast(Broadcast(Joined(), A, Hello, {}, o1), C, Bye, {B}, o2), C, Bye, {}, o3);
      && h3.clients == {A, C} && h3.closed == {B}
      && WritesTo(h3.writes, A) == [Bye, Bye]
      && WritesTo(h3.writes, B) == [Hello, Bye]
      && WritesTo(h3.writes, C) == [Hello]
  {
    Inbox(o1, o2, o3, A);
    Inbox(o1, o2, o3, B);
    Inbox(o1, o2, o3, C);
    Pruned(o1, o2);
    var h2 := Broadcast(Broadcast(Joined(), A, Hello, {}, o1), C, Bye, {B}, o2);
    BroadcastMembers(h2, C, Bye, {}, o3);
  }
}
