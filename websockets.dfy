/** The live-update connection registry: for each family, the sockets
    currently subscribed to it. A socket is an opaque handle. Whether a
    send succeeds is decided outside the program: a broadcast is given the
    set `failing` of positions, within its snapshot, whose send raises. */
module Websockets {
  import opened Queries

  type Connection = int

  /** family id -> subscribed sockets, in connection order */
  type Registry = map<int, seq<Connection>>

  /** The registry's invariant: a family is listed only while it has a socket. */
  ghost predicate NoEmptyGroups(m: Registry) {
    forall f :: f in m ==> |m[f]| > 0
  }

  /** The sockets of family `f`; none when the family is not listed. */
  function Members(m: Registry, f: int): seq<Connection> {
    if f in m then m[f] else []
  }

  /** Registering a socket: the family's list is created if absent and the
      socket goes to its end; other families are untouched. */
  function Added(m: Registry, f: int, ws: Connection): (r: Registry)
    ensures f in r && r[f] == Members(m, f) + [ws]
    ensures forall g :: g != f ==> Members(r, g) == Members(m, g) && (g in r <==> g in m)
    ensures NoEmptyGroups(m) ==> NoEmptyGroups(r)
  {
    m[f := Members(m, f) + [ws]]
  }

  /** Unregistering a socket: its first occurrence leaves the family's
      list, and a list left empty is removed; other families are untouched. */
  function Dropped(m: Registry, f: int, ws: Connection): (r: Registry)
    ensures f in r ==> |r[f]| > 0
  {
    if f in m then
      var rest := RemoveFirst(m[f], ws);
      if rest == [] then m - {f} else m[f := rest]
    else m
  }

  /** Unregistering takes one copy of the socket out of its family. */
  lemma DroppedMembers(m: Registry, f: int, ws: Connection)
    ensures multiset(Members(Dropped(m, f, ws), f)) == multiset(Members(m, f)) - multiset{ws}
  {
    if f in m {
      RemoveFirstMultiset(m[f], ws);
    }
  }

  /** Unregistering from one family leaves every other family as it was. */
  lemma DroppedOthers(m: Registry, f: int, ws: Connection, g: int)
    requires g != f
    ensures Members(Dropped(m, f, ws), g) == Members(m, g)
    ensures g in Dropped(m, f, ws) <==> g in m
  {
  }

  /** Unregistering keeps the registry free of empty lists. */
  lemma DroppedKeepsInvariant(m: Registry, f: int, ws: Connection)
    requires NoEmptyGroups(m)
    ensures NoEmptyGroups(Dropped(m, f, ws))
  {
  }

  /** The sockets among the first `n` of `snapshot` whose send succeeded. */
  function Delivered(snapshot: seq<Connection>, failing: set<nat>, n: nat): (r: seq<Connection>)
    requires n <= |snapshot|
    ensures forall x :: x in r <==> exists i :: 0 <= i < n && i !in failing && snapshot[i] == x
  {
    if n == 0 then []
    else if n - 1 !in failing then Delivered(snapshot, failing, n - 1) + [snapshot[n - 1]]
    else Delivered(snapshot, failing, n - 1)
  }

  /** The sockets among the first `n` of `snapshot` whose send failed. */
  function Failed(snapshot: seq<Connection>, failing: set<nat>, n: nat): (r: seq<Connection>)
    requires n <= |snapshot|
    ensures forall x :: x in r <==> exists i :: 0 <= i < n && i in failing && snapshot[i] == x
  {
    if n == 0 then []
    else if n - 1 !in failing then Failed(snapshot, failing, n - 1)
    else Failed(snapshot, failing, n - 1) + [snapshot[n - 1]]
  }

  /** The registry after a broadcast to `snapshot` has made its first `n`
      attempts: each socket whose send failed has been unregistered. */
  function AfterAttempts(m: Registry, f: int, snapshot: seq<Connection>, failing: set<nat>, n: nat): (r: Registry)
    requires n <= |snapshot|
    ensures forall g :: g in r ==> g in m
    ensures f !in m ==> r == m
  {
    if n == 0 then m
    else if n - 1 !in failing then AfterAttempts(m, f, snapshot, failing, n - 1)
    else Dropped(AfterAttempts(m, f, snapshot, failing, n - 1), f, snapshot[n - 1])
  }

  /** Every attempted socket was either delivered to or failed, once each. */
  lemma {:induction false} DeliveredAndFailedSplit(snapshot: seq<Connection>, failing: set<nat>, n: nat)
    requires n <= |snapshot|
    ensures multiset(Delivered(snapshot, failing, n)) + multiset(Failed(snapshot, failing, n))
            == multiset(snapshot[..n])
  {
    if n > 0 {
      var x := snapshot[n - 1];
      var d, fl := Delivered(snapshot, failing, n - 1), Failed(snapshot, failing, n - 1);
      DeliveredAndFailedSplit(snapshot, failing, n - 1);
      PrefixSnoc(snapshot, n);
      if n - 1 !in failing {
        assert Delivered(snapshot, failing, n) == d + [x];
        SplitSnocLeft(d, fl, snapshot[..n - 1], x);
      } else {
        assert Failed(snapshot, failing, n) == fl + [x];
        SplitSnocRight(d, fl, snapshot[..n - 1], x);
      }
    }
  }

  lemma PrefixSnoc<T>(s: seq<T>, n: nat)
    requires 0 < n <= |s|
    ensures s[..n] == s[..n - 1] + [s[n - 1]]
  {
  }

  lemma SplitSnocLeft<T>(a: seq<T>, b: seq<T>, c: seq<T>, x: T)
    requires multiset(a) + multiset(b) == multiset(c)
    ensures multiset(a + [x]) + multiset(b) == multiset(c + [x])
  {
    assert multiset(a + [x]) == multiset(a) + multiset{x};
    assert multiset(c + [x]) == multiset(c) + multiset{x};
    assert forall y :: (multiset(a) + multiset{x} + multiset(b))[y] == (multiset(c) + multiset{x})[y];
  }

  lemma SplitSnocRight<T>(a: seq<T>, b: seq<T>, c: seq<T>, x: T)
    requires multiset(a) + multiset(b) == multiset(c)
    ensures multiset(a) + multiset(b + [x]) == multiset(c + [x])
  {
    assert multiset(b + [x]) == multiset(b) + multiset{x};
    assert multiset(c + [x]) == multiset(c) + multiset{x};
    assert forall y :: (multiset(a) + (multiset(b) + multiset{x}))[y] == (multiset(c) + multiset{x})[y];
  }

  lemma MultisetSumDiff<T>(a: multiset<T>, b: multiset<T>)
    ensures (a + b) - b == a
  {
    assert forall y :: ((a + b) - b)[y] == a[y];
  }

  /** Taking `b` and then `x` out of `a` is taking `b + [x]` out. */
  lemma DiffSnoc<T>(a: multiset<T>, b: seq<T>, x: T)
    ensures (a - multiset(b)) - multiset{x} == a - multiset(b + [x])
  {
    assert multiset(b + [x]) == multiset(b) + multiset{x};
    assert forall y :: ((a - multiset(b)) - multiset{x})[y] == (a - (multiset(b) + multiset{x}))[y];
  }

  /** The attempts remove exactly the failed sockets from the family,
      counted with multiplicity. */
  lemma {:induction false} AfterAttemptsMembers(m: Registry, f: int, snapshot: seq<Connection>,
                                                failing: set<nat>, n: nat)
    requires n <= |snapshot|
    ensures multiset(Members(AfterAttempts(m, f, snapshot, failing, n), f))
            == multiset(Members(m, f)) - multiset(Failed(snapshot, failing, n))
  {
    if n > 0 {
      var prev := AfterAttempts(m, f, snapshot, failing, n - 1);
      var failedBefore := Failed(snapshot, failing, n - 1);
      AfterAttemptsMembers(m, f, snapshot, failing, n - 1);
      if n - 1 in failing {
        var x := snapshot[n - 1];
        assert AfterAttempts(m, f, snapshot, failing, n) == Dropped(prev, f, x);
        assert Failed(snapshot, failing, n) == failedBefore + [x];
        DroppedMembers(prev, f, x);
        DiffSnoc(multiset(Members(m, f)), failedBefore, x);
      } else {
        assert AfterAttempts(m, f, snapshot, failing, n) == prev;
        assert Failed(snapshot, failing, n) == failedBefore;
      }
    }
  }

  /** A broadcast to one family leaves every other family as it was. */
  lemma {:induction false} AfterAttemptsOthers(m: Registry, f: int, snapshot: seq<Connection>,
                                               failing: set<nat>, n: nat, g: int)
    requires n <= |snapshot| && g != f
    ensures Members(AfterAttempts(m, f, snapshot, failing, n), g) == Members(m, g)
    ensures g in AfterAttempts(m, f, snapshot, failing, n) <==> g in m
  {
    if n > 0 {
      var prev := AfterAttempts(m, f, snapshot, failing, n - 1);
      AfterAttemptsOthers(m, f, snapshot, failing, n - 1, g);
      if n - 1 in failing {
        DroppedOthers(prev, f, snapshot[n - 1], g);
      }
    }
  }

  /** A broadcast keeps the registry free of empty lists. */
  lemma {:induction false} AfterAttemptsKeepsInvariant(m: Registry, f: int, snapshot: seq<Connection>,
                                                       failing: set<nat>, n: nat)
    requires n <= |snapshot| && NoEmptyGroups(m)
    ensures NoEmptyGroups(AfterAttempts(m, f, snapshot, failing, n))
  {
    if n > 0 {
      var prev := AfterAttempts(m, f, snapshot, failing, n - 1);
      AfterAttemptsKeepsInvariant(m, f, snapshot, failing, n - 1);
      if n - 1 in failing {
        DroppedKeepsInvariant(prev, f, snapshot[n - 1]);
      }
    }
  }

  /** After a broadcast the family keeps exactly the sockets that received
      the message: every failed socket has been unregistered. */
  lemma BroadcastLeavesDelivered(m: Registry, f: int, failing: set<nat>)
    ensures var s := Members(m, f);
            multiset(Members(AfterAttempts(m, f, s, failing, |s|), f))
            == multiset(Delivered(s, failing, |s|))
  {
    var s := Members(m, f);
    var delivered, failed := Delivered(s, failing, |s|), Failed(s, failing, |s|);
    DeliveredAndFailedSplit(s, failing, |s|);
    assert s[..|s|] == s;
    AfterAttemptsMembers(m, f, s, failing, |s|);
    MultisetSumDiff(multiset(delivered), multiset(failed));
  }

  class ConnectionManager {
    var activeConnections: Registry

    ghost predicate Valid()
      reads this
    {
      NoEmptyGroups(activeConnections)
    }

    constructor ()
      ensures Valid() && activeConnections == map[]
    {
      activeConnections := map[];
    }

    /** Registers an accepted socket under its family. */
    method Connect(websocket: Connection, familyId: int)
      requires Valid()
      modifies this
      ensures Valid()
      ensures activeConnections == Added(old(activeConnections), familyId, websocket)
    {
      if familyId !in activeConnections {
        activeConnections := activeConnections[familyId := []];
      }
      activeConnections := activeConnections[familyId := activeConnections[familyId] + [websocket]];
    }

    /** Unregisters a socket; unknown families and sockets are ignored. */
    method Disconnect(websocket: Connection, familyId: int)
      modifies this
      ensures activeConnections == Dropped(old(activeConnections), familyId, websocket)
      ensures old(Valid()) ==> Valid()
    {
      if Valid() {
        DroppedKeepsInvariant(activeConnections, familyId, websocket);
      }
      if familyId in activeConnections {
        var sockets := activeConnections[familyId];
        if websocket in sockets {
          sockets := RemoveFirst(sockets, websocket);
        }
        if sockets == [] {
          activeConnections := activeConnections - {familyId};
        } else {
          activeConnections := activeConnections[familyId := sockets];
        }
      }
    }

    /** Sends to a snapshot of the family's sockets, in order; a socket
        whose send fails is unregistered and the broadcast goes on. */
    method BroadcastToFamily(familyId: int, failing: set<nat>) returns (delivered: seq<Connection>)
      requires Valid()
      modifies this
      ensures Valid()
      ensures var s := Members(old(activeConnections), familyId);
              && delivered == Delivered(s, failing, |s|)
              && activeConnections == AfterAttempts(old(activeConnections), familyId, s, failing, |s|)
      ensures multiset(Members(activeConnections, familyId)) == multiset(delivered)
      ensures forall g :: g != familyId ==> Members(activeConnections, g) == Members(old(activeConnections), g)
    {
      // an unlisted family has no sockets, so the loop below does nothing
      var snapshot := Members(activeConnections, familyId);
      delivered := [];
      var i := 0;
      while i < |snapshot|
        invariant 0 <= i <= |snapshot|
        invariant delivered == Delivered(snapshot, failing, i)
        invariant activeConnections == AfterAttempts(old(activeConnections), familyId, snapshot, failing, i)
      {
        if i !in failing {
          delivered := delivered + [snapshot[i]];
        } else {
          Disconnect(snapshot[i], familyId);
        }
        i := i + 1;
      }
      BroadcastLeavesDelivered(old(activeConnections), familyId, failing);
      AfterAttemptsKeepsInvariant(old(activeConnections), familyId, snapshot, failing, |snapshot|);
      forall g | g != familyId
        ensures Members(activeConnections, g) == Members(old(activeConnections), g)
      {
        AfterAttemptsOthers(old(activeConnections), familyId, snapshot, failing, |snapshot|, g);
      }
    }
  }
}
