// The lists of active connections, each with a limit, under a common limit
// (src/connection.hpp:62-203, 233-245; src/acceptor.cpp:147-158).
module ConnectionLists {
  class GlobalConnectionList {
    const maxConn: nat
    var connCount: nat

    constructor (maxConnections: nat)
      ensures maxConn == maxConnections && connCount == 0
    {
      maxConn, connCount := maxConnections, 0;
    }

    // One more connection is admitted; no limit is given as 0.
    predicate Admits()
      reads this
    {
      maxConn == 0 || connCount < maxConn
    }

    method IncConnCount() returns (ok: bool)
      modifies this
      ensures ok == old(Admits())
      ensures connCount == old(connCount) + if ok then 1 else 0
    {
      if maxConn > 0 {
        if connCount < maxConn {
          connCount := connCount + 1;
          return true;
        } else {
          return false;
        }
      } else {
        connCount := connCount + 1;
        return true;
      }
    }

    method DecConnCount()
      requires connCount > 0
      modifies this
      ensures connCount == old(connCount) - 1
    {
      connCount := connCount - 1;
    }
  }

  // std::list::remove takes out every occurrence.
  function Removed<T(==)>(xs: seq<T>, x: T): seq<T> {
    if xs == [] then [] else (if xs[0] == x then [] else [xs[0]]) + Removed(xs[1..], x)
  }

  lemma {:induction false} RemovedCount<T>(xs: seq<T>, x: T)
    ensures |Removed(xs, x)| == |xs| - multiset(xs)[x]
    ensures multiset(Removed(xs, x)) == multiset(xs)[x := 0]
  {
    if xs != [] {
      assert xs == [xs[0]] + xs[1..];
      RemovedCount(xs[1..], x);
    }
  }

  // r has the elements of the places at, in their order.
  predicate Picks<T(==)>(xs: seq<T>, at: seq<nat>, r: seq<T>) {
    && |at| == |r|
    && (forall i :: 0 <= i < |at| ==> at[i] < |xs| && r[i] == xs[at[i]])
    && (forall i, j :: 0 <= i < j < |at| ==> at[i] < at[j])
  }

  // These are all places that have another element than x.
  predicate AllOthers<T(==)>(xs: seq<T>, x: T, at: seq<nat>) {
    forall k :: 0 <= k < |xs| ==> (xs[k] != x <==> k in at)
  }

  predicate OneUp(rest: seq<nat>, moved: seq<nat>) {
    |moved| == |rest| && forall i :: 0 <= i < |rest| ==> moved[i] == rest[i] + 1
  }

  lemma PicksCons<T>(xs: seq<T>, rest: seq<nat>, r: seq<T>, moved: seq<nat>)
    requires xs != [] && Picks(xs[1..], rest, r) && OneUp(rest, moved)
    ensures Picks(xs, moved, r) && Picks(xs, [0] + moved, [xs[0]] + r)
  {
    forall i | 0 <= i < |moved| ensures 0 < moved[i] < |xs| && r[i] == xs[moved[i]] {
      assert xs[1..][rest[i]] == xs[moved[i]];
    }
  }

  lemma MovedIn(rest: seq<nat>, moved: seq<nat>, k: nat)
    requires OneUp(rest, moved)
    ensures k + 1 in moved <==> k in rest
    ensures 0 !in moved
  {
    if k in rest {
      var i :| 0 <= i < |rest| && rest[i] == k;
      assert moved[i] == k + 1;
    }
  }

  lemma OthersCons<T>(xs: seq<T>, x: T, rest: seq<nat>, moved: seq<nat>)
    requires xs != [] && AllOthers(xs[1..], x, rest) && OneUp(rest, moved)
    ensures AllOthers(xs, x, if xs[0] == x then moved else [0] + moved)
  {
    var at := if xs[0] == x then moved else [0] + moved;
    forall k | 0 <= k < |xs| ensures xs[k] != x <==> k in at {
      MovedIn(rest, moved, if k == 0 then 0 else k - 1);
      if k > 0 {
        assert xs[k] == xs[1..][k - 1];
      }
      hide OneUp;
    }
  }

  // What is left of the list are the others in their order.
  lemma {:induction false} RemovedOrder<T>(xs: seq<T>, x: T) returns (at: seq<nat>)
    ensures Picks(xs, at, Removed(xs, x)) && AllOthers(xs, x, at)
  {
    if xs == [] {
      at := [];
    } else {
      var rest := RemovedOrder(xs[1..], x);
      var moved: seq<nat> := seq(|rest|, i requires 0 <= i < |rest| => rest[i] + 1);
      PicksCons(xs, rest, Removed(xs[1..], x), moved);
      OthersCons(xs, x, rest, moved);
      at := if xs[0] == x then moved else [0] + moved;
      hide Picks, AllOthers;
    }
  }

  class SocketConnectionList {
    var connList: seq<Connection>
    var connCount: nat
    const maxConn: nat
    const globalList: GlobalConnectionList

    constructor (maxConnections: nat, globalList: GlobalConnectionList)
      ensures maxConn == maxConnections && this.globalList == globalList
      ensures connList == [] && Valid()
    {
      connList, connCount, maxConn, this.globalList := [], 0, maxConnections, globalList;
    }

    // What the assertions of the class say
    predicate Valid()
      reads this
    {
      connCount == |connList|
    }

    // The common count has this list in it.
    predicate Counted()
      reads this, globalList
    {
      connCount <= globalList.connCount
    }

    // A connection is appended exactly if both limits allow it; otherwise nothing changes.
    method Push(conn: Connection) returns (ok: bool)
      requires Valid()
      modifies this, globalList
      ensures Valid()
      ensures ok == old((maxConn == 0 || |connList| < maxConn) && globalList.Admits())
      ensures connList == old(connList) + if ok then [conn] else []
      ensures globalList.connCount == old(globalList.connCount) + if ok then 1 else 0
    {
      if maxConn > 0 {
        if connCount < maxConn {
          var admitted := globalList.IncConnCount();
          if admitted {
            connList := connList + [conn];
            connCount := connCount + 1;
          } else {
            return false;
          }
        } else {
          return false;
        }
      } else {
        var admitted := globalList.IncConnCount();
        if admitted {
          connList := connList + [conn];
          connCount := connCount + 1;
        } else {
          return false;
        }
      }
      return true;
    }

    // The assertion at the end holds exactly if the connection was in the list once, or the
    // list was empty: both counts go down whatever is found.
    method Remove(conn: Connection)
      requires Valid() && Counted()
      modifies this, globalList
      ensures connList == Removed(old(connList), conn)
      ensures old(connList) == [] ==> connCount == 0 && globalList.connCount == old(globalList.connCount)
      ensures old(connList) != [] ==>
        connCount == old(connCount) - 1 && globalList.connCount == old(globalList.connCount) - 1
      ensures Valid() <==> old(connList) == [] || multiset(old(connList))[conn] == 1
      ensures Counted()
    {
      RemovedCount(connList, conn);
      if connList == [] {
        return;
      }
      connList := Removed(connList, conn);
      globalList.DecConnCount();
      connCount := connCount - 1;
    }

    method Pop() returns (conn: Connection?)
      requires Valid() && Counted()
      modifies this, globalList
      ensures Valid() && Counted()
      ensures conn == null <==> old(connList) == []
      ensures conn != null ==> old(connList) == [conn] + connList
      ensures conn == null ==> connList == []
      ensures globalList.connCount == old(globalList.connCount) - if conn == null then 0 else 1
    {
      if connList == [] {
        return null;
      }
      conn := connList[0];
      connList := connList[1..];
      globalList.DecConnCount();
      connCount := connCount - 1;
    }
  }

  class Connection {
    var connList: SocketConnectionList?
    var signalled: bool

    constructor (list: SocketConnectionList)
      ensures connList == list && !signalled
    {
      connList, signalled := list, false;
    }

    // unregister.  A connection that is not registered any more leaves its list alone.
    method Unregister()
      requires connList != null ==> connList.Valid() && connList.Counted()
      modifies this, connList, if connList == null then {} else {connList.globalList}
      ensures connList == null && signalled == old(signalled)
      ensures old(connList) != null ==>
        && old(connList).connList == Removed(old(connList.connList), this)
        && (old(connList).Valid() <==> old(connList.connList == [] || multiset(connList.connList)[this] == 1))
      ensures old(connList) != null ==>
        old(connList).globalList.connCount ==
        old(connList.globalList.connCount) - if old(connList.connList) == [] then 0 else 1
    {
      if connList != null {
        connList.Remove(this);
        connList := null;
      }
    }

    method SetUnregistered()
      modifies this`connList
      ensures connList == null
    {
      connList := null;
    }

    method Signal()
      modifies this`signalled
      ensures signalled
    {
      signalled := true;
    }
  }

  class Acceptor {
    var open: bool
    const connList: SocketConnectionList

    constructor (connList: SocketConnectionList)
      ensures open && this.connList == connList
    {
      open, this.connList := true, connList;
    }

    // The list is drained in its order: every connection in it is signalled and forgets the
    // list, and the common count gives back the share of the list.
    method HandleStop() returns (ghost stopped: seq<Connection>)
      requires connList.Valid() && connList.Counted()
      modifies this, connList, connList.globalList, connList.connList
      ensures !open && connList.Valid() && connList.connList == []
      ensures stopped == old(connList.connList)
      ensures forall c :: c in stopped ==> c.connList == null && c.signalled
      ensures connList.globalList.connCount == old(connList.globalList.connCount) - |stopped|
    {
      open := false;
      stopped := [];
      ghost var all := connList.connList;
      var conn := connList.Pop();
      while conn != null
        invariant connList.Valid() && connList.Counted() && !open
        invariant conn == null ==> connList.connList == []
        invariant all == stopped + (if conn == null then [] else [conn]) + connList.connList
        invariant forall c :: c in stopped ==> c.connList == null && c.signalled
        invariant connList.globalList.connCount ==
                  old(connList.globalList.connCount) - |stopped| - if conn == null then 0 else 1
        decreases |connList.connList|, if conn == null then 0 else 1
      {
        assert all[|stopped|] == conn;
        conn.SetUnregistered();
        conn.Signal();
        stopped := stopped + [conn];
        conn := connList.Pop();
      }
    }
  }
}
