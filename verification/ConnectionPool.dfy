/** The pool as a class: a list, a counter, and methods that each run under the lock. */
module ConnectionPool {
  import opened Options
  import opened PoolModel

  class Connection {
    var closed: bool

    constructor ()
      ensures !closed
    {
      closed := false;
    }
  }

  /** The attempts that gave a connection, in order. */
  ghost function Opened(attempts: seq<Connection?>): seq<Connection> {
    if attempts == [] then []
    else
      var last := attempts[|attempts| - 1];
      Opened(attempts[..|attempts| - 1]) + if last == null then [] else [last]
  }

  lemma NoneOpened()
    ensures Opened([]) == []
  {
  }

  lemma OpenedAppend(attempts: seq<Connection?>, c: Connection?)
    ensures Opened(attempts + [c]) == Opened(attempts) + if c == null then [] else [c]
  {
    assert (attempts + [c])[..|attempts|] == attempts;
  }

  class DBPool {
    var maxSize: int
    var curSize: int
    var connList: seq<Connection>
    ghost var lent: set<Connection>
    ghost var deleted: set<Connection>
    /** What the attempts of the initial loop gave, failures included. */
    ghost var attempts: seq<Connection?>

    ghost function State(): Pool<Connection>
      reads this
    {
      Pool(maxSize, curSize, connList, lent, deleted)
    }

    ghost predicate Valid()
      reads this
    {
      Ok(State())
    }

    /** `initPool` on a new pool: half the connections are opened at once; those that fail are not counted. */
    constructor InitPool(maxSize: int)
      ensures Valid() && lent == {} && deleted == {} && this.maxSize == maxSize
      ensures curSize == |connList| && |attempts| == if maxSize > 0 then maxSize / 2 else 0
      ensures connList == Opened(attempts)
      ensures forall c :: c in connList ==> fresh(c) && !c.closed
    {
      this.maxSize, curSize, connList := maxSize, 0, [];
      lent, deleted, attempts := {}, {}, [];
      new;
      InitConnection(if maxSize < 0 then -((-maxSize) / 2) else maxSize / 2);
    }

    method InitConnection(initSize: int)
      requires Valid() && connList == [] && lent == {} && deleted == {} && attempts == []
      requires initSize <= if maxSize > 0 then maxSize else 0
      modifies this`connList, this`curSize, this`attempts
      ensures Valid() && curSize == |connList| && connList == Opened(attempts)
      ensures |attempts| == if initSize > 0 then initSize else 0
      ensures forall c :: c in connList ==> fresh(c) && !c.closed
    {
      hide Opened;
      NoneOpened();
      var i := 0;
      while i < initSize
        invariant 0 <= i && (i <= initSize || i == 0)
        invariant Valid() && curSize == |connList| <= i == |attempts| && connList == Opened(attempts)
        invariant forall c :: c in connList ==> fresh(c) && !c.closed
      {
        var conn := CreateConnection();
        OpenedAppend(attempts, conn);
        attempts := attempts + [conn];
        if conn != null {
          connList := connList + [conn];
          curSize := curSize + 1;
        }
        i := i + 1;
      }
    }

    /** The driver gives a new open connection, or fails. */
    method CreateConnection() returns (conn: Connection?)
      ensures conn != null ==> fresh(conn) && !conn.closed
    {
      var fails: bool := *;
      if fails {
        conn := null;
      } else {
        conn := new Connection();
      }
    }

    method GetConnection() returns (conn: Connection?, ghost made: Option<Connection>)
      requires Valid()
      modifies this
      ensures Valid() && (made.Some? ==> fresh(made.value) && !made.value.closed)
      ensures State() == Get(old(State()), old(connList != [] && connList[0].closed), made).0
      ensures Get(old(State()), old(connList != [] && connList[0].closed), made).1 ==
              if conn == null then None else Some(conn)
      ensures conn == null <==>
              old(connList == [] && |lent| == Capacity(State())) ||
              (old(NeedsNew(State(), connList != [] && connList[0].closed)) && made == None)
      ensures conn != null ==> !conn.closed
      ensures connList == if old(connList) == [] then [] else old(connList)[1..]
      ensures conn != null ==> lent == old(lent) + {conn}
      ensures conn == null ==> lent == old(lent)
      ensures old(connList != [] && !connList[0].closed) ==>
                conn == old(connList)[0] && curSize == old(curSize) && deleted == old(deleted)
      ensures old(connList != [] && connList[0].closed) ==>
                && (conn != null ==> fresh(conn)) && deleted == old(deleted) + {old(connList)[0]}
                && curSize == old(curSize) - if conn == null then 1 else 0
      ensures old(connList) == [] ==>
                && (conn != null ==> fresh(conn) && old(curSize < maxSize)) && deleted == old(deleted)
                && curSize == old(curSize) + if conn == null then 0 else 1
      ensures maxSize == old(maxSize)
    {
      hide Ok, Get;
      if |connList| > 0 {
        conn, made := TakeIdle();
      } else {
        conn, made := OpenNew();
      }
      assert made.Some? ==> New(old(State()), made.value);
      GetOk(old(State()), old(connList != [] && connList[0].closed), made);
      GetNull(old(State()), old(connList != [] && connList[0].closed), made);
    }

    /** The pool has a connection: the first one, or a replacement when it has been closed. */
    method TakeIdle() returns (conn: Connection?, ghost made: Option<Connection>)
      requires connList != []
      modifies this`connList, this`curSize, this`lent, this`deleted
      ensures made.Some? ==> fresh(made.value) && !made.value.closed
      ensures State() == Get(old(State()), old(connList[0].closed), made).0
      ensures Get(old(State()), old(connList[0].closed), made).1 == if conn == null then None else Some(conn)
      ensures conn != null ==> !conn.closed
      ensures connList == old(connList)[1..] && lent == old(lent) + if conn == null then {} else {conn}
      ensures old(!connList[0].closed) ==>
                conn == old(connList)[0] && curSize == old(curSize) && deleted == old(deleted)
      ensures old(connList[0].closed) ==>
                && (conn != null ==> fresh(conn)) && deleted == old(deleted) + {old(connList)[0]}
                && curSize == old(curSize) - if conn == null then 1 else 0
    {
      made := None;
      conn := connList[0];
      connList := connList[1..];
      if conn.closed {
        deleted := deleted + {conn};
        conn := CreateConnection();
        if conn != null {
          made := Some(conn);
        }
      }
      if conn == null {
        curSize := curSize - 1;
      } else {
        lent := lent + {conn};
      }
    }

    /** The pool has none: a new one, while fewer than `maxSize` exist. */
    method OpenNew() returns (conn: Connection?, ghost made: Option<Connection>)
      requires connList == []
      modifies this`curSize, this`lent
      ensures made.Some? ==> fresh(made.value) && !made.value.closed
      ensures forall closed :: State() == Get(old(State()), closed, made).0
      ensures forall closed :: Get(old(State()), closed, made).1 == if conn == null then None else Some(conn)
      ensures conn != null ==> !conn.closed && fresh(conn) && old(curSize < maxSize)
      ensures lent == old(lent) + if conn == null then {} else {conn}
      ensures curSize == old(curSize) + if conn == null then 0 else 1
    {
      made := None;
      conn := null;
      if curSize < maxSize {
        conn := CreateConnection();
        if conn != null {
          made := Some(conn);
          lent := lent + {conn};
          curSize := curSize + 1;
        }
      }
    }

    /** A NULL release does nothing; the books stay right exactly when the caller held the connection. */
    method ReleaseConnection(conn: Connection?)
      requires Valid()
      modifies this`connList, this`lent
      ensures State() == if conn == null then old(State()) else Release(old(State()), conn)
      ensures conn == null ==> connList == old(connList) && lent == old(lent)
      ensures conn != null ==> connList == old(connList) + [conn] && lent == old(lent) - {conn}
      ensures Valid() <==> conn == null || conn in old(lent)
    {
      if conn != null {
        ReleaseExact(State(), conn);
        connList := connList + [conn];
        lent := lent - {conn};
      }
    }

    /** Closes and deletes the idle connections; those still lent are forgotten, not reclaimed. */
    method DestroyConnPool()
      requires Valid()
      modifies this`connList, this`curSize, this`deleted, connList
      ensures State() == Destroy(old(State()))
      ensures connList == [] && curSize == 0 && deleted == old(deleted) + set c | c in old(connList)
      ensures forall c :: c in old(connList) ==> c.closed
      ensures Valid() <==> lent == {}
    {
      DestroyExact(State());
      var i := 0;
      while i < |connList|
        invariant i <= |connList| && connList == old(connList) && curSize == old(curSize)
        invariant deleted == old(deleted) + set c | c in connList[..i]
        invariant forall c :: c in connList[..i] ==> c.closed
      {
        DestroyConnection(connList[i]);
        assert connList[..i + 1] == connList[..i] + [connList[i]];
        deleted := deleted + {connList[i]};
        i := i + 1;
      }
      assert connList[..i] == connList;
      curSize := 0;
      connList := [];
    }

    method DestroyConnection(conn: Connection?)
      modifies if conn == null then {} else {conn}
      ensures conn != null ==> conn.closed
    {
      if conn != null {
        conn.closed := true;
      }
    }
  }
}
