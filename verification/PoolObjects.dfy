/**
 The two classes behind the protocol of module Pool, with their fields updated in
 place. A method that would block in the condition variable returns null instead:
 the caller is then the sleeper of the protocol.
 */
module PoolObjects {
  import opened Wrappers
  import opened Pool

  class PgPool {
    var idle: seq<Conn>

    constructor (size: int)
      ensures idle == Created(if size > 0 then size else 0)
    {
      idle := [];
      new;
      var i := 0;
      while i < size
        invariant 0 <= i && (size > 0 ==> i <= size) && (size <= 0 ==> i == 0)
        invariant idle == Created(i)
      {
        idle := idle + [i];
        i := i + 1;
      }
    }

    method Acquire() returns (c: PgConn?)
      modifies this
      ensures old(idle) == [] ==> c == null && idle == []
      ensures old(idle) != [] ==>
        && c != null && fresh(c) && c.pool == this
        && c.conn == Some(old(idle)[0]) && idle == old(idle)[1..]
    {
      if idle == [] { return null; }
      var got := idle[0];
      idle := idle[1..];
      c := new PgConn(this, Some(got));
    }

    method Release(conn: Conn)
      modifies this
      ensures idle == old(idle) + [conn]
    {
      idle := idle + [conn];
    }
  }

  class PgConn {
    var pool: PgPool?
    var conn: Option<Conn>

    constructor (pool: PgPool?, conn: Option<Conn>)
      ensures this.pool == pool && this.conn == conn
    {
      this.pool, this.conn := pool, conn;
    }

    constructor MoveFrom(other: PgConn)
      modifies other
      ensures pool == old(other.pool) && conn == old(other.conn)
      ensures other.pool == null && other.conn == None
    {
      pool, conn := other.pool, other.conn;
      new;
      other.pool, other.conn := null, None;
    }

    method Destroy()
      modifies this, if pool != null then {pool} else {}
      ensures pool == old(pool) && conn == if pool != null then None else old(conn)
      ensures pool != null ==>
        pool.idle == old(pool.idle) + (match old(conn) case Some(c) => [c] case None => [])
    {
      if pool != null && conn.Some? {
        var c := conn.value;
        conn := None;
        pool.Release(c);
      }
    }
  }

  /** The read-back of CreateVehicle: its own connection, returned before it returns. */
  method GetVehicle(pool: PgPool) returns (blocked: bool)
    modifies pool
    ensures blocked <==> old(pool.idle) == []
    ensures pool.idle == if blocked then [] else old(pool.idle)[1..] + [old(pool.idle)[0]]
  {
    var conn := pool.Acquire();
    if conn == null { return true; }
    conn.Destroy();
    return false;
  }

  /**
   The nested acquire, run alone: with one idle connection it blocks holding it, with more
   it returns the inner connection first. A connection moved on the way comes back once.
   */
  method CreateVehicle(pool: PgPool, move: bool) returns (blocked: bool)
    modifies pool
    ensures blocked <==> |old(pool.idle)| < 2
    ensures blocked ==> pool.idle == []
    ensures !blocked ==> pool.idle == old(pool.idle)[2..] + [old(pool.idle)[1], old(pool.idle)[0]]
  {
    var conn := pool.Acquire();
    if conn == null { return true; }
    var owner := conn;
    if move { owner := new PgConn.MoveFrom(conn); }
    blocked := GetVehicle(pool);
    if blocked { return; }
    owner.Destroy();
    if move { conn.Destroy(); }
  }
}
