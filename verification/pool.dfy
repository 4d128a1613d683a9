/** `ProducerPool`: a bounded stack of idle connections to one address.
    Connections are opaque tokens; dialing a fresh one is an outcome
    supplied by the caller. */
module Pools {
  import opened Outcomes
  import Producers

  /** An open connection, known only by identity. */
  datatype Conn = Conn(id: nat)

  datatype Pool = Pool(address: string, idle: seq<Conn>, maxConnections: nat)

  /** The pool never holds more idle connections than its capacity. */
  predicate Bounded(p: Pool) {
    |p.idle| <= p.maxConnections
  }

  /** `ProducerPool::new`. */
  function NewPool(address: string, maxConnections: nat): (p: Pool)
    ensures Bounded(p)
    ensures |p.idle| == 0
    ensures p.address == address && p.maxConnections == maxConnections
  {
    Pool(address, [], maxConnections)
  }

  /** What dialing the pool's address would give: a new connection, or an
      error (unparsable address, connect timeout or refusal, or a failed
      `set_nodelay`). */
  datatype Dialing = Dialed(conn: Conn) | DialFailed(reason: string)

  /** The pool after an acquisition, what was acquired, and whether a new
      connection had to be dialed for it. */
  datatype Acquired = Acquired(pool: Pool, conn: Result<Conn>, dialed: bool)

  /** `ProducerPool::get_connection`. */
  function GetConnection(p: Pool, dial: Dialing): (a: Acquired)
    // An idle connection is reused, newest first, without dialing.
    ensures |p.idle| > 0 ==>
              && !a.dialed
              && a.conn == Ok(p.idle[|p.idle| - 1])
              && a.pool.idle == p.idle[..|p.idle| - 1]
    // With none idle, a new one is dialed and the pool stays as it is.
    ensures |p.idle| == 0 ==>
              && a.dialed
              && a.pool == p
              && (a.conn.Ok? <==> dial.Dialed?)
              && (dial.Dialed? ==> a.conn.value == dial.conn)
    ensures a.pool.address == p.address && a.pool.maxConnections == p.maxConnections
    ensures Bounded(p) ==> Bounded(a.pool)
  {
    if |p.idle| > 0 then
      Acquired(p.(idle := p.idle[..|p.idle| - 1]), Ok(p.idle[|p.idle| - 1]), false)
    else
      match dial
      case Dialed(c) => Acquired(p, Ok(c), true)
      case DialFailed(e) => Acquired(p, Err(e), true)
  }

  /** `ProducerPool::release_connection`. */
  function Release(p: Pool, c: Conn): (p': Pool)
    // Below capacity the connection goes on top of the stack ...
    ensures |p.idle| < p.maxConnections ==> p'.idle == p.idle + [c]
    // ... at capacity it is dropped and the pool is untouched.
    ensures |p.idle| >= p.maxConnections ==> p' == p
    ensures p'.address == p.address && p'.maxConnections == p.maxConnections
    ensures Bounded(p) ==> Bounded(p')
  {
    if |p.idle| < p.maxConnections then p.(idle := p.idle + [c]) else p
  }

  /** Releasing a connection and acquiring one hands back the same
      connection and the pool as it was: the idle list is a stack. */
  lemma ReleaseThenGet(p: Pool, c: Conn, dial: Dialing)
    requires |p.idle| < p.maxConnections
    ensures GetConnection(Release(p, c), dial) == Acquired(p, Ok(c), false)
  {
    var q := Release(p, c);
    assert q.idle[..|q.idle| - 1] == p.idle;
  }

  /** The pool after a send, and the request line written on success. */
  datatype Sent = Sent(pool: Pool, result: Result<string>)

  /** `ProducerPool::send`: acquire, write the `PUBLISH` request, release.
      `written` says whether cloning the connection and writing to it
      succeeded. */
  function Send(p: Pool, topic: string, message: string, dial: Dialing, written: bool): (s: Sent)
    ensures var a := GetConnection(p, dial);
            && (a.conn.Err? ==> s == Sent(p, Err(a.conn.error)))
            // After a successful write the connection goes back to the pool,
            // and what went over it is the producer's request line.
            && (a.conn.Ok? && written ==>
                  s == Sent(Release(a.pool, a.conn.value), Ok(Producers.PublishLine(topic, message))))
            // After a failed write it is dropped: the pool is the one left by
            // the acquisition.
            && (a.conn.Ok? && !written ==> s.pool == a.pool && s.result.Err?)
    ensures Bounded(p) ==> Bounded(s.pool)
  {
    var a := GetConnection(p, dial);
    match a.conn
    case Err(e) => Sent(p, Err(e))
    case Ok(c) =>
      if written then Sent(Release(a.pool, c), Ok(Producers.PublishLine(topic, message)))
      else Sent(a.pool, Err("write failed"))
  }

  /** A successful send from a pool with an idle connection leaves the pool
      exactly as it was; from an empty pool it dials, and the new connection
      stays in the pool if there is any capacity. */
  lemma SendKeepsWarmPool(p: Pool, topic: string, message: string, dial: Dialing)
    requires Bounded(p)
    ensures |p.idle| > 0 ==> Send(p, topic, message, dial, true).pool == p
    ensures |p.idle| == 0 && dial.Dialed? && p.maxConnections > 0 ==>
              Send(p, topic, message, dial, true).pool == p.(idle := [dial.conn])
    ensures |p.idle| == 0 && p.maxConnections == 0 ==>
              Send(p, topic, message, dial, true).pool == p
  {
    if |p.idle| > 0 {
      var a := GetConnection(p, dial);
      assert a.pool.idle + [p.idle[|p.idle| - 1]] == p.idle;
    }
  }
}
