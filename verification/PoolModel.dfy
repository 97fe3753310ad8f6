/** The connection pool's bookkeeping, for any kind of connection: who owns what, and what the counter counts. */
module PoolModel {
  import opened Options

  /** Idle connections in list order, those lent out, and those destroyed. */
  datatype Pool<C(==)> = Pool(maxSize: int, curSize: int, idle: seq<C>, lent: set<C>, deleted: set<C>)

  function Capacity<C>(p: Pool<C>): nat {
    if p.maxSize > 0 then p.maxSize else 0
  }

  ghost predicate Ok<C>(p: Pool<C>) {
    && (forall i, j :: 0 <= i < j < |p.idle| ==> p.idle[i] != p.idle[j])
    && (forall i :: 0 <= i < |p.idle| ==> p.idle[i] !in p.lent && p.idle[i] !in p.deleted)
    && p.lent !! p.deleted
    && p.curSize == |p.idle| + |p.lent|
    && p.curSize <= Capacity(p)
  }

  /** Not known to the pool: what the driver hands out. */
  predicate New<C(==)>(p: Pool<C>, c: C) {
    c !in p.idle && c !in p.lent && c !in p.deleted
  }

  /** `GetConnection`: `frontClosed` says whether the first idle connection has been closed, `made` what an attempt to
      create a connection gives. */
  function Get<C>(p: Pool<C>, frontClosed: bool, made: Option<C>): (Pool<C>, Option<C>) {
    if p.idle != [] then
      var c := p.idle[0];
      var q := p.(idle := p.idle[1..]);
      if !frontClosed then (q.(lent := q.lent + {c}), Some(c))
      else
        match made
        case None => (q.(deleted := q.deleted + {c}, curSize := q.curSize - 1), None)
        case Some(d) => (q.(deleted := q.deleted + {c}, lent := q.lent + {d}), Some(d))
    else if p.curSize < p.maxSize then
      match made
      case None => (p, None)
      case Some(d) => (p.(lent := p.lent + {d}, curSize := p.curSize + 1), Some(d))
    else (p, None)
  }

  function Release<C>(p: Pool<C>, c: C): Pool<C> {
    p.(idle := p.idle + [c], lent := p.lent - {c})
  }

  function Destroy<C>(p: Pool<C>): Pool<C> {
    p.(idle := [], curSize := 0, deleted := p.deleted + set c | c in p.idle)
  }

  lemma GetOk<C>(p: Pool<C>, frontClosed: bool, made: Option<C>)
    requires Ok(p) && (made.Some? ==> New(p, made.value))
    ensures Ok(Get(p, frontClosed, made).0)
  {
  }

  /** A connection handed out was nobody's: it was the first idle one, or it is new; and from then on it is lent. */
  lemma GetHandsOut<C>(p: Pool<C>, frontClosed: bool, made: Option<C>)
    requires Ok(p) && (made.Some? ==> New(p, made.value))
    ensures var (q, r) := Get(p, frontClosed, made);
            r.Some? ==>
              && r.value !in p.lent && r.value !in p.deleted && q.lent == p.lent + {r.value}
              && r.value !in q.idle && r.value !in q.deleted
              && r == if p.idle != [] && !frontClosed then Some(p.idle[0]) else made
  {
  }

  /** `GetConnection` asks the driver for a connection: the first idle one is closed, or there is none and fewer than
      `maxSize` exist. */
  predicate NeedsNew<C(==)>(p: Pool<C>, frontClosed: bool) {
    if p.idle != [] then frontClosed else p.curSize < p.maxSize
  }

  /** NULL means exactly that all `maxSize` connections are lent, or that one had to be created and creation failed. */
  lemma GetNull<C>(p: Pool<C>, frontClosed: bool, made: Option<C>)
    requires Ok(p)
    ensures Get(p, frontClosed, made).1 == None <==>
            (p.idle == [] && |p.lent| == Capacity(p)) || (NeedsNew(p, frontClosed) && made == None)
  {
  }

  /** Releasing keeps the books exactly when the caller held the connection. */
  lemma ReleaseExact<C>(p: Pool<C>, c: C)
    requires Ok(p)
    ensures Ok(Release(p, c)) <==> c in p.lent
  {
    var q := Release(p, c);
    if c in p.lent {
      assert |q.lent| == |p.lent| - 1;
    } else {
      assert q.lent == p.lent;
      assert q.curSize != |q.idle| + |q.lent|;
    }
  }

  /** After destruction the books are right exactly when nothing is still lent. */
  lemma DestroyExact<C>(p: Pool<C>)
    requires Ok(p)
    ensures Ok(Destroy(p)) <==> p.lent == {}
  {
    assert p.lent == {} <==> |p.lent| == 0;
  }

  // ----- Runs -----

  datatype Op<C> = GetOp(frontClosed: bool, made: Option<C>) | ReleaseOp(c: C)

  function Step<C>(p: Pool<C>, op: Op<C>): Pool<C> {
    match op
    case GetOp(frontClosed, made) => Get(p, frontClosed, made).0
    case ReleaseOp(c) => Release(p, c)
  }

  /** The driver makes new connections, and clients release what they hold. */
  predicate Fair<C(==)>(p: Pool<C>, op: Op<C>) {
    match op
    case GetOp(_, made) => made.Some? ==> New(p, made.value)
    case ReleaseOp(c) => c in p.lent
  }

  function Run<C>(p: Pool<C>, ops: seq<Op<C>>): Pool<C>
    decreases |ops|
  {
    if ops == [] then p else Run(Step(p, ops[0]), ops[1..])
  }

  predicate FairRun<C(==)>(p: Pool<C>, ops: seq<Op<C>>)
    decreases |ops|
  {
    ops == [] || (Fair(p, ops[0]) && FairRun(Step(p, ops[0]), ops[1..]))
  }

  /** Over every such run: the counter is idle plus lent and at most `maxSize`, no connection is idle twice, or idle
      and lent, or in use after it was destroyed; and what was destroyed stays so. */
  lemma {:induction false} RunOk<C>(p: Pool<C>, ops: seq<Op<C>>)
    requires Ok(p) && FairRun(p, ops)
    ensures Ok(Run(p, ops)) && Run(p, ops).maxSize == p.maxSize && p.deleted <= Run(p, ops).deleted
    decreases |ops|
  {
    if ops != [] {
      match ops[0] {
        case GetOp(frontClosed, made) => GetOk(p, frontClosed, made);
        case ReleaseOp(c) => ReleaseExact(p, c);
      }
      RunOk(Step(p, ops[0]), ops[1..]);
    }
  }
}
