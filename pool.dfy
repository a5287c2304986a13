/**
  The page pool a Browser draws pages from (rod.PagePool): a FIFO queue of
  capacity N that starts out holding N empty slots. Popping an empty slot
  means "you may create a page"; popping a live page hands that page back
  as it was left. So the pool is at once a counting semaphore of N permits
  and a cache of up to N idle pages.
 */
module PagePools {

  datatype Slot = Empty | Page(id: nat)

  /** What the create callback passed to Get produced: a new page, or a panic. */
  datatype Creation = Created(page: nat) | CreatePanicked

  /**
    What Get hands out. Blocked stands for a receive on an empty channel. In
    this package no later PutPage or Close can end that wait: GetPage holds
    the instance's mutex while it waits, and both need that mutex. Only a
    PutPage that released the mutex before GetPage took it, and has yet to
    finish its send, can still wake it.
   */
  datatype Got = Reused(page: nat) | Fresh(page: nat) | CreateFailed | Blocked

  /** The queue a new pool of capacity n starts with. */
  function EmptySlots(n: nat): (q: seq<Slot>)
    ensures |q| == n
    ensures forall i :: 0 <= i < n ==> q[i] == Empty
  {
    seq(n, _ => Empty)
  }

  /**
    Get: pop the head of the queue. A live page is returned unchanged (create
    is not consulted, so per-call page options are not applied to it); an
    empty slot is replaced by whatever create produces, and the slot is
    spent even when create fails; an empty queue blocks.
   */
  function Take(q: seq<Slot>, create: Creation): (r: (Got, seq<Slot>))
    ensures r.0 == Blocked <==> q == []
    ensures q == [] ==> r.1 == q
    ensures q != [] ==> r.1 == q[1..]
    ensures q != [] && q[0].Page? ==> r.0 == Reused(q[0].id)
    ensures q != [] && q[0].Empty? && create.Created? ==> r.0 == Fresh(create.page)
    ensures q != [] && q[0].Empty? && create.CreatePanicked? ==> r.0 == CreateFailed
  {
    if q == [] then (Blocked, q)
    else
      match q[0]
      case Page(p) => (Reused(p), q[1..])
      case Empty =>
        match create
        case Created(p) => (Fresh(p), q[1..])
        case CreatePanicked => (CreateFailed, q[1..])
  }

  /**
    Put: the page joins the back of the queue while there is room. A Put on
    a full pool is a send on a full channel, which would block; the model
    instead discards the page and leaves the queue as it was, so the depth
    never passes the capacity. In this package a full pool on Put only
    arises when a caller returns more pages than it took.
   */
  function Give(q: seq<Slot>, limit: nat, page: nat): (r: (bool, seq<Slot>))
    ensures r.0 <==> |q| < limit
    ensures r.0 ==> r.1 == q + [Page(page)]
    ensures !r.0 ==> r.1 == q
    ensures |q| <= limit ==> |r.1| <= limit
  {
    if |q| < limit then (true, q + [Page(page)]) else (false, q)
  }

  /** The live pages of a queue in queue order: those Cleanup hands to its callback. */
  function LivePages(q: seq<Slot>): (pages: seq<nat>)
    ensures |pages| <= |q|
    ensures forall p :: p in pages <==> Page(p) in q
    decreases |q|
  {
    if q == [] then []
    else
      var init := LivePages(q[..|q| - 1]);
      assert q == q[..|q| - 1] + [q[|q| - 1]];
      match q[|q| - 1]
      case Page(p) => init + [p]
      case Empty => init
  }

  /** A Get followed by a Put of the page it gave out leaves the depth where it was. */
  lemma TakeGiveRestoresDepth(q: seq<Slot>, limit: nat, create: Creation, page: nat)
    requires 0 < |q| <= limit
    ensures |Give(Take(q, create).1, limit, page).1| == |q|
  {
  }

  class PagePool {
    const limit: nat
    var queue: seq<Slot>

    ghost predicate Valid()
      reads this
    {
      |queue| <= limit
    }

    /** NewPagePool(limit): a channel of capacity limit filled with empty slots. */
    constructor (limit: nat)
      ensures Valid()
      ensures this.limit == limit && queue == EmptySlots(limit)
    {
      this.limit := limit;
      queue := EmptySlots(limit);
    }

    method Get(create: Creation) returns (got: Got)
      requires Valid()
      modifies this
      ensures Valid()
      ensures (got, queue) == Take(old(queue), create)
    {
      var r := Take(queue, create);
      got, queue := r.0, r.1;
    }

    method Put(page: nat) returns (queued: bool)
      requires Valid()
      modifies this
      ensures Valid()
      ensures (queued, queue) == Give(old(queue), limit, page)
    {
      queued := |queue| < limit;
      if queued {
        queue := queue + [Page(page)];
      }
    }

    /**
      Cleanup: up to `limit` non-blocking receives; each live page received is
      handed to the callback (here: collected in `closed`), empty slots are
      dropped. Pages checked out at the time are not touched.
     */
    method Cleanup() returns (closed: seq<nat>)
      requires Valid()
      modifies this
      ensures Valid()
      ensures queue == []
      ensures closed == LivePages(old(queue))
    {
      closed := [];
      ghost var start := queue;
      ghost var k := 0;
      for i := 0 to limit
        invariant k == if i < |start| then i else |start|
        invariant queue == start[k..]
        invariant closed == LivePages(start[..k])
      {
        if queue != [] {
          var slot := queue[0];
          queue := queue[1..];
          assert start[..k + 1][..k] == start[..k];
          if slot.Page? {
            closed := closed + [slot.id];
          }
          k := k + 1;
        }
      }
      assert start[..k] == start;
    }
  }
}
