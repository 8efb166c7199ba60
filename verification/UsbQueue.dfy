/** The transfer queue of one USB endpoint (firmware/common/usb_queue.c) as a step system: thread steps,
    interrupt steps and device steps interleave, the lists are the linked lists of the source. */
module UsbQueue {

  datatype Job = Job(maximumLength: nat, hasCallback: bool, userData: int)

  /** What became of a scheduled transfer that has left the active list. */
  datatype Fate = Completed(remaining: nat) | Flushed

  datatype Call = Call(userData: int, transferred: int)

  /** The callbacks due when the first |fates| jobs have met their fates: one for each completed job
      that has a callback, in schedule order, with the bytes transferred. */
  ghost function CallsDue(jobs: seq<Job>, fates: seq<Fate>): seq<Call>
    requires |fates| <= |jobs|
  {
    if fates == [] then []
    else CallsDue(jobs, fates[..|fates| - 1]) + CallDue(jobs[|fates| - 1], fates[|fates| - 1])
  }

  ghost function CallDue(job: Job, fate: Fate): seq<Call> {
    if fate.Completed? && job.hasCallback then [Call(job.userData, job.maximumLength - fate.remaining)] else []
  }

  lemma {:induction false} CallsDueIgnoresLaterJobs(jobs: seq<Job>, job: Job, fates: seq<Fate>)
    requires |fates| <= |jobs|
    ensures CallsDue(jobs + [job], fates) == CallsDue(jobs, fates)
  {
    if fates != [] { CallsDueIgnoresLaterJobs(jobs, job, fates[..|fates| - 1]); }
  }

  lemma CallsDueAppend(jobs: seq<Job>, fates: seq<Fate>, fate: Fate)
    requires |fates| < |jobs|
    ensures CallsDue(jobs, fates + [fate]) == CallsDue(jobs, fates) + CallDue(jobs[|fates|], fate)
  {
  }

  /** Who holds a transfer. */
  datatype Place = OnFreeList | OnActiveList | WithScheduler | WithCompletion

  /** A pointer to a transfer is its index in the pool, which is one array. */
  const NULL := -1

  datatype Transfer = Transfer(next: int, statusActive: bool, totalBytes: nat,
                               maximumLength: nat, hasCallback: bool, userData: int)

  predicate Carries(t: Transfer, j: Job) {
    t.maximumLength == j.maximumLength && t.hasCallback == j.hasCallback && t.userData == j.userData
    && t.totalBytes <= t.maximumLength && (t.statusActive ==> t.totalBytes == t.maximumLength)
  }

  // ---- The books: what the lists mean ----

  /** The free list from its end to its head; for every job ever scheduled the transfer that carried it;
      the fates of the first jobs, the others being on the active list; and where each transfer is, with
      its position on the free list or the number of its job. */
  datatype Books = Books(free: seq<int>, carriers: seq<int>, jobs: seq<Job>, fates: seq<Fate>,
                         place: seq<Place>, rank: seq<int>)

  function FreeHead(b: Books): int {
    if b.free == [] then NULL else b.free[|b.free| - 1]
  }

  function ActiveHead(b: Books): int {
    if |b.fates| < |b.carriers| then b.carriers[|b.fates|] else NULL
  }

  function Below(s: seq<int>, i: nat): int
    requires i <= |s|
  {
    if i > 0 then s[i - 1] else NULL
  }

  function Behind(s: seq<int>, i: nat): int {
    if i + 1 < |s| then s[i + 1] else NULL
  }

  ghost predicate FreeOk(pool: seq<Transfer>, b: Books)
    requires |b.place| == |b.rank| == |pool|
  {
    && (forall i {:trigger b.free[i]} :: 0 <= i < |b.free| ==>
          0 <= b.free[i] < |pool| && b.place[b.free[i]] == OnFreeList && b.rank[b.free[i]] == i)
    && (forall i {:trigger pool[b.free[i]]} :: 0 <= i < |b.free| ==> pool[b.free[i]].next == Below(b.free, i))
  }

  ghost predicate ActiveOk(pool: seq<Transfer>, b: Books)
    requires |b.place| == |b.rank| == |pool| && |b.fates| <= |b.jobs| == |b.carriers|
  {
    && (forall j {:trigger b.carriers[j]} :: |b.fates| <= j < |b.jobs| ==>
          0 <= b.carriers[j] < |pool| && b.place[b.carriers[j]] == OnActiveList && b.rank[b.carriers[j]] == j)
    && (forall j {:trigger pool[b.carriers[j]]} :: |b.fates| <= j < |b.jobs| ==>
          pool[b.carriers[j]].next == Behind(b.carriers, j) && Carries(pool[b.carriers[j]], b.jobs[j]))
  }

  ghost predicate PlacesOk(b: Books, hand: int, isrHand: int)
    requires |b.place| == |b.rank| && |b.fates| <= |b.jobs| == |b.carriers|
  {
    forall t {:trigger b.place[t]} :: 0 <= t < |b.place| ==>
      && (b.place[t] == OnFreeList ==> 0 <= b.rank[t] < |b.free| && b.free[b.rank[t]] == t)
      && (b.place[t] == OnActiveList ==> |b.fates| <= b.rank[t] < |b.jobs| && b.carriers[b.rank[t]] == t)
      && (b.place[t] == WithScheduler ==> hand == t)
      && (b.place[t] == WithCompletion ==> isrHand == t)
  }

  ghost predicate BooksOk(pool: seq<Transfer>, b: Books, hand: int, isrHand: int) {
    && |b.place| == |b.rank| == |pool| && |b.fates| <= |b.jobs| == |b.carriers|
    && FreeOk(pool, b) && ActiveOk(pool, b) && PlacesOk(b, hand, isrHand)
    && (hand != NULL ==> 0 <= hand < |pool| && b.place[hand] == WithScheduler)
    && (isrHand != NULL ==> 0 <= isrHand < |pool| && b.place[isrHand] == WithCompletion)
  }

  /** The free list, the active list and the transfers in hand partition the pool. */
  lemma Partition(pool: seq<Transfer>, b: Books, hand: int, isrHand: int, t: int)
    requires BooksOk(pool, b, hand, isrHand) && 0 <= t < |pool|
    ensures t in b.free <==> b.place[t] == OnFreeList
    ensures t in b.carriers[|b.fates|..] <==> b.place[t] == OnActiveList
    ensures t == hand <==> b.place[t] == WithScheduler
    ensures t == isrHand <==> b.place[t] == WithCompletion
  {
  }

  /** No list runs into itself. */
  lemma Acyclic(pool: seq<Transfer>, b: Books, hand: int, isrHand: int)
    requires BooksOk(pool, b, hand, isrHand)
    ensures forall i, j :: 0 <= i < j < |b.free| ==> b.free[i] != b.free[j]
    ensures forall i, j :: |b.fates| <= i < j < |b.carriers| ==> b.carriers[i] != b.carriers[j]
  {
  }

  /** The whole pool on the free list, in order. */
  ghost function FirstBooks(n: nat): Books {
    Books(seq(n, i => n - 1 - i), [], [], [], seq(n, _ => OnFreeList), seq(n, i => n - 1 - i))
  }

  lemma FirstBooksOk(pool: seq<Transfer>)
    requires pool != []
    requires forall i :: 0 <= i < |pool| ==> pool[i].next == if i < |pool| - 1 then i + 1 else NULL
    ensures BooksOk(pool, FirstBooks(|pool|), NULL, NULL)
    ensures FreeHead(FirstBooks(|pool|)) == 0 && ActiveHead(FirstBooks(|pool|)) == NULL
  {
  }

  ghost predicate SameBut(pool: seq<Transfer>, pool': seq<Transfer>, t: int, u: int) {
    |pool'| == |pool| && forall i {:trigger pool'[i]} :: 0 <= i < |pool| && i != t && i != u ==> pool'[i] == pool[i]
  }

  /** But for t, no transfer's status or remaining bytes change. */
  ghost predicate StatusKept(pool: seq<Transfer>, pool': seq<Transfer>, t: int) {
    && |pool'| == |pool|
    && forall i {:trigger pool'[i]} :: 0 <= i < |pool| && i != t ==>
         pool'[i].statusActive == pool[i].statusActive && pool'[i].totalBytes == pool[i].totalBytes
  }

  lemma Heads(pool: seq<Transfer>, b: Books, hand: int, isrHand: int)
    requires BooksOk(pool, b, hand, isrHand)
    ensures if b.free == [] then FreeHead(b) == NULL else 0 <= FreeHead(b) < |pool|
    ensures if |b.fates| == |b.carriers| then ActiveHead(b) == NULL else 0 <= ActiveHead(b) < |pool|
  {
  }

  /** The head of the free list goes into hand. */
  ghost function Take(b: Books): Books
    requires b.free != [] && 0 <= FreeHead(b) < |b.place|
  {
    b.(free := b.free[..|b.free| - 1], place := b.place[FreeHead(b) := WithScheduler])
  }

  lemma TakeKeeps(pool: seq<Transfer>, b: Books, isrHand: int)
    requires BooksOk(pool, b, NULL, isrHand) && b.free != []
    ensures BooksOk(pool, Take(b), FreeHead(b), isrHand)
    ensures FreeHead(Take(b)) == pool[FreeHead(b)].next
  {
  }

  /** A filled transfer in hand goes to the end of the active list. */
  ghost function Append(b: Books, t: int, job: Job): Books
    requires 0 <= t < |b.place| == |b.rank|
  {
    b.(carriers := b.carriers + [t], jobs := b.jobs + [job],
       place := b.place[t := OnActiveList], rank := b.rank[t := |b.jobs|])
  }

  function ActiveTail(b: Books): int {
    if |b.fates| < |b.carriers| then b.carriers[|b.carriers| - 1] else NULL
  }

  lemma AppendKeeps(pool: seq<Transfer>, pool': seq<Transfer>, b: Books, t: int, isrHand: int, job: Job)
    requires BooksOk(pool, b, t, isrHand) && t != NULL
    requires SameBut(pool, pool', t, ActiveTail(b))
    requires ActiveTail(b) != NULL ==> pool'[ActiveTail(b)] == pool[ActiveTail(b)].(next := t)
    requires pool'[t].next == NULL && Carries(pool'[t], job)
    ensures BooksOk(pool', Append(b, t, job), NULL, isrHand)
    ensures ActiveHead(Append(b, t, job)) == if ActiveHead(b) == NULL then t else ActiveHead(b)
  {
  }

  /** The head of the active list is taken off and meets its fate. */
  ghost function Unlink(b: Books, fate: Fate): Books
    requires |b.fates| < |b.carriers| && 0 <= ActiveHead(b) < |b.place|
  {
    b.(place := b.place[ActiveHead(b) := WithCompletion], fates := b.fates + [fate])
  }

  lemma UnlinkKeeps(pool: seq<Transfer>, b: Books, hand: int, fate: Fate)
    requires BooksOk(pool, b, hand, NULL) && |b.fates| < |b.carriers|
    ensures BooksOk(pool, Unlink(b, fate), hand, ActiveHead(b))
    ensures ActiveHead(Unlink(b, fate)) == pool[ActiveHead(b)].next
    ensures hand != ActiveHead(b) && Carries(pool[ActiveHead(b)], b.jobs[|b.fates|])
  {
  }

  /** A transfer in the completion handler's hand goes to the front of the free list. */
  ghost function Release(b: Books, t: int): Books
    requires 0 <= t < |b.place| == |b.rank|
  {
    b.(free := b.free + [t], place := b.place[t := OnFreeList], rank := b.rank[t := |b.free|])
  }

  lemma ReleaseKeeps(pool: seq<Transfer>, pool': seq<Transfer>, b: Books, t: int, hand: int)
    requires BooksOk(pool, b, hand, t) && t != NULL
    requires SameBut(pool, pool', t, t) && pool'[t].next == FreeHead(b)
    ensures BooksOk(pool', Release(b, t), hand, NULL)
  {
  }

  /** Writing a transfer in hand changes nothing the books speak of. */
  lemma WriteKeeps(pool: seq<Transfer>, pool': seq<Transfer>, b: Books, hand: int, isrHand: int)
    requires BooksOk(pool, b, hand, isrHand) && hand != NULL
    requires SameBut(pool, pool', hand, hand)
    ensures BooksOk(pool', b, hand, isrHand)
  {
  }

  /** The device finishes a transfer on the active list: its status and its remaining bytes. */
  lemma DeviceKeeps(pool: seq<Transfer>, b: Books, hand: int, isrHand: int, j: nat, bytes: nat)
    requires BooksOk(pool, b, hand, isrHand) && |b.fates| <= j < |b.carriers|
    requires bytes <= b.jobs[j].maximumLength
    ensures var t := b.carriers[j];
            && 0 <= t < |pool| && t != hand && t != isrHand
            && BooksOk(pool[t := pool[t].(statusActive := false, totalBytes := bytes)], b, hand, isrHand)
  {
  }

  // ---- The queue ----

  /** Where the thread stands in usb_transfer_schedule. */
  datatype ThreadPc = ThreadIdle | Checked | Loaded | NextRead | Taken | Cleared | Filled

  /** Where the interrupt stands in usb_queue_transfer_complete. */
  datatype IsrPc = IsrIdle | LoopHead | CalledBack

  class Queue {
    var pool: seq<Transfer>
    var freeTransfers: int
    var active: int
    /** The one context that allocates from this queue: the interrupt, or else the thread. */
    const isrAllocates: bool

    var threadPc: ThreadPc
    var transfer: int
    var nextSeen: int
    var job: Job
    /** The local exclusive monitor: set by load-exclusive, cleared by every exception. */
    var monitor: bool

    var isrPc: IsrPc
    var isrTransfer: int
    var isrNext: int

    ghost var books: Books
    ghost var calls: seq<Call>
    /** The jobs scheduled before the interrupt's last callback, or before the interrupt. */
    ghost var mark: nat
    /** The actions so far. */
    ghost var history: seq<Action>

    ghost function Hand(): int
      reads `pool, `freeTransfers, `active, `threadPc, `transfer, `nextSeen, `job, `monitor,
            `isrPc, `isrTransfer, `isrNext, `books, `calls, `mark
    {
      if threadPc in {Taken, Cleared, Filled} then transfer else NULL
    }

    ghost function IsrHand(): int
      reads `pool, `freeTransfers, `active, `threadPc, `transfer, `nextSeen, `job, `monitor,
            `isrPc, `isrTransfer, `isrNext, `books, `calls, `mark
    {
      if isrPc == CalledBack then isrTransfer else NULL
    }

    ghost predicate Valid()
      reads `pool, `freeTransfers, `active, `threadPc, `transfer, `nextSeen, `job, `monitor,
            `isrPc, `isrTransfer, `isrNext, `books, `calls, `mark
    {
      && BooksOk(pool, books, Hand(), IsrHand())
      && freeTransfers == FreeHead(books) && active == ActiveHead(books)
      && calls == CallsDue(books.jobs, books.fates)
      && ThreadValid() && IsrValid()
    }

    ghost predicate ThreadValid()
      reads `pool, `freeTransfers, `active, `threadPc, `transfer, `nextSeen, `job, `monitor,
            `isrPc, `isrTransfer, `isrNext, `books, `calls, `mark
    {
      && (threadPc != ThreadIdle ==> !isrAllocates)
      && (threadPc in {Checked, Loaded, NextRead} ==> books.free != [])
      && (threadPc in {Loaded, NextRead} ==> 0 <= transfer < |pool| && (monitor ==> transfer == freeTransfers))
      && (threadPc == NextRead && monitor ==> nextSeen == pool[transfer].next)
      && (threadPc in {Taken, Cleared, Filled} ==> 0 <= transfer < |pool|)
      && (threadPc == Filled ==> Carries(pool[transfer], job))
    }

    ghost predicate IsrValid()
      reads `pool, `freeTransfers, `active, `threadPc, `transfer, `nextSeen, `job, `monitor,
            `isrPc, `isrTransfer, `isrNext, `books, `calls, `mark
    {
      && (isrPc == LoopHead ==> isrTransfer == NULL || isrTransfer == active)
      && (isrPc == CalledBack ==> 0 <= isrTransfer < |pool| && (isrNext == NULL || isrNext == active))
      && (isrPc != IsrIdle ==> !monitor)
      && (isrPc == LoopHead && isrTransfer == NULL ==> mark <= |books.fates|)
      && (isrPc == CalledBack && isrNext == NULL ==> mark <= |books.fates|)
    }

    /** Nothing is left to the interrupt: the active list is empty, or the device is still at its head, or it
        holds only jobs scheduled by the last callback. */
    ghost predicate Drained()
      reads `pool, `freeTransfers, `active, `threadPc, `transfer, `nextSeen, `job, `monitor,
            `isrPc, `isrTransfer, `isrNext, `books, `calls, `mark
    {
      active == NULL || (0 <= active < |pool| && pool[active].statusActive) || mark <= |books.fates|
    }

    /** usb_queue_init over an array of transfers with arbitrary contents. */
    constructor (pool0: seq<Transfer>, isrAllocates: bool)
      requires pool0 != []
      ensures Valid() && |pool| == |pool0| && this.isrAllocates == isrAllocates
      ensures |books.free| == |pool| && books.jobs == [] && books.fates == [] && calls == []
      ensures threadPc == ThreadIdle && isrPc == IsrIdle
    {
      this.isrAllocates := isrAllocates;
      freeTransfers, active := 0, NULL;
      threadPc, transfer, nextSeen, monitor, job := ThreadIdle, NULL, NULL, false, Job(0, false, 0);
      isrPc, isrTransfer, isrNext := IsrIdle, NULL, NULL;
      books := FirstBooks(|pool0|);
      calls, mark, history := [], 0, [];
      pool := pool0;
      new;
      var t := 0;
      while t < |pool| - 1
        modifies `pool
        invariant 0 <= t <= |pool| - 1 && |pool| == |pool0|
        invariant forall i :: 0 <= i < t ==> pool[i].next == i + 1
      {
        pool := pool[t := pool[t].(next := t + 1)];
        t := t + 1;
      }
      pool := pool[t := pool[t].(next := NULL)];
      FirstBooksOk(pool);
    }

    // ---- The thread: usb_transfer_schedule, one shared access at a time, interrupts on ----

    /** The test for an empty free list; false stands for the result -1. */
    method ThreadBegin(job: Job) returns (started: bool)
      requires Valid() && threadPc == ThreadIdle && isrPc == IsrIdle && !isrAllocates
      modifies `threadPc, `job
      ensures Valid() && started == (books.free != [])
      ensures if started then threadPc == Checked && this.job == job
              else threadPc == ThreadIdle && this.job == old(this.job)
    {
      hide FreeOk, ActiveOk, PlacesOk;
      Heads(pool, books, Hand(), NULL);
      started := freeTransfers != NULL;
      if started {
        threadPc := Checked;
        this.job := job;
      }
    }

    method ThreadLoadExclusive()
      requires Valid() && threadPc == Checked && isrPc == IsrIdle
      modifies `threadPc, `transfer, `monitor
      ensures Valid() && threadPc == Loaded && monitor && transfer == freeTransfers
    {
      hide FreeOk, ActiveOk, PlacesOk;
      Heads(pool, books, Hand(), NULL);
      transfer := freeTransfers;
      monitor := true;
      threadPc := Loaded;
    }

    method ThreadReadNext()
      requires Valid() && threadPc == Loaded && isrPc == IsrIdle
      modifies `threadPc, `nextSeen
      ensures Valid() && threadPc == NextRead
    {
      hide FreeOk, ActiveOk, PlacesOk;
      nextSeen := pool[transfer].next;
      threadPc := NextRead;
    }

    /** Store-exclusive: fails if an exception came in between, and may fail for no reason. */
    method ThreadStoreExclusive(spuriousFailure: bool)
      requires Valid() && threadPc == NextRead && isrPc == IsrIdle
      modifies `threadPc, `monitor, `freeTransfers, `books
      ensures Valid() && !monitor && threadPc == if old(monitor) && !spuriousFailure then Taken else Checked
      ensures threadPc == Taken ==>
                && transfer == FreeHead(old(books)) && old(books).free != [] && 0 <= transfer < |old(books).place|
                && books == Take(old(books))
      ensures threadPc == Checked ==> books == old(books)
    {
      hide FreeOk, ActiveOk, PlacesOk;
      if monitor && !spuriousFailure {
        TakeKeeps(pool, books, IsrHand());
        freeTransfers := nextSeen;
        books := Take(books);
        threadPc := Taken;
      } else {
        threadPc := Checked;
      }
      monitor := false;
    }

    method ThreadClearNext()
      requires Valid() && threadPc == Taken && isrPc == IsrIdle
      modifies `threadPc, `pool
      ensures Valid() && threadPc == Cleared && |pool| == |old(pool)| && 0 <= transfer < |pool|
              && pool[transfer].next == NULL
    {
      hide FreeOk, ActiveOk, PlacesOk;
      ghost var before := pool;
      pool := pool[transfer := pool[transfer].(next := NULL)];
      WriteKeeps(before, pool, books, transfer, IsrHand());
      threadPc := Cleared;
    }

    method ThreadFill()
      requires Valid() && threadPc == Cleared && isrPc == IsrIdle
      modifies `threadPc, `pool
      ensures Valid() && threadPc == Filled && |pool| == |old(pool)| && 0 <= transfer < |pool|
              && pool[transfer].statusActive
    {
      hide FreeOk, ActiveOk, PlacesOk;
      ghost var before := pool;
      pool := pool[transfer := FilledIn(pool[transfer], job)];
      WriteKeeps(before, pool, books, transfer, IsrHand());
      threadPc := Filled;
    }

    /** With interrupts off: the transfer goes to the tail, and the job is scheduled. */
    method ThreadEnqueue() returns (tail: int)
      requires Valid() && threadPc == Filled && isrPc == IsrIdle
      modifies `threadPc, `pool, `active, `books
      ensures Valid() && threadPc == ThreadIdle && StatusKept(old(pool), pool, NULL)
      ensures 0 <= transfer < |old(books).place| == |old(books).rank|
      ensures books == Append(old(books), transfer, job) && tail == ActiveTail(old(books))
    {
      hide FreeOk, ActiveOk, PlacesOk;
      tail := EndpointQueueTransfer(transfer, job);
      threadPc := ThreadIdle;
      CallsDueIgnoresLaterJobs(old(books).jobs, job, books.fates);
    }

    /** endpoint_queue_transfer: walks to the tail of the active list. */
    method EndpointQueueTransfer(t: int, ghost j: Job) returns (tail: int)
      requires BooksOk(pool, books, t, IsrHand()) && t != NULL && Carries(pool[t], j)
      requires active == ActiveHead(books)
      modifies `pool, `active, `books
      ensures books == Append(old(books), t, j) && BooksOk(pool, books, NULL, IsrHand())
      ensures tail == ActiveTail(old(books)) && active == ActiveHead(books)
      ensures active == if old(active) == NULL then t else old(active)
      ensures StatusKept(old(pool), pool, NULL)
    {
      ghost var before := pool;
      pool := pool[t := pool[t].(next := NULL)];
      if active != NULL {
        tail := active;
        ghost var k := |books.fates|;
        while pool[tail].next != NULL
          invariant |books.fates| <= k < |books.carriers| && tail == books.carriers[k]
          invariant 0 <= tail < |pool| && tail != t && pool[tail] == before[tail]
          decreases |books.carriers| - k
        {
          tail := pool[tail].next;
          k := k + 1;
        }
        pool := pool[tail := pool[tail].(next := t)];
      } else {
        active := t;
        tail := NULL;
      }
      AppendKeeps(before, pool, books, t, IsrHand(), j);
      books := Append(books, t, j);
    }

    /** usb_queue_flush_queue, with interrupts off: from the thread between schedules, or from an
        interrupt at any point of the thread. Every pending job is flushed. */
    method Flush()
      requires Valid() && isrPc == IsrIdle
      modifies `pool, `freeTransfers, `active, `books, `monitor
      ensures Valid() && active == NULL && |pool| == |old(pool)| && books.jobs == old(books).jobs
              && |books.fates| == |books.jobs|
      ensures old(books).fates <= books.fates
      ensures forall i :: |old(books).fates| <= i < |books.fates| ==> books.fates[i] == Flushed
      ensures calls == old(calls)
    {
      hide FreeOk, ActiveOk, PlacesOk, CallsDue, Carries, Behind, Below;
      monitor := false;
      Heads(pool, books, Hand(), NULL);
      while active != NULL
        invariant Valid() && !monitor && (active == NULL <==> |books.fates| == |books.jobs|)
        invariant |pool| == |old(pool)| && calls == old(calls)
        invariant books.jobs == old(books).jobs && old(books).fates <= books.fates
        invariant forall i :: |old(books).fates| <= i < |books.fates| ==> books.fates[i] == Flushed
        decreases |books.jobs| - |books.fates|
      {
        FlushHead();
      }
    }

    /** The head is taken off and freed. */
    method FlushHead()
      requires Valid() && isrPc == IsrIdle && !monitor && active != NULL
      modifies `pool, `freeTransfers, `active, `books
      ensures Valid() && books.jobs == old(books).jobs && books.fates == old(books).fates + [Flushed]
              && calls == old(calls)
      ensures |pool| == |old(pool)| && (active == NULL <==> |books.fates| == |books.jobs|)
    {
      hide FreeOk, ActiveOk, PlacesOk, CallsDue, Carries, Behind, Below;
      Heads(pool, books, Hand(), NULL);
      var t := active;
      UnlinkKeeps(pool, books, Hand(), Flushed);
      CallsDueAppend(books.jobs, books.fates, Flushed);
      books := Unlink(books, Flushed);
      active := pool[t].next;
      FreeTransfer(t);
      Heads(pool, books, Hand(), NULL);
    }

    /** free_transfer: no other context can take part, so the store-exclusive loop ends. */
    method FreeTransfer(t: int)
      requires BooksOk(pool, books, Hand(), t) && t != NULL && freeTransfers == FreeHead(books)
      modifies `pool, `freeTransfers, `books
      ensures books == Release(old(books), t) && BooksOk(pool, books, Hand(), NULL) && freeTransfers == FreeHead(books)
      ensures ActiveHead(books) == ActiveHead(old(books)) && StatusKept(old(pool), pool, NULL)
      ensures forall i :: 0 <= i < |pool| && i != t ==> pool[i] == old(pool)[i]
    {
      ghost var before := pool;
      pool := pool[t := pool[t].(next := freeTransfers)];
      freeTransfers := t;
      ReleaseKeeps(before, pool, books, t, Hand());
      books := Release(books, t);
    }

    // ---- The interrupt: usb_queue_transfer_complete ----

    method IsrEnter()
      requires Valid() && isrPc == IsrIdle
      modifies `isrPc, `isrTransfer, `monitor, `mark
      ensures Valid() && isrPc == LoopHead && isrTransfer == active && mark == |books.jobs|
    {
      hide FreeOk, ActiveOk, PlacesOk;
      Heads(pool, books, Hand(), NULL);
      mark := |books.jobs|;
      monitor := false;
      isrTransfer := active;
      isrPc := LoopHead;
    }

    /** One round of the loop up to and with the callback; the head is advanced first. At the end the list is
        drained. */
    method IsrRound()
      requires Valid() && isrPc == LoopHead
      modifies `isrPc, `isrNext, `active, `books, `calls, `mark
      ensures isrTransfer == NULL || 0 <= isrTransfer < |pool|
      ensures Valid() && (isrPc == IsrIdle ==> Drained())
      ensures mark == if isrPc == IsrIdle then old(mark) else |books.jobs|
      ensures isrTransfer == NULL || pool[isrTransfer].statusActive ==>
                isrPc == IsrIdle && books == old(books) && calls == old(calls)
      ensures isrTransfer != NULL && !pool[isrTransfer].statusActive ==>
                isrPc == CalledBack && CalledFor(old(books), old(calls)) && isrNext == ActiveHead(books)
    {
      hide FreeOk, ActiveOk, PlacesOk, CallsDue, CalledFor;
      Heads(pool, books, Hand(), NULL);
      if isrTransfer == NULL || pool[isrTransfer].statusActive {
        isrPc := IsrIdle;
      } else {
        Complete();
      }
    }

    /** The transfer was the head and is taken off, and the callback of its job is made. */
    ghost predicate CalledFor(b: Books, made: seq<Call>)
      reads `pool, `freeTransfers, `active, `threadPc, `transfer, `nextSeen, `job, `monitor,
            `isrPc, `isrTransfer, `isrNext, `books, `calls, `mark
    {
      && 0 <= isrTransfer < |pool| && isrTransfer == ActiveHead(b) && |b.fates| < |b.jobs| == |b.carriers|
         && isrTransfer < |b.place|
      && books == Unlink(b, Completed(pool[isrTransfer].totalBytes))
      && calls == made + CallDue(b.jobs[|b.fates|], Completed(pool[isrTransfer].totalBytes))
    }

    method Complete()
      requires Valid() && isrPc == LoopHead && isrTransfer != NULL
      modifies `isrPc, `isrNext, `active, `books, `calls, `mark
      ensures Valid() && isrPc == CalledBack && mark == |books.jobs| && CalledFor(old(books), old(calls))
      ensures isrNext == ActiveHead(books)
    {
      hide FreeOk, ActiveOk, PlacesOk, CallsDue, Below, Behind, SameBut;
      Heads(pool, books, Hand(), NULL);
      ghost var fate := Completed(pool[isrTransfer].totalBytes);
      UnlinkKeeps(pool, books, Hand(), fate);
      CallsDueAppend(books.jobs, books.fates, fate);
      books := Unlink(books, fate);
      Heads(pool, books, Hand(), isrTransfer);
      mark := |books.jobs|;
      active := pool[isrTransfer].next;
      isrNext := pool[isrTransfer].next;
      var totalBytes := pool[isrTransfer].totalBytes;
      var transferred := pool[isrTransfer].maximumLength - totalBytes;
      if pool[isrTransfer].hasCallback {
        calls := calls + [Call(pool[isrTransfer].userData, transferred)];
      }
      isrPc := CalledBack;
    }

    /** After the callback: the transfer is freed and the loop goes on with the next one. */
    method IsrRelease()
      requires Valid() && isrPc == CalledBack
      modifies `isrPc, `isrTransfer, `pool, `freeTransfers, `books
      ensures Valid() && isrPc == LoopHead && books == Release(old(books), old(isrTransfer))
      ensures isrTransfer == isrNext && StatusKept(old(pool), pool, NULL)
    {
      hide FreeOk, ActiveOk, PlacesOk;
      FreeTransfer(isrTransfer);
      isrTransfer := isrNext;
      isrPc := LoopHead;
    }

    /** usb_transfer_schedule in the interrupt, from a completion callback or from another handler. */
    method IsrSchedule(job: Job) returns (scheduled: bool)
      requires Valid() && isrAllocates && isrPc != LoopHead
      modifies `pool, `freeTransfers, `active, `books, `monitor
      ensures Valid() && !monitor && scheduled == (old(books).free != [])
              && StatusKept(old(pool), pool, FreeHead(old(books)))
      ensures scheduled ==> 0 <= FreeHead(old(books)) < |old(books).place| == |old(books).rank|
      ensures scheduled ==> books == Append(Take(old(books)), FreeHead(old(books)), job)
      ensures !scheduled ==> books == old(books)
    {
      hide FreeOk, ActiveOk, PlacesOk, CallsDue, Below, Behind, SameBut, CallDue;
      Heads(pool, books, NULL, IsrHand());
      monitor := false;
      scheduled := freeTransfers != NULL;
      if scheduled {
        var t := IsrAllocate(job);
        var _ := EndpointQueueTransfer(t, job);
        CallsDueIgnoresLaterJobs(old(books).jobs, job, books.fates);
      }
    }

    /** The head of the free list, taken off and filled in. */
    method IsrAllocate(job: Job) returns (t: int)
      requires BooksOk(pool, books, NULL, IsrHand()) && books.free != [] && freeTransfers == FreeHead(books)
      modifies `pool, `freeTransfers, `books
      ensures BooksOk(pool, books, t, IsrHand()) && t != NULL && Carries(pool[t], job)
              && freeTransfers == FreeHead(books)
      ensures t == FreeHead(old(books)) && 0 <= t < |old(books).place| == |old(books).rank| && books == Take(old(books))
      ensures StatusKept(old(pool), pool, t)
    {
      hide FreeOk, ActiveOk, PlacesOk;
      Heads(pool, books, NULL, IsrHand());
      t := freeTransfers;
      TakeKeeps(pool, books, IsrHand());
      freeTransfers := pool[t].next;
      books := Take(books);
      ghost var before := pool;
      pool := pool[t := FilledIn(pool[t].(next := NULL), job)];
      WriteKeeps(before, pool, books, t, IsrHand());
    }

    // ---- The device ----

    /** The device finishes the transfer of a pending job, leaving some bytes untransferred. */
    method DeviceComplete(ghost j: nat, t: int, bytes: nat)
      requires Valid() && |books.fates| <= j < |books.jobs| && t == books.carriers[j] && 0 <= t < |pool|
      requires pool[t].statusActive && bytes <= books.jobs[j].maximumLength
      modifies `pool
      ensures Valid() && StatusKept(old(pool), pool, t) && !pool[t].statusActive && pool[t].totalBytes == bytes
    {
      hide FreeOk, ActiveOk, PlacesOk;
      DeviceKeeps(pool, books, Hand(), IsrHand(), j, bytes);
      pool := pool[t := pool[t].(statusActive := false, totalBytes := bytes)];
    }

    /** Walks the active list. */
    method OnActive(t: int) returns (found: bool)
      requires Valid() && 0 <= t < |pool|
      ensures |books.rank| == |pool| && |books.jobs| == |books.carriers|
      ensures found ==> |books.fates| <= books.rank[t] < |books.jobs| && books.carriers[books.rank[t]] == t
      ensures found ==> pool[t].maximumLength == books.jobs[books.rank[t]].maximumLength
      ensures found <==> Pending(t)
    {
      Partition(pool, books, Hand(), IsrHand(), t);
      found := false;
      var u := active;
      ghost var k := |books.fates|;
      while u != NULL && !found
        invariant |books.fates| <= k <= |books.carriers| && (k < |books.carriers| ==> u == books.carriers[k])
        invariant k == |books.carriers| ==> u == NULL
        invariant found ==> k < |books.carriers| && books.carriers[k] == t
        invariant forall j :: |books.fates| <= j < k ==> books.carriers[j] != t
        decreases |books.carriers| - k, !found
      {
        if u == t {
          found := true;
        } else {
          u := pool[u].next;
          k := k + 1;
        }
      }
    }

    // ---- Every interleaving ----

    /** Whether the context of an action can take it now. */
    ghost predicate Enabled(a: Action)
      reads `pool, `freeTransfers, `active, `threadPc, `transfer, `nextSeen, `job, `monitor,
            `isrPc, `isrTransfer, `isrNext, `books, `calls, `mark
    {
      match a
      case Begin(_) => isrPc == IsrIdle && threadPc == ThreadIdle && !isrAllocates
      case LoadExclusive => isrPc == IsrIdle && threadPc == Checked
      case ReadNext => isrPc == IsrIdle && threadPc == Loaded
      case StoreExclusive(_) => isrPc == IsrIdle && threadPc == NextRead
      case ClearNext => isrPc == IsrIdle && threadPc == Taken
      case FillIn => isrPc == IsrIdle && threadPc == Cleared
      case Enqueue => isrPc == IsrIdle && threadPc == Filled
      case FlushQueue => isrPc == IsrIdle
      case Interrupt => isrPc == IsrIdle
      case Round => isrPc == LoopHead
      case FreeDone => isrPc == CalledBack
      case Reschedule(_) => isrAllocates && isrPc != LoopHead
      case Finish(t, bytes) => Pending(t) && 0 <= t < |pool| && pool[t].statusActive && bytes <= pool[t].maximumLength
    }

    ghost predicate Pending(t: int)
      reads `books
    {
      |books.fates| <= |books.carriers| && t in books.carriers[|books.fates|..]
    }

    twostate predicate Stands()
      reads `pool, `freeTransfers, `active, `threadPc, `transfer, `nextSeen, `job, `monitor,
            `isrPc, `isrTransfer, `isrNext, `books, `calls, `mark
    {
      && ThreadStands() && IsrStands()
      && (pool, freeTransfers, active, monitor, books) == old((pool, freeTransfers, active, monitor, books))
    }

    twostate predicate ThreadStands()
      reads `pool, `freeTransfers, `active, `threadPc, `transfer, `nextSeen, `job, `monitor,
            `isrPc, `isrTransfer, `isrNext, `books, `calls, `mark
    {
      (threadPc, transfer, nextSeen, job) == old((threadPc, transfer, nextSeen, job))
    }

    twostate predicate IsrStands()
      reads `pool, `freeTransfers, `active, `threadPc, `transfer, `nextSeen, `job, `monitor,
            `isrPc, `isrTransfer, `isrNext, `books, `calls, `mark
    {
      (isrPc, isrTransfer, isrNext, calls, mark) == old((isrPc, isrTransfer, isrNext, calls, mark))
    }

    /** What a step of the thread does. */
    twostate predicate ThreadDid(a: Action)
      reads `pool, `freeTransfers, `active, `threadPc, `transfer, `nextSeen, `job, `monitor,
            `isrPc, `isrTransfer, `isrNext, `books, `calls, `mark
    {
      && IsrStands()
      && match a
         case Begin(j) =>
           && books == old(books) && pool == old(pool)
           && if old(books).free != [] then threadPc == Checked && job == j else ThreadStands()
         case LoadExclusive =>
           && books == old(books) && pool == old(pool)
           && threadPc == Loaded && transfer == freeTransfers && monitor && job == old(job)
         case ReadNext =>
           && books == old(books) && pool == old(pool)
           && threadPc == NextRead && (transfer, monitor, job) == old((transfer, monitor, job))
         case StoreExclusive(fails) =>
           && pool == old(pool) && (transfer, job) == old((transfer, job)) && !monitor
           && if old(monitor) && !fails then
                && threadPc == Taken && transfer == FreeHead(old(books))
                && old(books).free != [] && 0 <= transfer < |old(books).place| && books == Take(old(books))
              else threadPc == Checked && books == old(books)
         case ClearNext =>
           && books == old(books) && threadPc == Cleared && (transfer, job) == old((transfer, job))
           && 0 <= transfer < |pool| && pool[transfer].next == NULL
         case FillIn =>
           && books == old(books) && threadPc == Filled && (transfer, job) == old((transfer, job))
           && 0 <= transfer < |pool| && pool[transfer].statusActive
         case Enqueue =>
           && threadPc == ThreadIdle && transfer == old(transfer) && StatusKept(old(pool), pool, NULL)
           && 0 <= transfer < |old(books).place| == |old(books).rank|
           && books == Append(old(books), transfer, old(job))
         case FlushQueue =>
           && ThreadStands() && active == NULL && books.jobs == old(books).jobs && |books.fates| == |books.jobs|
           && old(books).fates <= books.fates
           && forall i :: |old(books).fates| <= i < |books.fates| ==> books.fates[i] == Flushed
         case _ => true
    }

    /** What a step of the interrupt does. */
    twostate predicate IsrDid(a: Action)
      reads `pool, `freeTransfers, `active, `threadPc, `transfer, `nextSeen, `job, `monitor,
            `isrPc, `isrTransfer, `isrNext, `books, `calls, `mark
    {
      && ThreadStands()
      && match a
         case Interrupt =>
           && books == old(books) && pool == old(pool) && calls == old(calls)
           && isrPc == LoopHead && isrTransfer == active && mark == |books.jobs|
         case Round =>
           && pool == old(pool) && isrTransfer == old(isrTransfer)
           && if isrTransfer == NULL || (0 <= isrTransfer < |pool| && pool[isrTransfer].statusActive) then
                isrPc == IsrIdle && books == old(books) && calls == old(calls) && mark == old(mark) && Drained()
              else
                isrPc == CalledBack && CalledFor(old(books), old(calls)) && isrNext == ActiveHead(books)
                  && mark == |books.jobs|
         case FreeDone =>
           && isrPc == LoopHead && isrTransfer == old(isrNext) && calls == old(calls) && mark == old(mark)
           && StatusKept(old(pool), pool, NULL)
           && 0 <= old(isrTransfer) < |old(books).place| == |old(books).rank|
           && books == Release(old(books), old(isrTransfer))
         case Reschedule(j) =>
           && IsrStands() && !monitor && StatusKept(old(pool), pool, FreeHead(old(books)))
           && if old(books).free != [] then
                && 0 <= FreeHead(old(books)) < |old(books).place| == |old(books).rank|
                && books == Append(Take(old(books)), FreeHead(old(books)), j)
              else books == old(books)
         case _ => true
    }

    /** A step that its context cannot take changes nothing. */
    twostate predicate Did(a: Action)
      reads `pool, `freeTransfers, `active, `threadPc, `transfer, `nextSeen, `job, `monitor,
            `isrPc, `isrTransfer, `isrNext, `books, `calls, `mark
    {
      if !old(Enabled(a)) then Stands()
      else match a
        case Interrupt => IsrDid(a)
        case Round => IsrDid(a)
        case FreeDone => IsrDid(a)
        case Reschedule(_) => IsrDid(a)
        case Finish(t, bytes) =>
          && ThreadStands() && IsrStands() && books == old(books) && StatusKept(old(pool), pool, t)
          && 0 <= t < |pool| && !pool[t].statusActive && pool[t].totalBytes == bytes
        case _ => ThreadDid(a)
    }

    /** The device finishes a transfer, if it is pending and not finished. */
    method DeviceStep(t: int, bytes: nat)
      requires Valid()
      modifies `pool
      ensures Valid() && |pool| == |old(pool)| && Did(Finish(t, bytes))
    {
      hide BooksOk, ThreadValid, IsrValid, CallsDue;
      if 0 <= t < |pool| && bytes <= pool[t].maximumLength && pool[t].statusActive {
        var queued := OnActive(t);
        if queued { DeviceComplete(books.rank[t], t, bytes); }
      }
    }

    method ThreadStep(a: Action)
      requires Valid() && isrPc == IsrIdle && !(a.Interrupt? || a.Round? || a.FreeDone? || a.Reschedule? || a.Finish?)
      modifies `threadPc, `transfer, `nextSeen, `job, `monitor, `pool, `freeTransfers, `active, `books
      ensures Valid() && |pool| == |old(pool)| && old(books).jobs <= books.jobs && old(books).fates <= books.fates
      ensures if old(Enabled(a)) then ThreadDid(a) else Stands()
    {
      hide FreeOk, ActiveOk, PlacesOk, ThreadValid, IsrValid, CallsDue;
      match a
      case Begin(job) => if threadPc == ThreadIdle && !isrAllocates { var _ := ThreadBegin(job); }
      case LoadExclusive => if threadPc == Checked { ThreadLoadExclusive(); }
      case ReadNext => if threadPc == Loaded { ThreadReadNext(); }
      case StoreExclusive(fails) => if threadPc == NextRead { ThreadStoreExclusive(fails); }
      case ClearNext => if threadPc == Taken { ThreadClearNext(); }
      case FillIn => if threadPc == Cleared { ThreadFill(); }
      case Enqueue => if threadPc == Filled { var _ := ThreadEnqueue(); }
      case FlushQueue => Flush();
    }

    method IsrStep(a: Action)
      requires Valid() && (a.Interrupt? || a.Round? || a.FreeDone? || a.Reschedule?)
      modifies `isrPc, `isrTransfer, `isrNext, `monitor, `pool, `freeTransfers, `active, `books, `calls, `mark
      ensures Valid() && |pool| == |old(pool)| && old(calls) <= calls
      ensures old(books).jobs <= books.jobs && old(books).fates <= books.fates
      ensures if old(Enabled(a)) then IsrDid(a) else Stands()
    {
      hide FreeOk, ActiveOk, PlacesOk, ThreadValid, CallsDue, Drained;
      match a
      case Interrupt => if isrPc == IsrIdle { IsrEnter(); }
      case Round => if isrPc == LoopHead { IsrRound(); }
      case FreeDone => if isrPc == CalledBack { IsrRelease(); }
      case Reschedule(job) => if isrAllocates && isrPc != LoopHead { var _ := IsrSchedule(job); }
    }

    /** One step of one context, if that context can take it now. When the interrupt ends, nothing is left to it. */
    method Step(a: Action)
      requires Valid()
      modifies this
      ensures Valid() && |pool| == |old(pool)| && Did(a)
      ensures old(books).jobs <= books.jobs && old(books).fates <= books.fates && old(calls) <= calls
      ensures old(isrPc) != IsrIdle && isrPc == IsrIdle ==> Drained()
      ensures history == old(history) + [a]
    {
      hide Valid, Did, Drained;
      Act(a);
      history := history + [a];
    }

    method Act(a: Action)
      requires Valid()
      modifies `pool, `freeTransfers, `active, `threadPc, `transfer, `nextSeen, `job, `monitor,
               `isrPc, `isrTransfer, `isrNext, `books, `calls, `mark
      ensures Valid() && |pool| == |old(pool)| && Did(a)
      ensures old(books).jobs <= books.jobs && old(books).fates <= books.fates && old(calls) <= calls
      ensures old(isrPc) != IsrIdle && isrPc == IsrIdle ==> Drained()
    {
      hide Valid, Drained, ThreadDid;
      match a {
        case Finish(t, bytes) => DeviceStep(t, bytes);
        case Interrupt => IsrStep(a);
        case Round => IsrStep(a);
        case FreeDone => IsrStep(a);
        case Reschedule(_) => IsrStep(a);
        case _ => if isrPc == IsrIdle { ThreadStep(a); }
      }
    }

    /** What goes on in an interrupt besides its own steps takes no done transfer from the active list. */
    method Meanwhile(actions: seq<Action>, ghost n: nat, ghost remaining: seq<nat>)
      requires Valid() && isrPc != IsrIdle
      requires n <= |books.jobs| && (n <= |books.fates| || Done(pool, books.carriers, |books.fates|, n, remaining))
      requires forall i :: 0 <= i < |actions| ==> !actions[i].Round? && !actions[i].FreeDone?
      modifies this
      ensures history == old(history) + actions
      ensures Valid() && IsrStands() && old(books).jobs <= books.jobs && books.fates == old(books).fates
      ensures n <= |books.fates| || Done(pool, books.carriers, |books.fates|, n, remaining)
    {
      hide FreeOk, ActiveOk, PlacesOk, CallsDue;
      for i := 0 to |actions|
        invariant history == old(history) + actions[..i]
        invariant Valid() && IsrStands() && old(books).jobs <= books.jobs && books.fates == old(books).fates
        invariant n <= |books.fates| || Done(pool, books.carriers, |books.fates|, n, remaining)
      {
        FreeIsNotPending(pool, books, Hand(), IsrHand());
        Step(actions[i]);
      }
    }

    /** If the first k pending transfers are done, an interrupt completes them in its first k rounds, whatever
        callbacks schedule and the device finishes in between: their fates follow, and so do their calls. */
    method CompleteAll(k: nat, between: seq<seq<Action>>, ghost remaining: seq<nat>)
      requires Valid() && isrPc == IsrIdle && |books.fates| + k <= |books.jobs| && |between| == 2 * k
      requires Done(pool, books.carriers, |books.fates|, |books.fates| + k, remaining)
      requires forall b, i :: 0 <= b < |between| && 0 <= i < |between[b]| ==>
               !between[b][i].Round? && !between[b][i].FreeDone?
      modifies this
      ensures Valid() && isrPc == LoopHead && old(books).jobs <= books.jobs
              && calls == CallsDue(books.jobs, books.fates)
      ensures |books.fates| == |old(books).fates| + k && old(books).fates <= books.fates
      ensures forall j :: |old(books).fates| <= j < |books.fates| ==> books.fates[j] == Completed(remaining[j])
    {
      hide FreeOk, ActiveOk, PlacesOk, CallsDue;
      ghost var f, n := |books.fates|, |books.fates| + k;
      Heads(pool, books, Hand(), IsrHand());
      Step(Interrupt);
      assert n <= |remaining|;
      hide BooksOk, ThreadValid, IsrValid, Valid, Did, Done;
      for i := 0 to k
        invariant Valid() && isrPc == LoopHead && old(books).jobs <= books.jobs && n <= |books.jobs|
        invariant |books.fates| == f + i && old(books).fates <= books.fates
        invariant i < k ==> isrTransfer != NULL && Done(pool, books.carriers, f + i, n, remaining)
        invariant forall j :: f <= j < f + i ==> books.fates[j] == Completed(remaining[j])
      {
        CompleteNext(between[2 * i], between[2 * i + 1], n, remaining);
      }
    }

    /** One of them: the head is taken off and called back, later freed, and the next is looked at. */
    method CompleteNext(called: seq<Action>, freed: seq<Action>, ghost n: nat, ghost remaining: seq<nat>)
      requires Valid() && isrPc == LoopHead && isrTransfer != NULL && |books.fates| < n <= |books.jobs|
      requires Done(pool, books.carriers, |books.fates|, n, remaining)
      requires forall i :: 0 <= i < |called| ==> !called[i].Round? && !called[i].FreeDone?
      requires forall i :: 0 <= i < |freed| ==> !freed[i].Round? && !freed[i].FreeDone?
      modifies this
      ensures Valid() && isrPc == LoopHead && old(books).jobs <= books.jobs
      ensures books.fates == old(books).fates + [Completed(remaining[|old(books).fates|])]
      ensures |books.fates| < n ==> isrTransfer != NULL && Done(pool, books.carriers, |books.fates|, n, remaining)
      ensures history == old(history) + [Round] + called + [FreeDone] + freed
    {
      hide FreeOk, ActiveOk, PlacesOk, CallsDue;
      TakeFinished(n, remaining);
      Meanwhile(called, n, remaining);
      FreeFinished(n, remaining);
      Meanwhile(freed, n, remaining);
    }

    method TakeFinished(ghost n: nat, ghost remaining: seq<nat>)
      requires Valid() && isrPc == LoopHead && isrTransfer != NULL && |books.fates| < n <= |books.jobs|
      requires Done(pool, books.carriers, |books.fates|, n, remaining)
      modifies this
      ensures Valid() && isrPc == CalledBack && books.jobs == old(books).jobs
      ensures books.fates == old(books).fates + [Completed(remaining[|old(books).fates|])]
      ensures |books.fates| < n ==> isrNext != NULL && Done(pool, books.carriers, |books.fates|, n, remaining)
      ensures history == old(history) + [Round]
    {
      hide FreeOk, ActiveOk, PlacesOk, CallsDue, ThreadValid;
      Step(Round);
      Heads(pool, books, Hand(), IsrHand());
    }

    method FreeFinished(ghost n: nat, ghost remaining: seq<nat>)
      requires Valid() && isrPc == CalledBack && n <= |books.jobs|
      requires |books.fates| < n ==> isrNext != NULL && Done(pool, books.carriers, |books.fates|, n, remaining)
      modifies this
      ensures Valid() && isrPc == LoopHead && books.jobs == old(books).jobs && books.fates == old(books).fates
      ensures |books.fates| < n ==> isrTransfer != NULL && Done(pool, books.carriers, |books.fates|, n, remaining)
      ensures history == old(history) + [FreeDone]
    {
      hide FreeOk, ActiveOk, PlacesOk, CallsDue, ThreadValid;
      Step(FreeDone);
    }

    /** A job scheduled by the thread while no interrupt comes is the last one pending. */
    method Schedule(job: Job)
      requires Valid() && isrPc == IsrIdle && threadPc == ThreadIdle && !isrAllocates && books.free != []
      modifies this
      ensures |books.fates| <= |old(books).jobs|
      ensures Valid() && isrPc == IsrIdle && threadPc == ThreadIdle && calls == old(calls)
      ensures books.jobs == old(books).jobs + [job] && books.fates == old(books).fates
      ensures |books.carriers| == |books.jobs| && var t := books.carriers[|old(books).jobs|];
              0 <= t < |pool| && Pending(t) && pool[t].statusActive && pool[t].maximumLength == job.maximumLength
    {
      Allocate(job);
      Submit();
    }

    method Allocate(job: Job)
      requires Valid() && isrPc == IsrIdle && threadPc == ThreadIdle && !isrAllocates && books.free != []
      modifies this
      ensures Valid() && isrPc == IsrIdle && threadPc == Taken && this.job == job && calls == old(calls)
      ensures (books.jobs, books.fates, books.carriers) == old((books.jobs, books.fates, books.carriers))
    {
      hide Valid;
      Step(Begin(job));
      Step(LoadExclusive);
      Step(ReadNext);
      Step(StoreExclusive(false));
    }

    method Submit()
      requires Valid() && isrPc == IsrIdle && threadPc == Taken
      modifies this
      ensures |books.fates| <= |old(books).jobs|
      ensures Valid() && isrPc == IsrIdle && threadPc == ThreadIdle && calls == old(calls)
      ensures books.jobs == old(books).jobs + [old(job)] && books.fates == old(books).fates
      ensures |books.carriers| == |books.jobs| && var t := books.carriers[|old(books).jobs|];
              0 <= t < |pool| && Pending(t) && pool[t].statusActive && pool[t].maximumLength == old(job).maximumLength
    {
      FillIt();
      assert |books.carriers| == |books.jobs| >= |books.fates|;
      hide Valid, Pending;
      ghost var t := transfer;
      Step(Enqueue);
      LastIsPending();
      assert books.carriers[|old(books).jobs|] == t;
    }

    method FillIt()
      requires Valid() && isrPc == IsrIdle && threadPc == Taken
      modifies this
      ensures Valid() && isrPc == IsrIdle && threadPc == Filled && calls == old(calls) && books == old(books)
      ensures (transfer, job) == old((transfer, job)) && 0 <= transfer < |pool| && pool[transfer].statusActive
    {
      hide Valid, StatusKept, Append, Take;
      Step(ClearNext);
      Step(FillIn);
    }

    lemma ActiveIsHead()
      requires Valid() && |books.fates| < |books.jobs|
      ensures |books.carriers| == |books.jobs| && active == books.carriers[|books.fates|] && 0 <= active < |pool|
    {
      hide FreeOk, ActiveOk, PlacesOk, CallsDue;
      Heads(pool, books, Hand(), IsrHand());
    }

    lemma LastIsPending()
      requires Valid() && |books.fates| < |books.jobs|
      ensures |books.carriers| == |books.jobs| && var t := books.carriers[|books.jobs| - 1];
              0 <= t < |pool| && Pending(t) && pool[t].maximumLength == books.jobs[|books.jobs| - 1].maximumLength
    {
      hide FreeOk, ActiveOk, PlacesOk, CallsDue;
      PendingLast(pool, books, Hand(), IsrHand());
    }

    /** A whole transfer on an idle endpoint: scheduled, finished by the device with some bytes remaining, and
        called back by the next interrupt with the bytes transferred. */
    method WholeTransfer(job: Job, remaining: nat)
      requires Valid() && isrPc == IsrIdle && threadPc == ThreadIdle && !isrAllocates && books.free != []
      requires |books.fates| == |books.jobs| && remaining <= job.maximumLength
      modifies this
      ensures Valid() && books.jobs == old(books).jobs + [job]
              && books.fates == old(books).fates + [Completed(remaining)]
      ensures calls == old(calls) + CallDue(job, Completed(remaining))
    {
      hide Valid, CallsDue, StatusKept, Pending;
      Schedule(job);
      FinishAndCall(remaining);
    }

    method FinishAndCall(remaining: nat)
      requires Valid() && isrPc == IsrIdle && |books.fates| + 1 == |books.jobs| == |books.carriers|
      requires var t := books.carriers[|books.fates|];
               0 <= t < |pool| && Pending(t) && pool[t].statusActive && remaining <= pool[t].maximumLength
      modifies this
      ensures Valid() && books.jobs == old(books).jobs && books.fates == old(books).fates + [Completed(remaining)]
      ensures calls == old(calls) + CallDue(old(books).jobs[|old(books).fates|], Completed(remaining))
    {
      hide Valid, CallsDue, StatusKept, Pending;
      ActiveIsHead();
      Step(Finish(active, remaining));
      Step(Interrupt);
      ActiveIsHead();
      Step(Round);
    }

    /** Whatever the contexts and the device do, in whatever order: the lists and the transfers in hand
        partition the pool, and the callbacks made are exactly those due, in schedule order. */
    method RunAll(actions: seq<Action>)
      requires Valid()
      modifies this
      ensures Valid() && |pool| == |old(pool)| && old(calls) <= calls
      ensures |books.fates| <= |books.jobs| && calls == CallsDue(books.jobs, books.fates)
              && history == old(history) + actions
    {
      hide Valid, Did, Drained, CallsDue;
      for i := 0 to |actions|
        invariant history == old(history) + actions[..i]
        invariant Valid() && |pool| == |old(pool)| && old(calls) <= calls
      {
        Step(actions[i]);
      }
      CallsAreDue();
    }

    lemma CallsAreDue()
      requires Valid()
      ensures |books.fates| <= |books.jobs| && calls == CallsDue(books.jobs, books.fates)
    {
    }
  }

  lemma FreeIsNotPending(pool: seq<Transfer>, b: Books, hand: int, isrHand: int)
    requires BooksOk(pool, b, hand, isrHand)
    ensures b.free != [] ==> forall j {:trigger b.carriers[j]} :: |b.fates| <= j < |b.carriers| ==>
            b.carriers[j] != FreeHead(b)
  {
  }

  lemma PendingLast(pool: seq<Transfer>, b: Books, hand: int, isrHand: int)
    requires BooksOk(pool, b, hand, isrHand) && |b.fates| < |b.jobs|
    ensures var t := b.carriers[|b.jobs| - 1];
            0 <= t < |pool| && t in b.carriers[|b.fates|..] && Carries(pool[t], b.jobs[|b.jobs| - 1])
  {
    assert b.carriers[|b.fates|..][|b.jobs| - 1 - |b.fates|] == b.carriers[|b.jobs| - 1];
  }

  /** Pending transfers from number f up to n are done, with these bytes remaining. */
  ghost predicate Done(pool: seq<Transfer>, carriers: seq<int>, f: nat, n: nat, remaining: seq<nat>) {
    && f <= n <= |carriers| && n <= |remaining|
    && forall j {:trigger carriers[j]} :: f <= j < n ==>
         0 <= carriers[j] < |pool| && !pool[carriers[j]].statusActive && pool[carriers[j]].totalBytes == remaining[j]
  }

  datatype Action =
    | Begin(job: Job) | LoadExclusive | ReadNext | StoreExclusive(fails: bool) | ClearNext | FillIn | Enqueue
    | FlushQueue | Interrupt | Round | FreeDone | Reschedule(job: Job) | Finish(t: int, bytes: nat)

  function FilledIn(t: Transfer, j: Job): (r: Transfer)
    ensures Carries(r, j) && r.statusActive && r.next == t.next
  {
    Transfer(t.next, true, j.maximumLength, j.maximumLength, j.hasCallback, j.userData)
  }
}
