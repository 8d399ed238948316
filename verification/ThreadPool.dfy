/** The pool of threads that serve one listening socket.  Threads are scheduled
    cooperatively, so each step below runs undisturbed from one blocking call to the next. */
module ThreadPool {

  const MAX_WAIT_THREADS_DEFAULT := 8
  const FD_PER_THREAD := 2
  const MIN_WAIT_THREADS := 2

  function CeilDiv(n: nat, d: nat): nat
    requires d > 0
  {
    if n % d != 0 then n / d + 1 else n / d
  }

  lemma CeilDivBounds(a: nat, d: nat)
    requires d > 0
    ensures d * (CeilDiv(a, d) - 1) < a <= d * CeilDiv(a, d)
  {
    var q, r := a / d, a % d;
    assert a == d * q + r;
    assert d * (q + 1) == d * q + d && d * (q - 1) == d * q - d;
  }

  lemma TimesAtLeast(d: nat, p: int, q: int)
    requires p <= q
    ensures d * p <= d * q
  {
  }

  lemma CeilDivMonotone(a: nat, b: nat, d: nat)
    requires a <= b && d > 0
    ensures CeilDiv(a, d) <= CeilDiv(b, d)
    ensures a > 0 ==> CeilDiv(a, d) > 0
    ensures CeilDiv(a, d) * d >= a && (CeilDiv(a, d) - 1) * d < a
  {
    hide CeilDiv;
    CeilDivBounds(a, d);
    CeilDivBounds(b, d);
    if CeilDiv(a, d) > CeilDiv(b, d) {
      TimesAtLeast(d, CeilDiv(b, d), CeilDiv(a, d) - 1);
    }
    if CeilDiv(a, d) <= 0 {
      TimesAtLeast(d, CeilDiv(a, d), 0);
    }
  }

  /** The per-process limits, from the totals asked for (0 where none was). */
  method SetThreadThrottling(maxWait0: nat, max0: nat, processes: nat, sockets: nat, fdLimit: nat)
    returns (minWait: nat, maxWait: nat, max: nat)
    requires processes > 0 && sockets > 0
    ensures minWait <= maxWait <= max
    ensures maxWait > 0 <==> max > 0
    ensures minWait == MIN_WAIT_THREADS || minWait == maxWait < MIN_WAIT_THREADS
    ensures max0 > 0 ==> max * processes >= max0 && (max - 1) * processes < max0
  {
    maxWait, max, minWait := maxWait0, max0, MIN_WAIT_THREADS;
    if maxWait == 0 { maxWait := MAX_WAIT_THREADS_DEFAULT * processes; }
    if max == 0 { max := fdLimit * processes / FD_PER_THREAD / sockets; }
    if maxWait > max { maxWait := max; }
    CeilDivMonotone(maxWait, max, processes);
    CeilDivMonotone(max, max, processes);
    if maxWait % processes != 0 { maxWait := maxWait / processes + 1; } else { maxWait := maxWait / processes; }
    if max % processes != 0 { max := max / processes + 1; } else { max := max / processes; }
    if minWait > maxWait { minWait := maxWait; }
  }

  datatype Event =
    | Begin(t: nat)                   // a thread that was created runs for the first time
    | AcceptFailed(t: nat)
    | Accepted(t: nat, created: bool) // created: what creating a spare thread would come to
    | SessionDone(t: nat)

  class Socket {
    var waitThreads: int
    var busyThreads: int
    var requests: nat
    const minWait: nat
    const maxWait: nat
    const maxThreads: nat
    ghost var waiting: set<nat>  // live threads that are not serving a session
    ghost var busy: set<nat>     // live threads that are
    ghost var born: nat          // threads created so far
    ghost var reliable: bool     // every attempt to create a thread has succeeded

    /** What holds whenever a thread blocks. */
    ghost predicate Valid()
      reads this
    {
      && minWait <= maxWait <= maxThreads
      && waiting !! busy
      && (forall t :: t in waiting ==> t < born)
      && (forall t :: t in busy ==> t < born)
      && waitThreads == |waiting| && busyThreads == |busy|
      && waitThreads <= maxWait
      && waitThreads + busyThreads <= maxThreads
      && (reliable ==> waitThreads >= minWait || waitThreads + busyThreads == maxThreads)
    }

    /** Starts the spare threads; creation tells which attempts succeed. */
    constructor (minWait: nat, maxWait: nat, maxThreads: nat, creation: seq<bool>)
      requires minWait <= maxWait <= maxThreads && |creation| == maxWait
      ensures Valid() && busyThreads == 0 && requests == 0
      ensures (forall j :: 0 <= j < maxWait ==> creation[j]) ==> reliable && waitThreads == maxWait
    {
      this.minWait, this.maxWait, this.maxThreads := minWait, maxWait, maxThreads;
      waitThreads, busyThreads, requests := 0, 0, 0;
      waiting, busy, born, reliable := {}, {}, 0, true;
      new;
      for n := 0 to maxWait
        invariant 0 <= waitThreads <= n && busyThreads == 0 && requests == 0
        invariant busy == {} && waitThreads == |waiting| == born && forall t :: t in waiting ==> t < born
        invariant reliable <==> forall j :: 0 <= j < n ==> creation[j]
        invariant reliable ==> waitThreads == n
      {
        if creation[n] {
          waitThreads := waitThreads + 1;
          waiting, born := waiting + {born}, born + 1;
        } else {
          reliable := false;
        }
      }
    }

    /** The test at the head of the thread's loop: one spare thread too many goes away. */
    method LoopHead(t: nat) returns (stays: bool)
      requires t in waiting && waitThreads == |waiting|
      modifies this`waitThreads, this`waiting
      ensures stays <==> old(waitThreads) <= maxWait
      ensures waitThreads == |waiting| && waiting == if stays then old(waiting) else old(waiting) - {t}
    {
      stays := waitThreads <= maxWait;
      if !stays {
        waitThreads := waitThreads - 1;
        waiting := waiting - {t};
      }
    }

    method BeginThread(t: nat)
      requires Valid() && t in waiting
      modifies this`waitThreads, this`waiting
      ensures Valid() && waiting == old(waiting)
    {
      var _ := LoopHead(t);
    }

    /** A thread turns to a connection, and sees to it that enough others wait. */
    method TakeConnection(t: nat, created: bool)
      requires Valid() && t in waiting
      modifies this
      ensures Valid() && busy == old(busy) + {t}
      ensures waitThreads + busyThreads == old(waitThreads + busyThreads) +
                (if created && old(waitThreads) - 1 < minWait && old(waitThreads + busyThreads) < maxThreads then 1 else 0)
      ensures reliable == (old(reliable) &&
                           (created || !(old(waitThreads) - 1 < minWait && old(waitThreads + busyThreads) < maxThreads)))
    {
      waitThreads := waitThreads - 1;
      busyThreads := busyThreads + 1;
      waiting, busy := waiting - {t}, busy + {t};
      if waitThreads < minWait && waitThreads + busyThreads < maxThreads {
        if created {
          waitThreads := waitThreads + 1;
          waiting, born := waiting + {born}, born + 1;
        } else {
          reliable := false;
        }
      }
    }

    method FinishSession(t: nat)
      requires Valid() && t in busy
      modifies this`waitThreads, this`busyThreads, this`requests, this`waiting, this`busy
      ensures Valid() && busy == old(busy) - {t} && requests == old(requests) + 1
      ensures t in waiting <==> old(waitThreads) < maxWait
    {
      requests := requests + 1;
      waitThreads := waitThreads + 1;
      busyThreads := busyThreads - 1;
      waiting, busy := waiting + {t}, busy - {t};
      var _ := LoopHead(t);
    }

    ghost predicate Enabled(e: Event)
      reads this
    {
      match e
      case Begin(t) => t in waiting
      case AcceptFailed(t) => t in waiting
      case Accepted(t, _) => t in waiting
      case SessionDone(t) => t in busy
    }

    method Perform(e: Event)
      requires Valid() && Enabled(e)
      modifies this
      ensures Valid()
      ensures old(reliable) && (e.Accepted? ==> e.created) ==> reliable
    {
      match e
      case Begin(t) => BeginThread(t);
      case AcceptFailed(t) => BeginThread(t);
      case Accepted(t, created) => TakeConnection(t, created);
      case SessionDone(t) => FinishSession(t);
    }
  }
}
