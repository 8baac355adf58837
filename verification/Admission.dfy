/** The registry that admits streams: its state, and one method per critical section. */
module Admission {

  /** The limits of one request. */
  datatype Limits = Limits(maxStreams: int, maxUnique: int, queueSize: int)

  datatype Active = Active(readers: int, torrentID: int)

  datatype Registry = Registry(active: map<string, Active>, streams: int, waiters: int, uniqueWaiters: int)

  const EMPTY := Registry(map[], 0, 0, 0)

  datatype Verdict = Granted | MaxStreams | MaxUnique

  /** A key's entry; an absent one reads as zero. */
  function Entry(active: map<string, Active>, key: string): Active {
    if key in active then active[key] else Active(0, 0)
  }

  predicate CanAcquireUnique(active: map<string, Active>, maxUnique: int, key: string) {
    maxUnique <= 0 || key == "" || Entry(active, key).readers > 0 || |active| < maxUnique
  }

  function Judge(r: Registry, limits: Limits, key: string): Verdict {
    if r.streams >= limits.maxStreams then MaxStreams
    else if !CanAcquireUnique(r.active, limits.maxUnique, key) then MaxUnique
    else Granted
  }

  function Acquired(r: Registry, key: string, torrentID: int): Registry {
    var e := Entry(r.active, key);
    var e' := Active(e.readers + 1, if e.torrentID == 0 then torrentID else e.torrentID);
    r.(streams := r.streams + 1, active := if key == "" then r.active else r.active[key := e'])
  }

  function Released(r: Registry, key: string): Registry {
    var e := Entry(r.active, key);
    r.(active := if key == "" then r.active
                 else if e.readers <= 1 then r.active - {key}
                 else r.active[key := e.(readers := e.readers - 1)],
       streams := if r.streams - 1 < 0 then 0 else r.streams - 1)
  }

  predicate SlotFree(r: Registry, queueSize: int) {
    queueSize > 0 && r.waiters < queueSize
  }

  function SlotTaken(r: Registry, uniqueBlocked: bool, debug: bool): Registry {
    r.(waiters := r.waiters + 1,
       uniqueWaiters := if debug && uniqueBlocked then r.uniqueWaiters + 1 else r.uniqueWaiters)
  }

  function SlotReleased(r: Registry, uniqueWaiter: bool, debug: bool): Registry {
    r.(waiters := if r.waiters > 0 then r.waiters - 1 else r.waiters,
       uniqueWaiters := if debug && uniqueWaiter && r.uniqueWaiters > 0 then r.uniqueWaiters - 1 else r.uniqueWaiters)
  }

  /** Whether a torrent has an admitted stream. */
  predicate HasActive(r: Registry, key: string) {
    key != "" && Entry(r.active, key).readers > 0
  }

  class StreamAdmissionRegistry {
    var active: map<string, Active>
    var activeStreams: int
    var waiters: int
    var uniqueWaiters: int

    ghost function View(): Registry
      reads this
    {
      Registry(active, activeStreams, waiters, uniqueWaiters)
    }

    constructor ()
      ensures View() == EMPTY
    {
      active, activeStreams, waiters, uniqueWaiters := map[], 0, 0, 0;
    }

    method TryAcquire(limits: Limits, key: string, torrentID: int) returns (ok: bool, uniqueBlocked: bool)
      modifies this
      ensures ok == (Judge(old(View()), limits, key) == Granted)
      ensures uniqueBlocked == (Judge(old(View()), limits, key) == MaxUnique)
      ensures View() == if ok then Acquired(old(View()), key, torrentID) else old(View())
    {
      if activeStreams >= limits.maxStreams {
        return false, false;
      }
      if !CanAcquireUnique(active, limits.maxUnique, key) {
        return false, true;
      }
      activeStreams := activeStreams + 1;
      if key != "" {
        var entry := Entry(active, key);
        entry := entry.(readers := entry.readers + 1);
        if entry.torrentID == 0 {
          entry := entry.(torrentID := torrentID);
        }
        active := active[key := entry];
      }
      return true, false;
    }

    /** Answers what TryAcquire would answer, and changes nothing. */
    method CanAcquireNow(limits: Limits, key: string) returns (v: Verdict)
      ensures v == Judge(View(), limits, key)
    {
      if activeStreams >= limits.maxStreams {
        return MaxStreams;
      }
      if !CanAcquireUnique(active, limits.maxUnique, key) {
        return MaxUnique;
      }
      return Granted;
    }

    method HasActiveTorrent(key: string) returns (has: bool)
      ensures has == HasActive(View(), key)
    {
      if key == "" {
        return false;
      }
      return Entry(active, key).readers > 0;
    }

    method Release(key: string)
      modifies this
      ensures View() == Released(old(View()), key)
    {
      if key != "" {
        var count := Entry(active, key);
        if count.readers <= 1 {
          active := active - {key};
        } else {
          active := active[key := count.(readers := count.readers - 1)];
        }
      }
      activeStreams := activeStreams - 1;
      if activeStreams < 0 {
        activeStreams := 0;
      }
    }

    method TryAcquireQueueSlot(queueSize: int, uniqueBlocked: bool, debug: bool) returns (ok: bool)
      modifies this
      ensures ok == SlotFree(old(View()), queueSize)
      ensures View() == if ok then SlotTaken(old(View()), uniqueBlocked, debug) else old(View())
    {
      if queueSize <= 0 {
        return false;
      }
      if waiters >= queueSize {
        return false;
      }
      waiters := waiters + 1;
      if debug {
        if uniqueBlocked {
          uniqueWaiters := uniqueWaiters + 1;
        }
      }
      return true;
    }

    method ReleaseQueueSlot(uniqueWaiter: bool, debug: bool)
      modifies this
      ensures View() == SlotReleased(old(View()), uniqueWaiter, debug)
    {
      if waiters > 0 {
        waiters := waiters - 1;
      }
      if debug && uniqueWaiter && uniqueWaiters > 0 {
        uniqueWaiters := uniqueWaiters - 1;
      }
    }
  }

  // ---- when a torrent may be closed -------------------------------------------------------------

  datatype TorrentStat = Added | GettingInfo | Preload | Working | ClosedStat | InDB

  predicate ShouldExpire(readers: int, hasActiveStream: bool, expiresAt: int, now: int, st: TorrentStat) {
    if readers > 0 || hasActiveStream || expiresAt == 0 then false
    else expiresAt < now && (st == Working || st == ClosedStat)
  }

  /** A torrent is reported expired exactly if nobody reads or streams it, it has a deadline, that lies
      in the past, and it is at work or closed. */
  lemma ExpiresIff(readers: int, hasActiveStream: bool, expiresAt: int, now: int, st: TorrentStat)
    ensures ShouldExpire(readers, hasActiveStream, expiresAt, now, st) <==>
              && readers <= 0 && !hasActiveStream && expiresAt != 0 && expiresAt < now
              && st in {Working, ClosedStat}
  {
  }
}
