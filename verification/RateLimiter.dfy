/** `InMemoryRateLimiter` in `app/rate_limiter.py`: a sliding window per key, with expiry by heap. */
module RateLimiter {

  const CLEANUP_WORK: nat := 64

  /** The name of a bucket, such as the limited action and the client's address. */
  datatype Key = Key(name: string)

  datatype Entry = Entry(deadline: int, sequence: nat, key: Key)

  // ----- counting requests in a window

  function CountAfter(times: seq<int>, start: int): nat {
    if times == [] then 0 else CountAfter(times[1..], start) + if times[0] > start then 1 else 0
  }

  function CountFrom(times: seq<int>, start: int): nat {
    if times == [] then 0 else CountFrom(times[1..], start) + if times[0] >= start then 1 else 0
  }

  lemma {:induction false} CountAfterOfSuffix(times: seq<int>, d: nat, start: int)
    requires d <= |times| && forall i | 0 <= i < d :: times[i] <= start
    ensures CountAfter(times, start) <= |times| - d
  {
    if times != [] { CountAfterOfSuffix(times[1..], if d > 0 then d - 1 else 0, start); }
  }

  lemma {:induction false} CountFromOfSuffix(times: seq<int>, d: nat, start: int)
    requires d <= |times| && forall i | d <= i < |times| :: times[i] >= start
    ensures CountFrom(times, start) >= |times| - d
  {
    if times != [] { CountFromOfSuffix(times[1..], if d > 0 then d - 1 else 0, start); }
  }

  // ----- what the buckets hold

  function At<T>(m: map<Key, seq<T>>, key: Key): seq<T> { if key in m then m[key] else [] }

  function WindowsOf(windows: map<Key, set<int>>, key: Key): set<int> { if key in windows then windows[key] else {} }

  /** The queue holds the latest of the allowed requests. */
  predicate Latest(queue: seq<int>, allowed: seq<int>, clock: int) {
    && |queue| <= |allowed| && queue == allowed[|allowed| - |queue|..]
    && forall i | 0 <= i < |allowed| :: allowed[i] <= clock
  }

  /** With one window, everything dropped is out of it. */
  predicate DroppedAreOld(queue: seq<int>, allowed: seq<int>, clock: int, window: int) {
    forall i | 0 <= i < |allowed| - |queue| :: allowed[i] <= clock - window
  }

  function Max(a: int, b: int): int { if a >= b then a else b }

  /** With one window, every request of the queue has left it when the deadline comes. */
  predicate DeadlineCovers(queue: seq<int>, deadline: int, window: int) {
    forall i | 0 <= i < |queue| :: queue[i] + Max(window, 0) <= deadline
  }

  predicate InHeap(heap: set<Entry>, key: Key, deadline: int) {
    exists e :: e in heap && e.key == key && e.deadline == deadline
  }

  /** Every bucket will be found by its heap entry. */
  predicate Tracked(events: map<Key, seq<int>>, deadlines: map<Key, int>, heap: set<Entry>) {
    && events.Keys == deadlines.Keys
    && forall k | k in events :: InHeap(heap, k, deadlines[k])
  }

  ghost predicate BucketOk(events: map<Key, seq<int>>, deadlines: map<Key, int>, allowed: seq<int>, windows: set<int>,
                           clock: int, k: Key) {
    && (k in events ==> events[k] != []) && (windows == {} ==> allowed == [])
    && Latest(At(events, k), allowed, clock)
    && forall w | w in windows && windows == {w} :: DroppedAreOld(At(events, k), allowed, clock, w)
                                     && (k in events && k in deadlines ==> DeadlineCovers(events[k], deadlines[k], w))
  }

  /** Time passes and the bucket is dropped if its deadline has come. */
  lemma PurgeKeepsBucket(events: map<Key, seq<int>>, deadlines: map<Key, int>, now: int,
                         events': map<Key, seq<int>>, deadlines': map<Key, int>,
                         allowed: seq<int>, windows: set<int>, clock: int, k: Key)
    requires BucketOk(events, deadlines, allowed, windows, clock, k) && events.Keys == deadlines.Keys
    requires k in events' <==> k in events && deadlines[k] > now
    requires k in events' ==> k in deadlines' && events'[k] == events[k] && deadlines'[k] == deadlines[k]
    ensures BucketOk(events', deadlines', allowed, windows, Max(clock, now), k)
  {
    if k in events && k !in events' {
      forall w | w in windows && windows == {w} ensures DroppedAreOld([], allowed, Max(clock, now), w) {
        PurgedAreOld(events[k], deadlines[k], allowed, clock, now, w);
      }
    }
  }

  lemma PurgedAreOld(queue: seq<int>, deadline: int, allowed: seq<int>, clock: int, now: int, window: int)
    requires Latest(queue, allowed, clock) && DroppedAreOld(queue, allowed, clock, window)
    requires DeadlineCovers(queue, deadline, window) && deadline <= now
    ensures DroppedAreOld([], allowed, Max(clock, now), window)
  {
    var d := |allowed| - |queue|;
    forall i | 0 <= i < |allowed| ensures allowed[i] <= Max(clock, now) - window {
      if i >= d { assert allowed[i] == queue[i - d]; }
    }
  }

  /** Pruning the queue from the front leaves the latest requests, the first of them within the window. */
  predicate Pruned(queue: seq<int>, before: seq<int>, start: int) {
    && |queue| <= |before| && queue == before[|before| - |queue|..]
    && (forall i | 0 <= i < |before| - |queue| :: before[i] < start) && (queue != [] ==> queue[0] >= start)
  }

  lemma PrunedLatest(before: seq<int>, queue: seq<int>, allowed: seq<int>, clock: int, now: int, window: int)
    requires Latest(before, allowed, clock) && Pruned(queue, before, now - window) && now <= clock
    ensures Latest(queue, allowed, clock)
    ensures DroppedAreOld(before, allowed, clock, window) ==> DroppedAreOld(queue, allowed, clock, window)
  {
    var d, c := |allowed| - |before|, |allowed| - |queue|;
    assert forall i | d <= i < c :: allowed[i] == before[i - d];
  }

  /** A later request was never allowed at a time earlier by more than this than an earlier one. */
  predicate OutOfOrderBy(allowed: seq<int>, skew: nat) {
    forall i, j | 0 <= i < j < |allowed| :: allowed[i] - allowed[j] <= skew
  }

  /**
    What a decision at `now` means, when `latest` is the latest time that any request has come with: allowed
    with fewer than the limit in the window before `latest`, denied with the limit in the closed window
    before `now`, widened by as much as the requests were out of order.
   */
  ghost predicate Sound(ok: bool, allowed: seq<int>, now: int, latest: int, limit: int, window: int) {
    if ok then 0 < limit && CountAfter(allowed, latest - window) < limit
    else limit <= 0 || forall skew: nat | OutOfOrderBy(allowed, skew) ::
      CountFrom(allowed, now - window - skew) >= limit
  }

  lemma QueueDecides(allowed: seq<int>, queue: seq<int>, now: int, latest: int, limit: int, window: int)
    requires Latest(queue, allowed, latest) && DroppedAreOld(queue, allowed, latest, window)
    requires queue != [] ==> queue[0] >= now - window
    ensures Sound(0 < limit && |queue| < limit, allowed, now, latest, limit, window)
  {
    var d := |allowed| - |queue|;
    CountAfterOfSuffix(allowed, d, latest - window);
    forall skew: nat | OutOfOrderBy(allowed, skew) ensures CountFrom(allowed, now - window - skew) >= |queue| {
      forall i | d <= i < |allowed| ensures allowed[i] >= now - window - skew {
        assert allowed[d] == queue[0];
        if i > d { assert allowed[d] - allowed[i] <= skew; }
      }
      CountFromOfSuffix(allowed, d, now - window - skew);
    }
  }

  lemma PrunedDropped(events: map<Key, seq<int>>, deadlines: map<Key, int>, allowed: seq<int>, windows: set<int>,
                      clock: int, now: int, key: Key, window: int, queue: seq<int>)
    requires BucketOk(events, deadlines, allowed, windows, clock, key) && now <= clock
    requires Pruned(queue, At(events, key), now - window)
    ensures Latest(queue, allowed, clock)
    ensures windows + {window} == {window} ==> DroppedAreOld(queue, allowed, clock, window)
  {
    PrunedLatest(At(events, key), queue, allowed, clock, now, window);
    if windows + {window} == {window} && windows != {} { assert window in windows && windows == {window}; }
  }

  lemma OnlyWindow(windows: set<int>, window: int)
    ensures windows + {window} != {} && forall w | w in windows + {window} && windows + {window} == {w} :: w == window
    ensures windows + {window} == {window} && windows != {} ==> windows == {window}
  {
  }

  lemma SuffixCovers(before: seq<int>, queue: seq<int>, deadline: int, window: int)
    requires DeadlineCovers(before, deadline, window) && |queue| <= |before| && queue == before[|before| - |queue|..]
    ensures DeadlineCovers(queue, deadline, window)
  {
  }

  lemma DeniedBucket(events: map<Key, seq<int>>, deadlines: map<Key, int>,
                     events': map<Key, seq<int>>, deadlines': map<Key, int>, allowed: seq<int>, windows: set<int>,
                     clock: int, now: int, key: Key, window: int, queue: seq<int>)
    requires BucketOk(events, deadlines, allowed, windows, clock, key) && now <= clock
    requires Pruned(queue, At(events, key), now - window)
    requires events.Keys == deadlines.Keys && (key in events' <==> queue != [])
    requires queue != [] ==>
               key in events && events'[key] == queue && key in deadlines' && deadlines'[key] == deadlines[key]
    ensures BucketOk(events', deadlines', allowed, windows + {window}, clock, key)
  {
    PrunedDropped(events, deadlines, allowed, windows, clock, now, key, window, queue);
    OnlyWindow(windows, window);
    if windows + {window} == {window} && queue != [] {
      assert windows == {window};
      SuffixCovers(events[key], queue, deadlines[key], window);
    }
    hide Latest, DroppedAreOld, DeadlineCovers, Pruned;
  }

  lemma LatestGrows(queue: seq<int>, allowed: seq<int>, clock: int, now: int)
    requires Latest(queue, allowed, clock) && now <= clock
    ensures Latest(queue + [now], allowed + [now], clock)
  {
    assert (allowed + [now])[|allowed| - |queue|..] == queue + [now];
  }

  lemma DeadlineGrows(queue: seq<int>, deadline: int, now: int, window: int)
    requires queue != [] ==> DeadlineCovers(queue, deadline, window)
    ensures queue != [] ==> DeadlineCovers(queue + [now], Max(deadline, now + Max(window, 0)), window)
    ensures queue == [] ==> DeadlineCovers(queue + [now], now + Max(window, 0), window)
  {
  }

  lemma DroppedStay(queue: seq<int>, allowed: seq<int>, clock: int, window: int, now: int)
    requires DroppedAreOld(queue, allowed, clock, window)
    ensures DroppedAreOld(queue + [now], allowed + [now], clock, window)
  {
  }

  lemma AllowedBucket(events: map<Key, seq<int>>, deadlines: map<Key, int>,
                      events': map<Key, seq<int>>, deadlines': map<Key, int>, allowed: seq<int>, windows: set<int>,
                      clock: int, now: int, key: Key, window: int, queue: seq<int>)
    requires BucketOk(events, deadlines, allowed, windows, clock, key) && now <= clock
    requires Pruned(queue, At(events, key), now - window)
    requires events.Keys == deadlines.Keys && key in events' && events'[key] == queue + [now] && key in deadlines'
    requires deadlines'[key] == NewDeadline(deadlines, key, queue, window, now)
    ensures BucketOk(events', deadlines', allowed + [now], windows + {window}, clock, key)
  {
    PrunedDropped(events, deadlines, allowed, windows, clock, now, key, window, queue);
    LatestGrows(queue, allowed, clock, now);
    OnlyWindow(windows, window);
    if windows + {window} == {window} {
      if queue != [] {
        assert windows == {window};
        SuffixCovers(events[key], queue, deadlines[key], window);
        DeadlineGrows(queue, deadlines[key], now, window);
      } else { DeadlineGrows(queue, 0, now, window); }
      DroppedStay(queue, allowed, clock, window, now);
    }
    hide Latest, DroppedAreOld, DeadlineCovers, Pruned;
  }

  lemma OtherBucket(events: map<Key, seq<int>>, deadlines: map<Key, int>, events': map<Key, seq<int>>,
                    deadlines': map<Key, int>,
                    allowed: seq<int>, windows: set<int>, now: int, k: Key)
    requires BucketOk(events, deadlines, allowed, windows, now, k)
    requires (k in events' <==> k in events) && (k in deadlines' <==> k in deadlines)
    requires (k in events ==> events'[k] == events[k]) && (k in deadlines ==> deadlines'[k] == deadlines[k])
    ensures BucketOk(events', deadlines', allowed, windows, now, k)
  {
  }

  ghost predicate AllOk(events: map<Key, seq<int>>, deadlines: map<Key, int>, allowed: map<Key, seq<int>>,
                        windows: map<Key, set<int>>, clock: int)
  {
    forall k :: BucketOk(events, deadlines, At(allowed, k), WindowsOf(windows, k), clock, k)
  }

  lemma PurgeKeepsAll(events: map<Key, seq<int>>, deadlines: map<Key, int>, now: int,
                      events': map<Key, seq<int>>, deadlines': map<Key, int>,
                      allowed: map<Key, seq<int>>, windows: map<Key, set<int>>, clock: int)
    requires AllOk(events, deadlines, allowed, windows, clock) && events.Keys == deadlines.Keys
    requires events' == map k | k in events && deadlines[k] > now :: events[k]
    requires deadlines' == map k | k in deadlines && deadlines[k] > now :: deadlines[k]
    ensures AllOk(events', deadlines', allowed, windows, Max(clock, now)) && NonEmpty(events')
  {
    hide BucketOk;
    forall k ensures BucketOk(events', deadlines', At(allowed, k), WindowsOf(windows, k), Max(clock, now), k) {
      PurgeKeepsBucket(events, deadlines, now, events', deadlines', At(allowed, k), WindowsOf(windows, k), clock, k);
    }
    AllNonEmpty(events', deadlines', allowed, windows, Max(clock, now));
  }

  predicate NonEmpty(events: map<Key, seq<int>>) { forall k | k in events :: events[k] != [] }

  lemma AllNonEmpty(events: map<Key, seq<int>>, deadlines: map<Key, int>, allowed: map<Key, seq<int>>,
                    windows: map<Key, set<int>>, clock: int)
    requires AllOk(events, deadlines, allowed, windows, clock)
    ensures NonEmpty(events)
  {
    forall k | k in events ensures events[k] != [] {
      assert BucketOk(events, deadlines, At(allowed, k), WindowsOf(windows, k), clock, k);
    }
  }

  lemma BucketOf(events: map<Key, seq<int>>, deadlines: map<Key, int>, allowed: map<Key, seq<int>>,
                 windows: map<Key, set<int>>, clock: int, k: Key)
    requires AllOk(events, deadlines, allowed, windows, clock)
    ensures BucketOk(events, deadlines, At(allowed, k), WindowsOf(windows, k), clock, k)
  {
  }

  lemma NewEntry(heap: set<Entry>, deadline: int, sequence: nat, key: Key)
    requires Entry(deadline, sequence, key) in heap
    ensures InHeap(heap, key, deadline)
  {
  }

  /** Only the bucket of `key` changes. */
  lemma OneBucketKeepsAll(events: map<Key, seq<int>>, deadlines: map<Key, int>, events': map<Key, seq<int>>,
                          deadlines': map<Key, int>,
                          allowed: map<Key, seq<int>>, windows: map<Key, set<int>>,
                          allowed': map<Key, seq<int>>, windows': map<Key, set<int>>, now: int, key: Key)
    requires AllOk(events, deadlines, allowed, windows, now)
    requires events' - {key} == events - {key} && deadlines' - {key} == deadlines - {key}
    requires allowed' - {key} == allowed - {key} && windows' - {key} == windows - {key}
    requires BucketOk(events', deadlines', At(allowed', key), WindowsOf(windows', key), now, key)
    ensures AllOk(events', deadlines', allowed', windows', now)
  {
    hide BucketOk;
    forall k ensures BucketOk(events', deadlines', At(allowed', k), WindowsOf(windows', k), now, k) {
      if k != key {
        SameElsewhere(events, events', key, k);
        SameElsewhere(deadlines, deadlines', key, k);
        SameElsewhere(allowed, allowed', key, k);
        SameElsewhere(windows, windows', key, k);
        OtherBucket(events, deadlines, events', deadlines', At(allowed, k), WindowsOf(windows, k), now, k);
      }
    }
  }

  lemma SameElsewhere<V>(m: map<Key, V>, m': map<Key, V>, key: Key, k: Key)
    requires m' - {key} == m - {key} && k != key
    ensures (k in m' <==> k in m) && (k in m ==> m'[k] == m[k])
  {
    assert k in m' <==> k in m' - {key};
    assert k in m <==> k in m - {key};
    if k in m { assert (m - {key})[k] == (m' - {key})[k]; }
  }

  function NewDeadline(deadlines: map<Key, int>, key: Key, queue: seq<int>, window: int, now: int): int {
    if queue != [] && key in deadlines then Max(deadlines[key], now + Max(window, 0)) else now + Max(window, 0)
  }

  lemma PrunedIsEmpty(queue: seq<int>, events: map<Key, seq<int>>, key: Key, start: int)
    requires Pruned(queue, At(events, key), start)
    ensures key !in events ==> queue == []
  {
  }

  /** Every bucket holds something and is not due yet, except that a request with no window is due at once. */
  predicate InFuture(events: map<Key, seq<int>>, deadlines: map<Key, int>, key: Key, window: int, now: int) {
    forall k | k in events :: events[k] != [] && k in deadlines
      && (deadlines[k] > now || (k == key && window <= 0 && deadlines[k] == now))
  }

  lemma AllowedTracked(events: map<Key, seq<int>>, deadlines: map<Key, int>, heap: set<Entry>, heap': set<Entry>,
                       now: int, key: Key, window: int, queue: seq<int>)
    requires Tracked(events, deadlines, heap) && heap <= heap'
    requires InHeap(heap', key, NewDeadline(deadlines, key, queue, window, now))
    ensures Tracked(events[key := queue + [now]],
                    deadlines[key := NewDeadline(deadlines, key, queue, window, now)], heap')
  {
    forall k | k in events ensures InHeap(heap', k, deadlines[k]) { assert InHeap(heap, k, deadlines[k]); }
  }

  lemma DeniedTracked(events: map<Key, seq<int>>, deadlines: map<Key, int>, heap: set<Entry>, key: Key,
                      queue: seq<int>)
    requires Tracked(events, deadlines, heap) && (queue != [] ==> key in events)
    ensures queue == [] ==> Tracked(events - {key}, deadlines - {key}, heap)
    ensures queue != [] ==> Tracked(events[key := queue], deadlines, heap)
  {
    hide InHeap;
  }

  lemma DecisionSound(events: map<Key, seq<int>>, deadlines: map<Key, int>, allowed: seq<int>, windows: set<int>,
                      clock: int, now: int, key: Key, window: int, queue: seq<int>, limit: int)
    requires BucketOk(events, deadlines, allowed, windows, clock, key) && now <= clock
    requires Pruned(queue, At(events, key), now - window) && windows + {window} == {window}
    ensures Sound(0 < limit && |queue| < limit, allowed, now, clock, limit, window)
  {
    PrunedDropped(events, deadlines, allowed, windows, clock, now, key, window, queue);
    hide BucketOk, Sound, Latest, DroppedAreOld;
    QueueDecides(allowed, queue, now, clock, limit, window);
  }

  /** What allowing a request does to its own bucket leaves every bucket in order. */
  lemma AllowedKeepsAll(events: map<Key, seq<int>>, deadlines: map<Key, int>,
                        events': map<Key, seq<int>>, deadlines': map<Key, int>, allowed: map<Key, seq<int>>,
                        windows: map<Key, set<int>>, clock: int, now: int, key: Key, window: int, queue: seq<int>)
    requires AllOk(events, deadlines, allowed, windows, clock) && events.Keys == deadlines.Keys && now <= clock
    requires Pruned(queue, At(events, key), now - window) && events' == events[key := queue + [now]]
    requires deadlines' == deadlines[key := NewDeadline(deadlines, key, queue, window, now)]
    ensures AllOk(events', deadlines', allowed[key := At(allowed, key) + [now]],
                  windows[key := WindowsOf(windows, key) + {window}], clock)
  {
    hide AllOk, BucketOk, Pruned;
    var h, ws := At(allowed, key), WindowsOf(windows, key);
    BucketOf(events, deadlines, allowed, windows, clock, key);
    AllowedBucket(events, deadlines, events', deadlines', h, ws, clock, now, key, window, queue);
    OneBucketKeepsAll(events, deadlines, events', deadlines', allowed, windows, allowed[key := h + [now]],
                      windows[key := ws + {window}], clock, key);
  }

  lemma DeniedKeepsAll(events: map<Key, seq<int>>, deadlines: map<Key, int>,
                       events': map<Key, seq<int>>, deadlines': map<Key, int>, allowed: map<Key, seq<int>>,
                       windows: map<Key, set<int>>, clock: int, now: int, key: Key, window: int, queue: seq<int>)
    requires AllOk(events, deadlines, allowed, windows, clock) && events.Keys == deadlines.Keys && now <= clock
    requires Pruned(queue, At(events, key), now - window)
    requires events' == if queue == [] then events - {key} else events[key := queue]
    requires deadlines' == if queue == [] then deadlines - {key} else deadlines
    ensures AllOk(events', deadlines', allowed, windows[key := WindowsOf(windows, key) + {window}], clock)
  {
    hide AllOk, BucketOk, Pruned;
    var h, ws := At(allowed, key), WindowsOf(windows, key);
    BucketOf(events, deadlines, allowed, windows, clock, key);
    PrunedIsEmpty(queue, events, key, now - window);
    DeniedBucket(events, deadlines, events', deadlines', h, ws, clock, now, key, window, queue);
    OneBucketKeepsAll(events, deadlines, events', deadlines', allowed, windows, allowed,
                      windows[key := ws + {window}], clock, key);
  }

  /** The buckets left when the keys of `seen` have been looked at: those without events or owner are gone. */
  ghost predicate Cleaned(events: map<Key, seq<int>>, deadlines: map<Key, int>, seen: seq<Key>,
                          events': map<Key, seq<int>>, deadlines': map<Key, int>)
  {
    && (forall k :: k in events' <==> k in events && !(k in seen && events[k] == []))
    && (forall k | k in events' :: events'[k] == events[k])
    && (forall k :: k in deadlines' <==> k in deadlines && !(k in seen && At(events, k) == []))
    && (forall k | k in deadlines' :: deadlines'[k] == deadlines[k])
  }

  lemma CleanOne(events: map<Key, seq<int>>, deadlines: map<Key, int>, seen: seq<Key>,
                 events': map<Key, seq<int>>, deadlines': map<Key, int>, key: Key)
    requires Cleaned(events, deadlines, seen, events', deadlines')
    ensures key !in events' ==> Cleaned(events, deadlines, seen + [key], events', deadlines' - {key})
    ensures key in events' && events'[key] == [] ==>
              Cleaned(events, deadlines, seen + [key], events' - {key}, deadlines' - {key})
    ensures key in events' && events'[key] != [] ==> Cleaned(events, deadlines, seen + [key], events', deadlines')
  {
    assert forall k :: k in seen + [key] <==> k in seen || k == key;
  }

  /** The queue of a sample of which `done` keys have been looked at: those still to come, then those kept. */
  ghost predicate Rotated(queue: seq<Key>, sample: seq<Key>, done: nat, events: map<Key, seq<int>>) {
    && done <= |sample| && |sample| - done <= |queue| <= |sample|
    && queue[..|sample| - done] == sample[done..]
    && forall i | |sample| - done <= i < |queue| :: queue[i] in events && events[queue[i]] != []
  }

  lemma RotateOne(queue: seq<Key>, sample: seq<Key>, done: nat, events: map<Key, seq<int>>)
    requires Rotated(queue, sample, done, events) && done < |sample|
    ensures queue[0] == sample[done] && Rotated(queue[1..], sample, done + 1, events)
    ensures queue[0] in events && events[queue[0]] != [] ==> Rotated(queue[1..] + [queue[0]], sample, done + 1, events)
  {
    var n := |sample| - done;
    assert queue[0] == queue[..n][0];
    assert queue[1..][..n - 1] == queue[..n][1..] == sample[done + 1..];
    assert (queue[1..] + [queue[0]])[..n - 1] == queue[1..][..n - 1];
  }

  lemma NothingToClean(events: map<Key, seq<int>>, deadlines: map<Key, int>, sample: seq<Key>,
                       events': map<Key, seq<int>>, deadlines': map<Key, int>)
    requires NonEmpty(events) && events.Keys == deadlines.Keys
    requires Cleaned(events, deadlines, sample, events', deadlines')
    ensures events' == events && deadlines' == deadlines
  {
    forall k ensures k in deadlines <==> k in deadlines' { assert k in deadlines <==> k in events; }
  }

  // ----- what a request does, as a function of the buckets

  /** The buckets, and for the proofs when each key was allowed, with which windows, and the latest time so far. */
  datatype State = State(events: map<Key, seq<int>>, deadlines: map<Key, int>, allowed: map<Key, seq<int>>,
                         windows: map<Key, set<int>>, clock: int)

  ghost predicate StateOk(st: State) {
    st.events.Keys == st.deadlines.Keys && AllOk(st.events, st.deadlines, st.allowed, st.windows, st.clock)
  }

  function DropOld(queue: seq<int>, start: int): seq<int> {
    if queue != [] && queue[0] < start then DropOld(queue[1..], start) else queue
  }

  lemma {:induction false} DropOldPrunes(queue: seq<int>, start: int)
    ensures Pruned(DropOld(queue, start), queue, start)
  {
    if queue != [] && queue[0] < start {
      DropOldPrunes(queue[1..], start);
      var rest := DropOld(queue[1..], start);
      assert rest == queue[|queue| - |rest|..];
      forall i | 0 <= i < |queue| - |rest| ensures queue[i] < start {
        if i > 0 { assert queue[i] == queue[1..][i - 1]; }
      }
    }
  }

  /** The queue that decides a request: what its bucket holds, if that is not due, within the window. */
  function QueueFor(st: State, key: Key, window: int, now: int): seq<int> {
    if key in st.events && key in st.deadlines && st.deadlines[key] > now then DropOld(st.events[key], now - window)
    else []
  }

  predicate Allows(st: State, key: Key, limit: int, window: int, now: int) {
    0 < limit && |QueueFor(st, key, window, now)| < limit
  }

  /** Every bucket that is due is gone. */
  function Live(st: State, now: int): State {
    st.(events := map k | k in st.events && k in st.deadlines && st.deadlines[k] > now :: st.events[k],
        deadlines := map k | k in st.deadlines && st.deadlines[k] > now :: st.deadlines[k],
        clock := Max(st.clock, now))
  }

  /** A request that is allowed joins its queue, and the bucket gets its deadline. */
  function Recorded(st: State, key: Key, window: int, now: int, queue: seq<int>): State {
    st.(events := st.events[key := queue + [now]],
        deadlines := st.deadlines[key := NewDeadline(st.deadlines, key, queue, window, now)],
        allowed := st.allowed[key := At(st.allowed, key) + [now]])
  }

  /** A request that is denied leaves the pruned queue, unless it is empty. */
  function Kept(st: State, key: Key, queue: seq<int>): State {
    if queue == [] then st.(events := st.events - {key}, deadlines := st.deadlines - {key})
    else st.(events := st.events[key := queue])
  }

  /** `allow` */
  function After(st: State, key: Key, limit: int, window: int, now: int): State {
    var seen := Live(st, now).(windows := st.windows[key := WindowsOf(st.windows, key) + {window}]);
    if Allows(st, key, limit, window, now) then Recorded(seen, key, window, now, QueueFor(st, key, window, now))
    else Kept(seen, key, QueueFor(st, key, window, now))
  }

  lemma LiveKeepsOk(st: State, key: Key, window: int, now: int)
    requires StateOk(st)
    ensures StateOk(Live(st, now))
    ensures Pruned(QueueFor(st, key, window, now), At(Live(st, now).events, key), now - window)
    ensures forall k | k in Live(st, now).events :: Live(st, now).events[k] != [] && Live(st, now).deadlines[k] > now
  {
    hide AllOk, Pruned;
    PurgeKeepsAll(st.events, st.deadlines, now, Live(st, now).events, Live(st, now).deadlines, st.allowed,
                  st.windows, st.clock);
    DropOldPrunes(At(Live(st, now).events, key), now - window);
  }

  /** A request, whatever its time, leaves every bucket in order. */
  lemma AfterKeepsOk(st: State, key: Key, limit: int, window: int, now: int)
    requires StateOk(st)
    ensures StateOk(After(st, key, limit, window, now))
  {
    hide AllOk, Pruned, QueueFor;
    LiveKeepsOk(st, key, window, now);
    var live, queue, st' := Live(st, now), QueueFor(st, key, window, now), After(st, key, limit, window, now);
    PrunedIsEmpty(queue, live.events, key, now - window);
    if Allows(st, key, limit, window, now) {
      AllowedKeepsAll(live.events, live.deadlines, st'.events, st'.deadlines, st.allowed, st.windows, live.clock, now,
                      key, window, queue);
    } else {
      DeniedKeepsAll(live.events, live.deadlines, st'.events, st'.deadlines, st.allowed, st.windows, live.clock, now,
                     key, window, queue);
    }
  }

  lemma AllowsSound(st: State, key: Key, limit: int, window: int, now: int)
    requires StateOk(st) && WindowsOf(st.windows, key) + {window} == {window}
    ensures Sound(Allows(st, key, limit, window, now), At(st.allowed, key), now, Max(st.clock, now), limit, window)
  {
    hide AllOk, Pruned, QueueFor, BucketOk, Sound;
    LiveKeepsOk(st, key, window, now);
    var live, ws := Live(st, now), WindowsOf(st.windows, key);
    BucketOf(live.events, live.deadlines, st.allowed, st.windows, live.clock, key);
    DecisionSound(live.events, live.deadlines, At(st.allowed, key), ws, live.clock, now, key, window,
                  QueueFor(st, key, window, now), limit);
  }

  predicate Least(e: Entry, heap: set<Entry>) { e in heap && forall o | o in heap :: e.deadline <= o.deadline }

  lemma LeastExists(heap: set<Entry>)
    requires heap != {}
    ensures exists e :: Least(e, heap)
  {
    var e :| e in heap;
    if heap == {e} { assert Least(e, heap); }
    else {
      LeastExists(heap - {e});
      var l :| Least(l, heap - {e});
      assert Least(if l.deadline <= e.deadline then l else e, heap);
    }
  }

  /** Nothing has changed but that buckets that are due may be gone. */
  ghost predicate Purging(events: map<Key, seq<int>>, deadlines: map<Key, int>,
                          events': map<Key, seq<int>>, deadlines': map<Key, int>, now: int)
  {
    && events.Keys == deadlines.Keys && events'.Keys == deadlines'.Keys
    && (forall k | k in events' :: k in events && events'[k] == events[k] && deadlines'[k] == deadlines[k])
    && (forall k | k in events && deadlines[k] > now :: k in events')
  }

  lemma NothingPurged(events: map<Key, seq<int>>, deadlines: map<Key, int>, now: int)
    ensures forall heap :: Tracked(events, deadlines, heap) ==> Purging(events, deadlines, events, deadlines, now)
  {
  }

  /** One heap entry is popped, and its bucket goes if the entry is not stale. */
  lemma PurgeOne(events: map<Key, seq<int>>, deadlines: map<Key, int>, events': map<Key, seq<int>>,
                 deadlines': map<Key, int>, heap: set<Entry>, now: int, e: Entry)
    requires Tracked(events', deadlines', heap) && Purging(events, deadlines, events', deadlines', now)
    requires e in heap && e.deadline <= now
    ensures var due := e.key in deadlines' && deadlines'[e.key] == e.deadline;
            var rest, times := if due then events' - {e.key} else events',
                               if due then deadlines' - {e.key} else deadlines';
            Tracked(rest, times, heap - {e}) && Purging(events, deadlines, rest, times, now)
  {
    var due := e.key in deadlines' && deadlines'[e.key] == e.deadline;
    forall k | k in events' && !(due && k == e.key) ensures InHeap(heap - {e}, k, deadlines'[k]) {
      assert InHeap(heap, k, deadlines'[k]);
      var x :| x in heap && x.key == k && x.deadline == deadlines'[k];
      assert x != e;
    }
  }

  lemma PurgingEnds(events: map<Key, seq<int>>, deadlines: map<Key, int>, events': map<Key, seq<int>>,
                    deadlines': map<Key, int>, heap: set<Entry>, now: int)
    requires Tracked(events', deadlines', heap) && Purging(events, deadlines, events', deadlines', now)
    requires !exists e :: e in heap && e.deadline <= now
    ensures events.Keys == deadlines.Keys
    ensures events' == map k | k in events && deadlines[k] > now :: events[k]
    ensures deadlines' == map k | k in deadlines && deadlines[k] > now :: deadlines[k]
  {
    forall k | k in events' ensures deadlines'[k] > now { assert InHeap(heap, k, deadlines'[k]); }
  }

  lemma AfterInFuture(st: State, key: Key, limit: int, window: int, now: int)
    requires StateOk(st)
    ensures InFuture(After(st, key, limit, window, now).events, After(st, key, limit, window, now).deadlines, key,
                     window, now)
  {
    hide AllOk, Allows, Pruned, Live, WindowsOf;
    LiveKeepsOk(st, key, window, now);
    PrunedIsEmpty(QueueFor(st, key, window, now), Live(st, now).events, key, now - window);
  }

  lemma DropUpdated(events: map<Key, seq<int>>, key: Key, queue: seq<int>)
    ensures events[key := queue] - {key} == events - {key}
  {
  }

  lemma LiveWindows(st: State, now: int)
    ensures Live(st, now).windows == st.windows
  {
  }

  lemma KeysAgree(st: State)
    requires StateOk(st)
    ensures st.events.Keys == st.deadlines.Keys
  {
  }

  lemma LiveNonEmpty(st: State, now: int)
    requires StateOk(st)
    ensures NonEmpty(Live(st, now).events) && Live(st, now).events.Keys == Live(st, now).deadlines.Keys
  {
    LiveKeepsOk(st, Key(""), 0, now);
  }

  lemma QueueIs(st: State, key: Key, window: int, now: int)
    ensures QueueFor(st, key, window, now) == DropOld(At(Live(st, now).events, key), now - window)
  {
  }

  lemma WindowsAfter(st: State, key: Key, limit: int, window: int, now: int)
    ensures WindowsOf(After(st, key, limit, window, now).windows, key) == WindowsOf(st.windows, key) + {window}
  {
    hide QueueFor, Live, Allows;
  }

  lemma RemoveThenSet(m: map<Key, int>, k: Key, v: int)
    ensures (m - {k})[k := v] == m[k := v]
  {
  }

  class InMemoryLimiter {
    var events: map<Key, seq<int>>
    var heap: set<Entry>
    var deadlines: map<Key, int>
    var cleanup: seq<Key>
    var sequence: nat
    ghost var allowed: map<Key, seq<int>>     // when each key's requests were allowed
    ghost var windows: map<Key, set<int>>     // the windows each key has been used with
    ghost var clock: int

    ghost function Value(): State
      reads this
    {
      State(events, deadlines, allowed, windows, clock)
    }

    ghost predicate Valid()
      reads this
    {
      |cleanup| <= CLEANUP_WORK && Tracked(events, deadlines, heap) && StateOk(Value())
    }

    constructor (now: int)
      ensures Valid() && Value() == Fresh(now)
    {
      events, heap, deadlines, cleanup, sequence := map[], {}, map[], [], 0;
      allowed, windows, clock := map[], map[], now;
    }

    method RemoveBucket(key: Key)
      modifies this`events, this`deadlines
      ensures events == old(events) - {key} && deadlines == old(deadlines) - {key}
    {
      events := events - {key};
      deadlines := deadlines - {key};
    }

    /** Removes exactly the buckets whose deadline has come, whatever stale entries the heap holds. */
    method PurgeExpiredBuckets(now: int)
      requires Tracked(events, deadlines, heap)
      modifies this`events, this`deadlines, this`heap
      ensures Tracked(events, deadlines, heap)
      ensures events == map k | k in old(events) && old(deadlines)[k] > now :: old(events)[k]
      ensures deadlines == map k | k in old(deadlines) && old(deadlines)[k] > now :: old(deadlines)[k]
    {
      hide Tracked, Purging;
      NothingPurged(events, deadlines, now);
      while exists e :: e in heap && e.deadline <= now
        invariant Tracked(events, deadlines, heap) && Purging(old(events), old(deadlines), events, deadlines, now)
        decreases |heap|
      {
        LeastExists(heap);
        var e :| Least(e, heap);
        PurgeOne(old(events), old(deadlines), events, deadlines, heap, now, e);
        heap := heap - {e};
        if e.key in deadlines && deadlines[e.key] == e.deadline { RemoveBucket(e.key); }
      }
      PurgingEnds(old(events), old(deadlines), events, deadlines, heap, now);
    }

    /** The bounded sample removes only empty or ownerless buckets; when there are none it changes nothing. */
    method CleanupEmptyBuckets()
      requires |cleanup| <= CLEANUP_WORK
      modifies this`events, this`deadlines, this`cleanup
      ensures |cleanup| <= CLEANUP_WORK && forall k | k in cleanup :: k in old(events) && old(events)[k] != []
      ensures Cleaned(old(events), old(deadlines), old(cleanup), events, deadlines)
    {
      var work, done := if CLEANUP_WORK <= |cleanup| then CLEANUP_WORK else |cleanup|, 0;
      ghost var sample := cleanup;
      while done < work
        invariant done <= work == |sample| && Rotated(cleanup, sample, done, old(events))
        invariant Cleaned(old(events), old(deadlines), sample[..done], events, deadlines)
      {
        RotateOne(cleanup, sample, done, old(events));
        var key := cleanup[0];
        CleanOne(old(events), old(deadlines), sample[..done], events, deadlines, key);
        assert sample[..done + 1] == sample[..done] + [key];
        cleanup := cleanup[1..];
        done := done + 1;
        if key !in events { deadlines := deadlines - {key}; }
        else if events[key] == [] { RemoveBucket(key); }
        else { cleanup := cleanup + [key]; }
      }
      assert sample[..done] == sample;
    }

    /**
      One request. Whatever keys and windows came before, every bucket that stays is non-empty and not yet
      due; and if this key has only ever been used with this window the decision is sound.
     */
    method Allow(key: Key, limit: int, window: int, now: int) returns (ok: bool)
      requires Valid()
      modifies this
      ensures Valid() && ok == Allows(old(Value()), key, limit, window, now)
      ensures Value() == After(old(Value()), key, limit, window, now)
      ensures WindowsOf(windows, key) == {window} ==> Sound(ok, At(old(allowed), key), now, clock, limit, window)
      ensures InFuture(events, deadlines, key, window, now)
    {
      hide AllOk, InHeap, Sound, Allows, QueueFor, Tracked, Cleaned, StateOk, InFuture;
      ghost var st := Value();
      KeysAgree(st);
      LiveKeepsOk(st, key, window, now);
      PurgeExpiredBuckets(now);
      ghost var sample := cleanup;
      CleanupEmptyBuckets();
      LiveNonEmpty(st, now);
      NothingToClean(Live(st, now).events, Live(st, now).deadlines, sample, events, deadlines);
      clock := Max(clock, now);
      ok := Decide(key, limit, window, now, st);
      AfterKeepsOk(st, key, limit, window, now);
      AfterInFuture(st, key, limit, window, now);
      WindowsAfter(st, key, limit, window, now);
      if WindowsOf(windows, key) == {window} { AllowsSound(st, key, limit, window, now); }
    }

    /** The part of a request that looks at its own bucket, once the buckets that are due are gone. */
    method Decide(key: Key, limit: int, window: int, now: int, ghost st: State) returns (ok: bool)
      requires Value() == Live(st, now) && |cleanup| <= CLEANUP_WORK && Tracked(events, deadlines, heap)
      modifies this
      ensures |cleanup| <= CLEANUP_WORK && Tracked(events, deadlines, heap)
      ensures ok == Allows(st, key, limit, window, now) && Value() == After(st, key, limit, window, now)
    {
      hide Pruned, At, Tracked, QueueFor, WindowsOf, DropOld, Live;
      var present := key in events;
      var queue := PruneQueue(At(events, key), now - window);
      QueueIs(st, key, window, now);
      PrunedIsEmpty(queue, events, key, now - window);
      windows := windows[key := WindowsOf(windows, key) + {window}];
      LiveWindows(st, now);
      ok := !(limit <= 0 || (present && |queue| >= limit));
      if ok { Record(key, window, now, queue); } else { KeepOrDrop(key, queue); }
    }

    /** The request is allowed: it joins the queue, and the bucket gets its deadline and a heap entry. */
    method Record(key: Key, window: int, now: int, queue: seq<int>)
      requires |cleanup| <= CLEANUP_WORK && Tracked(events, deadlines, heap)
      modifies this`events, this`deadlines, this`cleanup, this`sequence, this`heap, this`allowed
      ensures |cleanup| <= CLEANUP_WORK && Tracked(events, deadlines, heap)
      ensures Value() == Recorded(old(Value()), key, window, now, queue)
    {
      hide InHeap, At, Tracked;
      RemoveThenSet(deadlines, key, NewDeadline(deadlines, key, queue, window, now));
      if key !in events { cleanup := (if |cleanup| == CLEANUP_WORK then cleanup[1..] else cleanup) + [key]; }
      if queue == [] { deadlines := deadlines - {key}; }
      events := events[key := queue + [now]];
      var due := now + Max(window, 0);
      var deadline := if key in deadlines then Max(deadlines[key], due) else due;
      assert deadline == NewDeadline(old(deadlines), key, queue, window, now);
      deadlines := deadlines[key := deadline];
      assert deadlines == old(deadlines)[key := deadline];
      sequence := sequence + 1;
      heap := heap + {Entry(deadline, sequence, key)};
      allowed := allowed[key := At(allowed, key) + [now]];
      NewEntry(heap, deadline, sequence, key);
      AllowedTracked(old(events), old(deadlines), old(heap), heap, now, key, window, queue);
    }

    /** The request is denied: the pruned queue stays, unless it is empty. */
    method KeepOrDrop(key: Key, queue: seq<int>)
      requires (queue != [] ==> key in events) && Tracked(events, deadlines, heap)
      modifies this`events, this`deadlines
      ensures Tracked(events, deadlines, heap) && Value() == Kept(old(Value()), key, queue)
    {
      hide Tracked;
      if key in events { events := events[key := queue]; }
      if queue == [] { RemoveBucket(key); }
      DropUpdated(old(events), key, queue);
      DeniedTracked(old(events), old(deadlines), heap, key, queue);
    }

    method PruneQueue(before: seq<int>, start: int) returns (queue: seq<int>)
      ensures queue == DropOld(before, start) && Pruned(queue, before, start)
    {
      DropOldPrunes(before, start);
      queue := before;
      while queue != [] && queue[0] < start
        invariant DropOld(queue, start) == DropOld(before, start)
      {
        queue := queue[1..];
      }
    }
  }

  // ----- whole histories

  datatype Request = Request(key: Key, limit: int, window: int, now: int)

  /** A new limiter, made at this time. */
  function Fresh(now: int): State { State(map[], map[], map[], map[], now) }

  function Serve(st: State, r: Request): State { After(st, r.key, r.limit, r.window, r.now) }

  /** The requests in the order in which they took the lock. */
  function Served(made: int, rs: seq<Request>): State {
    if rs == [] then Fresh(made) else Serve(Served(made, rs[..|rs| - 1]), rs[|rs| - 1])
  }

  predicate OneWindow(rs: seq<Request>, key: Key, window: int) {
    forall r | r in rs && r.key == key :: r.window == window
  }

  /** The times of the requests of the key that were allowed, from the decisions alone. */
  function AllowedTimes(made: int, rs: seq<Request>, key: Key): seq<int> {
    if rs == [] then []
    else
      var init, r := rs[..|rs| - 1], rs[|rs| - 1];
      AllowedTimes(made, init, key)
      + if r.key == key && Allows(Served(made, init), key, r.limit, r.window, r.now) then [r.now] else []
  }

  /** The latest time that the limiter has seen. */
  function LastTime(made: int, rs: seq<Request>): int {
    if rs == [] then made else Max(LastTime(made, rs[..|rs| - 1]), rs[|rs| - 1].now)
  }

  lemma AllowedIsRecorded(st: State, r: Request, key: Key)
    ensures At(Serve(st, r).allowed, key) == At(st.allowed, key)
            + if r.key == key && Allows(st, key, r.limit, r.window, r.now) then [r.now] else []
    ensures Serve(st, r).clock == Max(st.clock, r.now)
  {
    hide QueueFor, Allows;
  }

  /** The limiter's own record of what it allowed is that of its decisions. */
  lemma {:induction false} RecordIsAllowed(made: int, rs: seq<Request>, key: Key)
    ensures At(Served(made, rs).allowed, key) == AllowedTimes(made, rs, key)
    ensures Served(made, rs).clock == LastTime(made, rs)
  {
    hide After, At, Serve, Allows;
    if rs == [] { NothingAllowed(made, key); }
    else {
      RecordIsAllowed(made, rs[..|rs| - 1], key);
      AllowedIsRecorded(Served(made, rs[..|rs| - 1]), rs[|rs| - 1], key);
    }
  }

  lemma NothingAllowed(made: int, key: Key)
    ensures At(Fresh(made).allowed, key) == [] && Fresh(made).clock == made
  {
  }

  lemma FreshOk(made: int)
    ensures StateOk(Fresh(made))
  {
  }

  lemma {:induction false} ServedOk(made: int, rs: seq<Request>)
    ensures StateOk(Served(made, rs))
  {
    hide StateOk, After;
    if rs == [] { FreshOk(made); }
    else {
      var r := rs[|rs| - 1];
      ServedOk(made, rs[..|rs| - 1]);
      AfterKeepsOk(Served(made, rs[..|rs| - 1]), r.key, r.limit, r.window, r.now);
    }
  }

  lemma OtherWindows(st: State, r: Request, key: Key)
    requires key != r.key
    ensures WindowsOf(Serve(st, r).windows, key) == WindowsOf(st.windows, key)
  {
    hide QueueFor, Live, Allows;
  }

  lemma {:induction false} ServedWindows(made: int, rs: seq<Request>, key: Key, window: int)
    requires OneWindow(rs, key, window)
    ensures WindowsOf(Served(made, rs).windows, key) <= {window}
  {
    hide After, WindowsOf;
    if rs == [] { NoWindows(made, key); }
    else {
      var init, r := rs[..|rs| - 1], rs[|rs| - 1];
      ServedWindows(made, init, key, window);
      if r.key == key { WindowsAfter(Served(made, init), key, r.limit, window, r.now); }
      else { OtherWindows(Served(made, init), r, key); }
    }
  }

  lemma NoWindows(made: int, key: Key)
    ensures WindowsOf(Fresh(made).windows, key) == {}
  {
  }

  // ----- requests whose time lies behind that of an earlier one

  /** How many of these times lie in the window that ends at `now`. */
  function CountIn(times: seq<int>, start: int, now: int): nat {
    if times == [] then 0 else CountIn(times[1..], start, now) + if start < times[0] <= now then 1 else 0
  }

  lemma {:induction false} CountInAfter(times: seq<int>, start: int, now: int)
    ensures CountIn(times, start, now) <= CountAfter(times, start)
  {
    if times != [] { CountInAfter(times[1..], start, now); }
  }

  /** What the limiter is for: a request is only allowed with fewer than the limit in the window that ends at it. */
  predicate Bounded(made: int, rs: seq<Request>, key: Key, limit: int, window: int, now: int) {
    Allows(Served(made, rs), key, limit, window, now) ==>
      CountIn(AllowedTimes(made, rs, key), now - window, now) < limit
  }

  lemma OnTimeIsBounded(made: int, rs: seq<Request>, key: Key, limit: int, window: int, now: int)
    requires OneWindow(rs, key, window) && LastTime(made, rs) <= now
    ensures Bounded(made, rs, key, limit, window, now)
  {
    hide Allows, After, Served, StateOk, WindowsOf, At, OneWindow, CountIn, CountAfter, LastTime, AllowedTimes;
    var st := Served(made, rs);
    RecordIsAllowed(made, rs, key);
    ServedOk(made, rs);
    ServedWindows(made, rs, key, window);
    AllowsSound(st, key, limit, window, now);
    CountInAfter(At(st.allowed, key), now - window, now);
  }

  function Repeated(x: int, n: nat): seq<int> { seq(n, i => x) }

  function SameRequests(key: Key, limit: int, window: int, x: int, n: nat): seq<Request> {
    seq(n, i => Request(key, limit, window, x))
  }

  /** The state after `n` requests of one key at one time. */
  function Filled(key: Key, window: int, x: int, n: nat): State {
    if n == 0 then Fresh(x)
    else State(map[key := Repeated(x, n)], map[key := x + window], map[key := Repeated(x, n)], map[key := {window}], x)
  }

  lemma FillOne(key: Key, limit: int, window: int, x: int, n: nat)
    requires window >= 1 && n < limit
    ensures After(Filled(key, window, x, n), key, limit, window, x) == Filled(key, window, x, n + 1)
  {
    var st := Filled(key, window, x, n);
    assert Live(st, x) == st;
    assert QueueFor(st, key, window, x) == Repeated(x, n) && At(st.allowed, key) == Repeated(x, n);
    assert Repeated(x, n) + [x] == Repeated(x, n + 1);
    assert WindowsOf(st.windows, key) + {window} == {window};
    assert NewDeadline(st.deadlines, key, Repeated(x, n), window, x) == x + window;
  }

  lemma {:induction false} FillUp(key: Key, limit: int, window: int, x: int, n: nat)
    requires window >= 1 && n <= limit
    ensures Served(x, SameRequests(key, limit, window, x, n)) == Filled(key, window, x, n)
  {
    hide After, Filled;
    if n == 0 { NoneFilled(key, window, x); }
    else {
      FillUp(key, limit, window, x, n - 1);
      var rs := SameRequests(key, limit, window, x, n);
      assert rs[..n - 1] == SameRequests(key, limit, window, x, n - 1);
      FillOne(key, limit, window, x, n - 1);
    }
  }

  lemma NoneFilled(key: Key, window: int, x: int)
    ensures Filled(key, window, x, 0) == Fresh(x)
  {
  }

  /** Another key's request at a later time drops the bucket, and then the key is allowed again at any time. */
  lemma DropBucket(key: Key, other: Key, limit: int, window: int, x: int, latest: int)
    requires window >= 1 && limit >= 1 && other != key && x + window <= latest
    ensures var st := After(Filled(key, window, x, limit), other, 1, 1, latest);
            && st.clock == latest && At(st.allowed, key) == Repeated(x, limit)
            && forall l, w, now | l >= 1 :: Allows(st, key, l, w, now)
  {
  }

  lemma {:induction false} RepeatedIn(x: int, n: nat, start: int, now: int)
    requires start < x <= now
    ensures CountIn(Repeated(x, n), start, now) == n
  {
    if n > 0 {
      assert Repeated(x, n)[1..] == Repeated(x, n - 1);
      RepeatedIn(x, n - 1, start, now);
    }
  }

  /** A history that breaks the bound for a request that comes with an earlier time than the latest. */
  lemma LateBreaksBound(key: Key, limit: int, window: int, now: int, latest: int) returns (made: int, rs: seq<Request>)
    requires limit >= 1 && window >= 1 && now < latest
    ensures OneWindow(rs, key, window) && LastTime(made, rs) == latest
    ensures !Bounded(made, rs, key, limit, window, now)
  {
    hide After, Filled, Allows, Served, At, LastTime, AllowedTimes;
    var x := if now <= latest - window then now else latest - window;
    var other := Key(key.name + "'");
    assert other.name != key.name;
    var first, last := SameRequests(key, limit, window, x, limit), Request(other, 1, 1, latest);
    FillUp(key, limit, window, x, limit);
    DropBucket(key, other, limit, window, x, latest);
    RepeatedIn(x, limit, now - window, now);
    made, rs := x, first + [last];
    ServedSnoc(made, first, last);
    RecordIsAllowed(made, rs, key);
  }

  lemma ServedSnoc(made: int, rs: seq<Request>, r: Request)
    ensures Served(made, rs + [r]) == Serve(Served(made, rs), r)
  {
    assert (rs + [r])[..|rs|] == rs;
  }

  lemma {:induction false} NothingIn(times: seq<int>, start: int, now: int)
    requires start >= now
    ensures CountIn(times, start, now) == 0
  {
    if times != [] { NothingIn(times[1..], start, now); }
  }

  /** A limit or a window below one bounds every request by itself. */
  lemma SmallIsBounded(made: int, rs: seq<Request>, key: Key, limit: int, window: int, now: int)
    requires limit < 1 || window < 1
    ensures Bounded(made, rs, key, limit, window, now)
  {
    hide Served, AllowedTimes, CountIn;
    if window < 1 { NothingIn(AllowedTimes(made, rs, key), now - window, now); }
  }

  /**
    The bound holds for a request at `now`, after every history whose latest time is `latest`, if and only if
    `now` is not earlier than that, or the limit or the window is less than one.
   */
  lemma BoundedIffNotLate(key: Key, limit: int, window: int, now: int, latest: int)
    ensures (forall made, rs | OneWindow(rs, key, window) && LastTime(made, rs) == latest ::
               Bounded(made, rs, key, limit, window, now))
       <==> latest <= now || limit < 1 || window < 1
  {
    hide Bounded, LastTime;
    if latest <= now || limit < 1 || window < 1 {
      forall made, rs | OneWindow(rs, key, window) && LastTime(made, rs) == latest
        ensures Bounded(made, rs, key, limit, window, now)
      {
        if latest <= now { OnTimeIsBounded(made, rs, key, limit, window, now); }
        else { SmallIsBounded(made, rs, key, limit, window, now); }
      }
    } else {
      var made, rs := LateBreaksBound(key, limit, window, now, latest);
      assert OneWindow(rs, key, window) && LastTime(made, rs) == latest;
    }
  }

  // ----- requests in order

  /** No request comes with an earlier time than one before it, or than that at which the limiter was made. */
  predicate InOrder(made: int, rs: seq<Request>) {
    && (forall i | 0 <= i < |rs| :: made <= rs[i].now)
    && forall i, j | 0 <= i < j < |rs| :: rs[i].now <= rs[j].now
  }

  lemma InOrderEnds(made: int, rs: seq<Request>)
    requires InOrder(made, rs) && rs != []
    ensures InOrder(made, rs[..|rs| - 1]) && LastTime(made, rs[..|rs| - 1]) <= rs[|rs| - 1].now
  {
    var init := rs[..|rs| - 1];
    if init != [] { InOrderEnds(made, init); }
  }

  lemma AllowedBefore(st: State, key: Key)
    requires StateOk(st)
    ensures forall i | 0 <= i < |At(st.allowed, key)| :: At(st.allowed, key)[i] <= st.clock
  {
    hide BucketOk;
    BucketOf(st.events, st.deadlines, st.allowed, st.windows, st.clock, key);
    BucketBefore(st.events, st.deadlines, At(st.allowed, key), WindowsOf(st.windows, key), st.clock, key);
  }

  lemma BucketBefore(events: map<Key, seq<int>>, deadlines: map<Key, int>, allowed: seq<int>, windows: set<int>,
                     clock: int, k: Key)
    requires BucketOk(events, deadlines, allowed, windows, clock, k)
    ensures forall i | 0 <= i < |allowed| :: allowed[i] <= clock
  {
  }

  lemma {:induction false} AllowedInOrder(made: int, rs: seq<Request>, key: Key)
    requires InOrder(made, rs)
    ensures OutOfOrderBy(AllowedTimes(made, rs, key), 0)
  {
    hide After, At, Serve, Allows, LastTime, InOrder;
    if rs != [] {
      var init, r := rs[..|rs| - 1], rs[|rs| - 1];
      InOrderEnds(made, rs);
      AllowedInOrder(made, init, key);
      ServedOk(made, init);
      AllowedBefore(Served(made, init), key);
      RecordIsAllowed(made, init, key);
    }
  }

  /**
    After every history in order a request that is in order too is allowed only with fewer than the limit in the
    window before it, and denied only with at least the limit in the closed window.
   */
  lemma InOrderIsExact(made: int, rs: seq<Request>, key: Key, limit: int, window: int, now: int)
    requires OneWindow(rs, key, window) && InOrder(made, rs) && LastTime(made, rs) <= now
    ensures var times := AllowedTimes(made, rs, key);
            if Allows(Served(made, rs), key, limit, window, now) then CountAfter(times, now - window) < limit
            else limit <= 0 || CountFrom(times, now - window) >= limit
  {
    hide Allows, After, Served, AllowedTimes, LastTime;
    ServedOk(made, rs);
    ServedWindows(made, rs, key, window);
    RecordIsAllowed(made, rs, key);
    AllowedInOrder(made, rs, key);
    AllowsSound(Served(made, rs), key, limit, window, now);
    assert now - window - 0 == now - window;
  }
}
