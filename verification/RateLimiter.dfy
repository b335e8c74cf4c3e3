/** The fixed-window rate limiter of the HTTP server: one bucket for each client and route. */
module RateLimiter {

  datatype Bucket = Bucket(count: nat, resetsAt: int)

  type Buckets = map<string, Bucket>

  /** A refused request is told how many seconds to wait. */
  datatype Answer = Accepted | Refused(retryAfter: nat)

  datatype Request = Request(key: string, at: int)

  function Max(a: int, b: int): int {
    if a >= b then a else b
  }

  /** `Math.ceil(ms / 1000)` of a positive number, and one second at least. */
  function RetryAfter(ms: nat): nat {
    Max(1, (ms + 999) / 1000)
  }

  /** There is no bucket, or its window has passed. */
  predicate Opens(buckets: Buckets, r: Request) {
    r.key !in buckets || buckets[r.key].resetsAt <= r.at
  }

  function AnswerTo(buckets: Buckets, r: Request, limit: int): Answer {
    if !Opens(buckets, r) && buckets[r.key].count >= limit then Refused(RetryAfter(buckets[r.key].resetsAt - r.at))
    else Accepted
  }

  function After(buckets: Buckets, r: Request, limit: int, windowMs: nat): Buckets {
    if Opens(buckets, r) then buckets[r.key := Bucket(1, r.at + windowMs)]
    else if AnswerTo(buckets, r, limit).Refused? then buckets
    else buckets[r.key := buckets[r.key].(count := buckets[r.key].count + 1)]
  }

  class Limiter {
    const limit: int
    const windowMs: nat
    var buckets: Buckets

    constructor (limit: int, windowMs: nat)
      ensures this.limit == limit && this.windowMs == windowMs && buckets == map[]
    {
      this.limit, this.windowMs, buckets := limit, windowMs, map[];
    }

    method Admit(key: string, now: int) returns (answer: Answer)
      modifies this`buckets
      ensures answer == AnswerTo(old(buckets), Request(key, now), limit)
      ensures buckets == After(old(buckets), Request(key, now), limit, windowMs)
    {
      if key !in buckets || buckets[key].resetsAt <= now {
        buckets := buckets[key := Bucket(1, now + windowMs)];
        return Accepted;
      }
      var bucket := buckets[key];
      if bucket.count >= limit {
        return Refused(RetryAfter(bucket.resetsAt - now));
      }
      buckets := buckets[key := bucket.(count := bucket.count + 1)];
      return Accepted;
    }
  }

  // ---- histories ----

  /** What has happened: the buckets, the accepted requests, and those that opened a window. */
  datatype History = History(buckets: Buckets, accepted: seq<Request>, openers: seq<Request>)

  function Next(h: History, r: Request, limit: int, windowMs: nat): History {
    History(
      After(h.buckets, r, limit, windowMs),
      h.accepted + if AnswerTo(h.buckets, r, limit).Accepted? then [r] else [],
      h.openers + if Opens(h.buckets, r) then [r] else [])
  }

  function HistoryOf(requests: seq<Request>, limit: int, windowMs: nat): History {
    if requests == [] then History(map[], [], [])
    else Next(HistoryOf(requests[..|requests| - 1], limit, windowMs), requests[|requests| - 1], limit, windowMs)
  }

  /** The clock does not go back. */
  predicate InTime(requests: seq<Request>) {
    forall i, j :: 0 <= i < j < |requests| ==> requests[i].at <= requests[j].at
  }

  /** How many of the requests of a key lie in the window that begins at `from`. */
  function Count(requests: seq<Request>, key: string, from: int, windowMs: nat): nat {
    if requests == [] then 0
    else
      var last := requests[|requests| - 1];
      Count(requests[..|requests| - 1], key, from, windowMs)
      + if last.key == key && from <= last.at < from + windowMs then 1 else 0
  }

  function Limit(limit: int): nat {
    Max(1, limit)
  }

  /** How much a window from `a` can hold, when the latest window of the limiter began at `start`. */
  function AtMost(a: int, start: int, count: nat, windowMs: nat, limit: int): int {
    if a >= start + windowMs then 0
    else if a > start then count - 1
    else if a == start then count
    else if a + windowMs > start then Limit(limit) - 1 + count
    else 2 * Limit(limit) - 1
  }

  ghost predicate CountsBounded(accepted: seq<Request>, key: string, start: int, count: nat, limit: int,
      windowMs: nat) {
    forall a :: Count(accepted, key, a, windowMs) <= AtMost(a, start, count, windowMs, limit)
  }

  /** Every window that was opened holds at most the limit, and is over when the next begins. */
  ghost predicate OpenersBounded(h: History, key: string, start: int, limit: int, windowMs: nat) {
    forall r :: r in h.openers && r.key == key ==>
      && Count(h.accepted, key, r.at, windowMs) <= Limit(limit)
      && (r.at == start || r.at + windowMs <= start)
  }

  /** What is known of the accepted requests of a key whose window began at `start` and holds `count`. */
  ghost predicate Bounded(h: History, key: string, limit: int, windowMs: nat, now: int)
    requires key in h.buckets
  {
    var b := h.buckets[key];
    var start := b.resetsAt - windowMs;
    && start <= now
    && 1 <= b.count <= Limit(limit)
    && (windowMs > 0 ==> Count(h.accepted, key, start, windowMs) == b.count)
    && CountsBounded(h.accepted, key, start, b.count, limit, windowMs)
    && OpenersBounded(h, key, start, limit, windowMs)
  }

  ghost predicate Untouched(h: History, key: string, windowMs: nat) {
    && (forall a :: Count(h.accepted, key, a, windowMs) == 0)
    && (forall r :: r in h.openers ==> r.key != key)
  }

  ghost predicate Inv(h: History, limit: int, windowMs: nat, now: int) {
    forall key :: if key in h.buckets then Bounded(h, key, limit, windowMs, now) else Untouched(h, key, windowMs)
  }

  lemma CountNext(requests: seq<Request>, r: Request, key: string, from: int, windowMs: nat)
    ensures Count(requests + [r], key, from, windowMs) ==
            Count(requests, key, from, windowMs) + if r.key == key && from <= r.at < from + windowMs then 1 else 0
  {
    assert (requests + [r])[..|requests|] == requests;
  }

  lemma CountsNext(requests: seq<Request>, r: Request, key: string, windowMs: nat)
    ensures forall a :: Count(requests + [r], key, a, windowMs) ==
                        Count(requests, key, a, windowMs) + if r.key == key && a <= r.at < a + windowMs then 1 else 0
  {
    forall a ensures Count(requests + [r], key, a, windowMs) ==
      Count(requests, key, a, windowMs) + if r.key == key && a <= r.at < a + windowMs then 1 else 0 {
      CountNext(requests, r, key, a, windowMs);
    }
  }

  lemma FirstOpeningKeeps(h: History, r: Request, limit: int, windowMs: nat)
    requires r.key !in h.buckets && Untouched(h, r.key, windowMs)
    ensures Bounded(Next(h, r, limit, windowMs), r.key, limit, windowMs, r.at)
  {
    CountsNext(h.accepted, r, r.key, windowMs);
  }

  lemma OpeningKeepsCounts(accepted: seq<Request>, r: Request, start: int, count: nat, limit: int, windowMs: nat)
    requires CountsBounded(accepted, r.key, start, count, limit, windowMs)
    requires start + windowMs <= r.at && 1 <= count <= Limit(limit)
    ensures CountsBounded(accepted + [r], r.key, r.at, 1, limit, windowMs)
    ensures Count(accepted, r.key, r.at, windowMs) == 0
  {
    CountsNext(accepted, r, r.key, windowMs);
  }

  lemma OpeningKeeps(h: History, r: Request, limit: int, windowMs: nat, now: int)
    requires r.key in h.buckets && Bounded(h, r.key, limit, windowMs, now) && now <= r.at && Opens(h.buckets, r)
    ensures Bounded(Next(h, r, limit, windowMs), r.key, limit, windowMs, r.at)
  {
    var b := h.buckets[r.key];
    OpeningKeepsCounts(h.accepted, r, b.resetsAt - windowMs, b.count, limit, windowMs);
    forall q | q in h.openers && q.key == r.key
      ensures Count(h.accepted + [r], r.key, q.at, windowMs) <= Limit(limit) && q.at + windowMs <= r.at {
      CountNext(h.accepted, r, r.key, q.at, windowMs);
    }
    CountNext(h.accepted, r, r.key, r.at, windowMs);
  }

  lemma CountingKeeps(h: History, r: Request, limit: int, windowMs: nat, now: int)
    requires !Opens(h.buckets, r) && AnswerTo(h.buckets, r, limit).Accepted?
    requires Bounded(h, r.key, limit, windowMs, now) && now <= r.at
    ensures Bounded(Next(h, r, limit, windowMs), r.key, limit, windowMs, r.at)
  {
    CountsNext(h.accepted, r, r.key, windowMs);
  }

  lemma LaterStill(h: History, limit: int, windowMs: nat, now: int, later: int)
    requires Inv(h, limit, windowMs, now) && now <= later
    ensures Inv(h, limit, windowMs, later)
  {
    forall key ensures if key in h.buckets then Bounded(h, key, limit, windowMs, later)
        else Untouched(h, key, windowMs) {
      assert if key in h.buckets then Bounded(h, key, limit, windowMs, now) else Untouched(h, key, windowMs);
    }
  }

  /** The two histories agree on a key. */
  ghost predicate Agree(h: History, t: History, key: string, windowMs: nat) {
    && (forall a :: Count(t.accepted, key, a, windowMs) == Count(h.accepted, key, a, windowMs))
    && (forall q :: q in t.openers && q.key == key ==> q in h.openers)
    && (if key in h.buckets then key in t.buckets && t.buckets[key] == h.buckets[key] else key !in t.buckets)
  }

  lemma AgreeingKeeps(h: History, t: History, key: string, limit: int, windowMs: nat, now: int, later: int)
    requires Agree(h, t, key, windowMs) && now <= later
    requires if key in h.buckets then Bounded(h, key, limit, windowMs, now) else Untouched(h, key, windowMs)
    ensures if key in t.buckets then Bounded(t, key, limit, windowMs, later) else Untouched(t, key, windowMs)
  {
  }

  /** A request changes nothing for the other keys. */
  lemma OthersKeep(h: History, r: Request, limit: int, windowMs: nat, key: string)
    requires key != r.key
    ensures Agree(h, Next(h, r, limit, windowMs), key, windowMs)
  {
    CountsNext(h.accepted, r, key, windowMs);
    assert h.accepted + [] == h.accepted;
  }

  lemma NextKeeps(h: History, r: Request, limit: int, windowMs: nat, now: int)
    requires Inv(h, limit, windowMs, now) && now <= r.at
    ensures Inv(Next(h, r, limit, windowMs), limit, windowMs, r.at)
  {
    var t := Next(h, r, limit, windowMs);
    if AnswerTo(h.buckets, r, limit).Refused? {
      assert t == h;
      LaterStill(h, limit, windowMs, now, r.at);
    } else {
      forall key ensures if key in t.buckets then Bounded(t, key, limit, windowMs, r.at)
          else Untouched(t, key, windowMs) {
        if key != r.key {
          OthersKeep(h, r, limit, windowMs, key);
          AgreeingKeeps(h, t, key, limit, windowMs, now, r.at);
        } else if key !in h.buckets {
          FirstOpeningKeeps(h, r, limit, windowMs);
        } else if Opens(h.buckets, r) {
          OpeningKeeps(h, r, limit, windowMs, now);
        } else {
          CountingKeeps(h, r, limit, windowMs, now);
        }
      }
    }
  }

  lemma {:induction false} HistoryKeeps(requests: seq<Request>, limit: int, windowMs: nat, now: int)
    requires InTime(requests) && (requests == [] || requests[|requests| - 1].at <= now)
    ensures Inv(HistoryOf(requests, limit, windowMs), limit, windowMs, now)
  {
    if requests != [] {
      var rest, last := requests[..|requests| - 1], requests[|requests| - 1];
      HistoryKeeps(rest, limit, windowMs, last.at);
      NextKeeps(HistoryOf(rest, limit, windowMs), last, limit, windowMs, last.at);
      LaterStill(HistoryOf(requests, limit, windowMs), limit, windowMs, last.at, now);
    }
  }

  lemma KeyOf(requests: seq<Request>, limit: int, windowMs: nat, now: int, key: string)
    requires InTime(requests) && (requests == [] || requests[|requests| - 1].at <= now)
    ensures var h := HistoryOf(requests, limit, windowMs);
            if key in h.buckets then Bounded(h, key, limit, windowMs, now) else Untouched(h, key, windowMs)
  {
    HistoryKeeps(requests, limit, windowMs, now);
  }

  lemma InTimePrefix(requests: seq<Request>, r: Request)
    requires InTime(requests + [r])
    ensures InTime(requests) && (requests == [] || requests[|requests| - 1].at <= r.at)
  {
    var all := requests + [r];
    forall i, j | 0 <= i < j < |requests| ensures requests[i].at <= requests[j].at {
      assert all[i].at <= all[j].at;
    }
    assert requests != [] ==> all[|requests| - 1].at <= all[|requests|].at;
  }

  // ---- theorems ----

  /** The latest time of a sequence of requests. */
  function Now(requests: seq<Request>): int {
    if requests == [] then 0 else requests[|requests| - 1].at
  }

  /** Any half-open interval as long as the window holds fewer than twice the limit of accepted requests of a
      key; a limit below one works as one. */
  lemma AnyIntervalIsBounded(requests: seq<Request>, limit: int, windowMs: nat, key: string, from: int)
    requires InTime(requests)
    ensures Count(HistoryOf(requests, limit, windowMs).accepted, key, from, windowMs) < 2 * Limit(limit)
  {
    KeyOf(requests, limit, windowMs, Now(requests), key);
  }

  /** A window that the limiter opened holds at most the limit, however the history goes on. */
  lemma OpenedWindowsAreBounded(requests: seq<Request>, limit: int, windowMs: nat, opener: Request)
    requires InTime(requests) && opener in HistoryOf(requests, limit, windowMs).openers
    ensures Count(HistoryOf(requests, limit, windowMs).accepted, opener.key, opener.at, windowMs) <= Limit(limit)
  {
    KeyOf(requests, limit, windowMs, Now(requests), opener.key);
  }

  /** Every bucket counts a window that an accepted request opened. */
  ghost predicate WindowsAreOpened(h: History, windowMs: nat) {
    && (forall key :: key in h.buckets ==> WasOpened(h, key, h.buckets[key].resetsAt - windowMs))
    && (forall q :: q in h.openers ==> q in h.accepted)
  }

  predicate WasOpened(h: History, key: string, start: int) {
    exists q :: q in h.openers && q.key == key && q.at == start
  }

  lemma {:induction false} HistoryOpensWindows(requests: seq<Request>, limit: int, windowMs: nat)
    ensures WindowsAreOpened(HistoryOf(requests, limit, windowMs), windowMs)
  {
    if requests != [] {
      var rest, last := requests[..|requests| - 1], requests[|requests| - 1];
      HistoryOpensWindows(rest, limit, windowMs);
      NextOpensWindows(HistoryOf(rest, limit, windowMs), last, limit, windowMs);
    }
  }

  lemma NextOpensWindows(h: History, r: Request, limit: int, windowMs: nat)
    requires WindowsAreOpened(h, windowMs)
    ensures WindowsAreOpened(Next(h, r, limit, windowMs), windowMs)
  {
    var t := Next(h, r, limit, windowMs);
    assert forall q :: q in h.openers ==> q in t.openers;
    assert Opens(h.buckets, r) ==> t.openers[|h.openers|] == r;
    forall key | key in t.buckets ensures WasOpened(t, key, t.buckets[key].resetsAt - windowMs) {
      assert key in h.buckets ==> WasOpened(h, key, h.buckets[key].resetsAt - windowMs);
    }
  }

  /** An opened window that holds the request and is full. */
  ghost predicate FullWindow(h: History, r: Request, limit: int, windowMs: nat, opener: Request) {
    && opener in h.openers && opener.key == r.key && opener.at <= r.at < opener.at + windowMs
    && Count(h.accepted, r.key, opener.at, windowMs) == Limit(limit)
  }

  /** A request is refused exactly if it falls into a window that was opened for its key and is full. */
  lemma RefusedIffFull(requests: seq<Request>, limit: int, windowMs: nat, r: Request)
    requires InTime(requests + [r])
    ensures var h := HistoryOf(requests, limit, windowMs);
            AnswerTo(h.buckets, r, limit).Refused? <==> exists q :: FullWindow(h, r, limit, windowMs, q)
  {
    var h := HistoryOf(requests, limit, windowMs);
    InTimePrefix(requests, r);
    KeyOf(requests, limit, windowMs, r.at, r.key);
    HistoryOpensWindows(requests, limit, windowMs);
    if AnswerTo(h.buckets, r, limit).Refused? { var q := FullBucket(h, r, limit, windowMs); }
    if q :| FullWindow(h, r, limit, windowMs, q) { FullIsRefused(h, r, limit, windowMs, q); }
  }

  lemma FullBucket(h: History, r: Request, limit: int, windowMs: nat) returns (q: Request)
    requires AnswerTo(h.buckets, r, limit).Refused? && Bounded(h, r.key, limit, windowMs, r.at)
    requires WasOpened(h, r.key, h.buckets[r.key].resetsAt - windowMs)
    ensures FullWindow(h, r, limit, windowMs, q)
  {
    q :| q in h.openers && q.key == r.key && q.at == h.buckets[r.key].resetsAt - windowMs;
  }

  lemma FullIsRefused(h: History, r: Request, limit: int, windowMs: nat, q: Request)
    requires if r.key in h.buckets then Bounded(h, r.key, limit, windowMs, r.at) else Untouched(h, r.key, windowMs)
    requires FullWindow(h, r, limit, windowMs, q)
    ensures AnswerTo(h.buckets, r, limit).Refused?
  {
    assert q.at == h.buckets[r.key].resetsAt - windowMs;
  }

  /** Nobody is refused too early: when a request is refused, at least as many requests of its key as the limit
      allows were accepted in some window that holds the moment of the refusal. */
  lemma RefusedOnlyWhenFull(requests: seq<Request>, limit: int, windowMs: nat, r: Request)
    requires InTime(requests + [r]) && AnswerTo(HistoryOf(requests, limit, windowMs).buckets, r, limit).Refused?
    ensures exists from :: from <= r.at < from + windowMs
                           && Count(HistoryOf(requests, limit, windowMs).accepted, r.key, from, windowMs)
                               == Limit(limit)
  {
    var h := HistoryOf(requests, limit, windowMs);
    RefusedIffFull(requests, limit, windowMs, r);
    var q :| FullWindow(h, r, limit, windowMs, q);
    assert Count(h.accepted, r.key, q.at, windowMs) == Limit(limit);
  }

  lemma {:induction false} CountedIsPositive(requests: seq<Request>, r: Request, key: string, from: int, windowMs: nat)
    requires r in requests && r.key == key && from <= r.at < from + windowMs
    ensures Count(requests, key, from, windowMs) > 0
  {
    var last := requests[|requests| - 1];
    if r != last {
      assert requests == requests[..|requests| - 1] + [last];
      CountedIsPositive(requests[..|requests| - 1], r, key, from, windowMs);
    }
  }

  /** Whoever has not been served for the length of a window is served, whatever the limit and the other clients. */
  lemma AcceptedAfterQuiet(requests: seq<Request>, limit: int, windowMs: nat, r: Request)
    requires InTime(requests + [r])
    requires Count(HistoryOf(requests, limit, windowMs).accepted, r.key, r.at - windowMs + 1, windowMs) == 0
    ensures AnswerTo(HistoryOf(requests, limit, windowMs).buckets, r, limit) == Accepted
  {
    var h := HistoryOf(requests, limit, windowMs);
    RefusedIffFull(requests, limit, windowMs, r);
    HistoryOpensWindows(requests, limit, windowMs);
    if q :| FullWindow(h, r, limit, windowMs, q) {
      CountedIsPositive(h.accepted, q, r.key, r.at - windowMs + 1, windowMs);
    }
  }

  /** Who is refused, waits as long as told, and is alone in asking, is then accepted; and a second less would
      not do, unless the answer was one second. */
  lemma WaitingIsEnough(buckets: Buckets, r: Request, limit: int, windowMs: nat, later: Request)
    requires AnswerTo(buckets, r, limit).Refused? && later.key == r.key && r.at <= later.at
    ensures var wait := AnswerTo(buckets, r, limit).retryAfter;
            && (later.at >= r.at + 1000 * wait
                ==> AnswerTo(After(buckets, r, limit, windowMs), later, limit) == Accepted)
            && (wait > 1 && later.at <= r.at + 1000 * (wait - 1) ==>
                  AnswerTo(After(buckets, r, limit, windowMs), later, limit).Refused?)
  {
    var ms := buckets[r.key].resetsAt - r.at;
    assert ms + 999 == 1000 * ((ms + 999) / 1000) + (ms + 999) % 1000;
  }

  /** Four requests of one client around the end of its first window. */
  const BURST := [Request("k", 0), Request("k", 9), Request("k", 10), Request("k", 11)]

  lemma AllFourAreAccepted()
    ensures HistoryOf(BURST, 2, 10).accepted == BURST
  {
    var a, b, c, d := BURST[0], BURST[1], BURST[2], BURST[3];
    HistoryNext([], a, 2, 10);
    HistoryNext([a], b, 2, 10);
    HistoryNext([a, b], c, 2, 10);
    HistoryNext([a, b, c], d, 2, 10);
    assert [] + [a] == [a] && [a] + [b] == [a, b] && [a, b] + [c] == [a, b, c] && [a, b, c] + [d] == BURST;
    assert HistoryOf([a], 2, 10).accepted == [a];
    assert HistoryOf([a, b], 2, 10).accepted == [a, b];
  }

  function One(r: Request, key: string, from: int, windowMs: nat): nat {
    if r.key == key && from <= r.at < from + windowMs then 1 else 0
  }

  lemma CountOfFour(a: Request, b: Request, c: Request, d: Request, key: string, from: int, windowMs: nat)
    ensures Count([a, b, c, d], key, from, windowMs) ==
            One(a, key, from, windowMs) + One(b, key, from, windowMs) + One(c, key, from, windowMs)
              + One(d, key, from, windowMs)
  {
    CountNext([], a, key, from, windowMs);
    CountNext([a], b, key, from, windowMs);
    CountNext([a, b], c, key, from, windowMs);
    CountNext([a, b, c], d, key, from, windowMs);
    assert [] + [a] == [a] && [a] + [b] == [a, b] && [a, b] + [c] == [a, b, c] && [a, b, c] + [d] == [a, b, c, d];
  }

  /** The bound is met: with a limit of two, three requests within one window's length can be accepted. */
  lemma TheBoundIsMet()
    ensures InTime(BURST) && Count(HistoryOf(BURST, 2, 10).accepted, "k", 9, 10) == 3
  {
    AllFourAreAccepted();
    CountOfFour(BURST[0], BURST[1], BURST[2], BURST[3], "k", 9, 10);
  }

  lemma HistoryNext(requests: seq<Request>, r: Request, limit: int, windowMs: nat)
    ensures HistoryOf(requests + [r], limit, windowMs) == Next(HistoryOf(requests, limit, windowMs), r, limit, windowMs)
  {
    assert (requests + [r])[..|requests|] == requests;
  }
}
