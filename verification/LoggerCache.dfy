/** The per-session logger cache: an ordered dictionary of at most 200 loggers with least recently
    used eviction. */
module LoggerCache {

  const MAX_LOGGERS: nat := 200

  function Remove(s: seq<string>, x: string): seq<string>
  {
    if s == [] then [] else Remove(s[..|s| - 1], x) + if s[|s| - 1] == x then [] else [s[|s| - 1]]
  }

  /** The distinct sessions of a history, by most recent access, the latest last. */
  function ByRecency(history: seq<string>): seq<string>
  {
    if history == [] then []
    else Remove(ByRecency(history[..|history| - 1]), history[|history| - 1]) + [history[|history| - 1]]
  }

  function Newest(s: seq<string>, n: nat): seq<string>
  {
    if |s| <= n then s else s[|s| - n..]
  }

  // The cache after one access
  function Touch(cache: seq<string>, id: string): seq<string>
  {
    if id in cache then Remove(cache, id) + [id]
    else (if |cache| >= MAX_LOGGERS then cache[1..] else cache) + [id]
  }

  ghost predicate Distinct(s: seq<string>)
  {
    forall i, j :: 0 <= i < j < |s| ==> s[i] != s[j]
  }

  lemma {:induction false} RemoveFacts(s: seq<string>, x: string)
    requires Distinct(s)
    ensures Distinct(Remove(s, x))
    ensures forall y :: y in Remove(s, x) <==> y in s && y != x
    ensures |Remove(s, x)| == if x in s then |s| - 1 else |s|
  {
    if s != [] {
      var front, last := s[..|s| - 1], s[|s| - 1];
      assert s == front + [last];
      RemoveFacts(front, x);
      assert last !in front;
    }
  }

  lemma {:induction false} RemoveAppend(a: seq<string>, b: seq<string>, x: string)
    ensures Remove(a + b, x) == Remove(a, x) + Remove(b, x)
  {
    if b == [] {
      assert a + b == a;
    } else {
      assert (a + b)[..|a + b| - 1] == a + b[..|b| - 1];
      RemoveAppend(a, b[..|b| - 1], x);
    }
  }

  lemma {:induction false} RemoveAbsent(s: seq<string>, x: string)
    requires x !in s
    ensures Remove(s, x) == s
  {
    if s != [] {
      assert s == s[..|s| - 1] + [s[|s| - 1]];
      RemoveAbsent(s[..|s| - 1], x);
    }
  }

  // -------------------------------------------------------------------------
  // What the recency order is
  // -------------------------------------------------------------------------

  // Position of the last access to x, or -1
  function LastAccess(history: seq<string>, x: string): (i: int)
    ensures -1 <= i < |history|
    ensures i >= 0 ==> history[i] == x
    ensures forall j :: i < j < |history| ==> history[j] != x
  {
    if history == [] then -1
    else if history[|history| - 1] == x then |history| - 1
    else LastAccess(history[..|history| - 1], x)
  }

  // The sessions stand in the order of their last accesses
  ghost predicate InOrder(s: seq<string>, h: seq<string>)
  {
    forall i, j :: 0 <= i < j < |s| ==> LastAccess(h, s[i]) < LastAccess(h, s[j])
  }

  lemma InOrderAppend(s: seq<string>, last: string, h: seq<string>)
    requires InOrder(s, h) && forall y :: y in s ==> LastAccess(h, y) < LastAccess(h, last)
    ensures InOrder(s + [last], h)
  {
    hide LastAccess;
  }

  lemma InOrderFront(s: seq<string>, h: seq<string>)
    requires InOrder(s, h) && s != []
    ensures InOrder(s[..|s| - 1], h)
    ensures forall y :: y in s[..|s| - 1] ==> LastAccess(h, y) < LastAccess(h, s[|s| - 1])
  {
    hide LastAccess;
  }

  lemma EmptyInOrder(h: seq<string>)
    ensures InOrder([], h)
  {
  }

  lemma {:induction false} RemoveKeepsOrder(s: seq<string>, x: string, h: seq<string>)
    requires InOrder(s, h)
    ensures InOrder(Remove(s, x), h)
    ensures forall y :: y in Remove(s, x) ==> y in s && y != x
  {
    hide LastAccess, InOrder;
    if s == [] {
      EmptyInOrder(h);
    } else {
      var front, last := s[..|s| - 1], s[|s| - 1];
      InOrderFront(s, h);
      RemoveKeepsOrder(front, x, h);
      if last != x {
        InOrderAppend(Remove(front, x), last, h);
      } else {
        assert Remove(s, x) == Remove(front, x);
      }
    }
  }

  lemma OrderedAppend(s: seq<string>, last: string, front: seq<string>, history: seq<string>)
    requires forall i, j :: 0 <= i < j < |s| ==> LastAccess(front, s[i]) < LastAccess(front, s[j])
    requires forall y :: y in s ==> LastAccess(history, y) == LastAccess(front, y) < |history| - 1
    requires history != [] && history[|history| - 1] == last
    ensures forall i, j :: 0 <= i < j < |s + [last]| ==>
      LastAccess(history, (s + [last])[i]) < LastAccess(history, (s + [last])[j])
  {
    var all := s + [last];
    assert LastAccess(history, last) == |history| - 1;
    hide LastAccess;
    forall i, j | 0 <= i < j < |all| ensures LastAccess(history, all[i]) < LastAccess(history, all[j]) {
      assert all[i] in s;
      if j < |s| {
        assert all[j] in s;
      }
    }
  }

  /** The recency list holds each session of the history once, in the order of last access. */
  lemma {:induction false} RecencyOrder(history: seq<string>)
    ensures Distinct(ByRecency(history))
    ensures forall x :: x in ByRecency(history) <==> x in history
    ensures forall i, j :: 0 <= i < j < |ByRecency(history)| ==>
      LastAccess(history, ByRecency(history)[i]) < LastAccess(history, ByRecency(history)[j])
  {
    if history != [] {
      var front, last := history[..|history| - 1], history[|history| - 1];
      assert history == front + [last];
      var before := ByRecency(front);
      RecencyOrder(front);
      RemoveFacts(before, last);
      RemoveKeepsOrder(before, last, front);
      forall y | y in Remove(before, last) ensures LastAccess(history, y) == LastAccess(front, y) < |history| - 1 {
      }
      hide LastAccess, Remove;
      OrderedAppend(Remove(before, last), last, front, history);
    }
  }

  // -------------------------------------------------------------------------
  // The cache follows the history
  // -------------------------------------------------------------------------

  // A full cache's worth at the end hides what comes before it
  lemma NewestOfAll(older: seq<string>, end: seq<string>)
    requires |end| == MAX_LOGGERS || (|end| < MAX_LOGGERS && older == [])
    ensures Newest(older + end, MAX_LOGGERS) == end
  {
  }

  lemma HitNewest(older: seq<string>, cache: seq<string>, rest: seq<string>, id: string)
    requires |rest| == |cache| - 1 && |cache| <= MAX_LOGGERS && (|cache| < MAX_LOGGERS ==> older == [])
    ensures Newest(older + rest + [id], MAX_LOGGERS) == rest + [id]
  {
    assert older + rest + [id] == older + (rest + [id]);
    NewestOfAll(older, rest + [id]);
  }

  lemma MissNewest(older: seq<string>, cache: seq<string>, id: string)
    requires |cache| <= MAX_LOGGERS && (|cache| < MAX_LOGGERS ==> older == [])
    ensures Newest(older + cache + [id], MAX_LOGGERS)
      == (if |cache| >= MAX_LOGGERS then cache[1..] else cache) + [id]
  {
    if |cache| >= MAX_LOGGERS {
      assert older + cache + [id] == (older + cache[..1]) + (cache[1..] + [id]);
      NewestOfAll(older + cache[..1], cache[1..] + [id]);
    } else {
      assert older + cache + [id] == cache + [id];
      NewestOfAll([], cache + [id]);
      assert [] + (cache + [id]) == cache + [id];
    }
  }

  lemma RemoveNothing(x: string)
    ensures Remove([], x) == []
  {
  }

  lemma NotBefore(s: seq<string>, n: nat)
    requires Distinct(s) && n <= |s|
    ensures Distinct(s[n..])
    ensures forall x :: x in s[n..] ==> x !in s[..n]
  {
  }

  // One access, on the full recency list and on its newest part
  lemma TouchNewest(s: seq<string>, id: string)
    requires Distinct(s)
    ensures Touch(Newest(s, MAX_LOGGERS), id) == Newest(Remove(s, id) + [id], MAX_LOGGERS)
  {
    var cache := Newest(s, MAX_LOGGERS);
    var older := s[..|s| - |cache|];
    assert s == older + cache;
    RemoveAppend(older, cache, id);
    NotBefore(s, |older|);
    if id in cache {
      RemoveAbsent(older, id);
      RemoveFacts(cache, id);
      HitNewest(older, cache, Remove(cache, id), id);
    } else {
      RemoveAbsent(cache, id);
      RemoveNothing(id);
      MissNewest(Remove(older, id), cache, id);
    }
  }

  function Run(history: seq<string>): seq<string>
  {
    if history == [] then [] else Touch(Run(history[..|history| - 1]), history[|history| - 1])
  }

  /** After any sequence of accesses the cache holds, in order, exactly the 200 (or fewer) distinct
      sessions that were accessed last. */
  lemma {:induction false} CacheIsNewest(history: seq<string>)
    ensures Run(history) == Newest(ByRecency(history), 200)
  {
    if history != [] {
      var front := history[..|history| - 1];
      CacheIsNewest(front);
      RecencyOrder(front);
      TouchNewest(ByRecency(front), history[|history| - 1]);
    }
  }

  // -------------------------------------------------------------------------
  // get_logger
  // -------------------------------------------------------------------------

  lemma FirstOnce(s: seq<string>)
    requires Distinct(s)
    ensures s != [] ==> forall x :: x in s[1..] <==> x in s && x != s[0]
  {
    if s != [] {
      assert s == [s[0]] + s[1..];
    }
  }

  lemma NewestDistinct(s: seq<string>, n: nat)
    requires Distinct(s)
    ensures Distinct(Newest(s, n)) && |Newest(s, n)| <= n
  {
  }

  // One access as the recency list sees it
  lemma AccessFacts(history: seq<string>, id: string)
    ensures
      var cache := Newest(ByRecency(history), MAX_LOGGERS);
      var after := Newest(ByRecency(history + [id]), MAX_LOGGERS);
      && Distinct(cache) && Distinct(after) && |cache| <= MAX_LOGGERS
      && after == Touch(cache, id)
      && (cache != [] ==> forall x :: x in cache[1..] <==> x in cache && x != cache[0])
      && (id in cache ==> after == Remove(cache, id) + [id] && forall x :: x in after <==> x in cache)
      && (id !in cache ==> after == (if |cache| >= MAX_LOGGERS then cache[1..] else cache) + [id])
  {
    var s := ByRecency(history);
    assert (history + [id])[..|history|] == history;
    RecencyOrder(history);
    RecencyOrder(history + [id]);
    TouchNewest(s, id);
    NewestDistinct(s, MAX_LOGGERS);
    NewestDistinct(ByRecency(history + [id]), MAX_LOGGERS);
    RemoveFacts(Newest(s, MAX_LOGGERS), id);
    hide Remove, ByRecency, Newest;
    FirstOnce(Newest(s, MAX_LOGGERS));
  }

  class LoggerPool {
    var cache: seq<string>                 // keys of the ordered dictionary, in order
    var handlers: map<string, nat>         // registered loggers and their open handlers
    ghost var history: seq<string>

    /** The cache is the newest part of the history, and exactly the cached sessions have a
        registered logger, each with one handler. */
    ghost predicate Valid()
      reads this
    {
      && cache == Newest(ByRecency(history), 200)
      && (forall id :: id in handlers <==> id in cache)
      && (forall id :: id in handlers ==> handlers[id] == 1)
    }

    constructor ()
      ensures Valid() && history == []
    {
      cache, handlers, history := [], map[], [];
    }

    method EvictLru()
      requires cache != [] && Distinct(cache)
      modifies this`cache, this`handlers
      ensures cache == old(cache)[1..] && handlers == old(handlers) - {old(cache)[0]}
    {
      var oldest := cache[0];
      cache := cache[1..];
      handlers := handlers - {oldest};
    }

    method GetLogger(id: string)
      requires Valid()
      modifies this
      ensures Valid() && history == old(history) + [id]
    {
      hide ByRecency, Newest, Remove, Distinct, Touch;
      AccessFacts(history, id);
      history := history + [id];
      if id in cache {
        cache := Remove(cache, id) + [id];
        return;
      }
      if |cache| >= MAX_LOGGERS {
        EvictLru();
      }
      if id !in handlers {
        handlers := handlers[id := 1];
      }
      cache := cache + [id];
    }
  }
}
