/** The in-process sliding-window rate limiter. Its dictionary is ordered by recency of use and
    evicts the least recently used key; the limiter is proved to answer like a log of all calls. */
module RateLimiter {
  import opened Wrappers

  datatype Config = Config(limit: int, windowSeconds: int, maxKeys: int)

  /** The ordered dictionary: its keys, least recently used first, and the timestamps kept for each. */
  datatype History = History(order: seq<string>, stamps: map<string, seq<real>>)

  // ---------------------------------------------------------------- ordered keys

  ghost predicate Distinct(keys: seq<string>) {
    forall i, j :: 0 <= i < j < |keys| ==> keys[i] != keys[j]
  }

  ghost function Elements(s: seq<string>): set<string> {
    set x | x in s
  }

  function Without(keys: seq<string>, key: string): seq<string> {
    if keys == [] then []
    else
      var n := |keys| - 1;
      var r := Without(keys[..n], key);
      if keys[n] == key then r else r + [keys[n]]
  }

  lemma {:induction false} WithoutElements(keys: seq<string>, key: string)
    ensures Elements(Without(keys, key)) == Elements(keys) - {key}
    ensures |Without(keys, key)| <= |keys|
    ensures key !in keys ==> Without(keys, key) == keys
  {
    if keys != [] {
      var n := |keys| - 1;
      WithoutElements(keys[..n], key);
      assert keys == keys[..n] + [keys[n]];
      ElementsAppend(keys[..n], keys[n]);
      ElementsAppend(Without(keys[..n], key), keys[n]);
    }
  }

  lemma ElementsAppend(keys: seq<string>, key: string)
    ensures Elements(keys + [key]) == Elements(keys) + {key}
  {
  }

  /** Moves `key` to the most recent end. */
  function Touch(keys: seq<string>, key: string): seq<string> {
    Without(keys, key) + [key]
  }

  function Newest(keys: seq<string>, m: nat): (r: seq<string>)
    ensures |r| == if |keys| > m then m else |keys|
  {
    if |keys| > m then keys[|keys| - m..] else keys
  }

  lemma {:induction false} WithoutConcat(a: seq<string>, b: seq<string>, key: string)
    ensures Without(a + b, key) == Without(a, key) + Without(b, key)
  {
    if b == [] {
      assert a + b == a;
    } else {
      var n := |b| - 1;
      assert (a + b)[..|a| + n] == a + b[..n];
      WithoutConcat(a, b[..n], key);
    }
  }

  lemma {:induction false} WithoutDistinct(keys: seq<string>, key: string)
    requires Distinct(keys)
    ensures Distinct(Without(keys, key))
    ensures key in keys ==> |Without(keys, key)| == |keys| - 1
  {
    if keys != [] {
      var n := |keys| - 1;
      WithoutDistinct(keys[..n], key);
      WithoutElements(keys[..n], key);
      assert keys == keys[..n] + [keys[n]];
      if keys[n] != key {
        assert keys[n] !in Elements(keys[..n]);
        assert keys[n] !in Elements(Without(keys[..n], key));
      } else {
        assert key !in keys[..n];
      }
    }
  }

  lemma TouchDistinct(keys: seq<string>, key: string)
    requires Distinct(keys)
    ensures Distinct(Touch(keys, key))
    ensures Elements(Touch(keys, key)) == Elements(keys) + {key}
  {
    WithoutDistinct(keys, key);
    WithoutElements(keys, key);
    ElementsAppend(Without(keys, key), key);
    assert key !in Elements(Without(keys, key));
  }

  /** Trimming before a touch does not show after it. */
  lemma TouchNewest(keys: seq<string>, key: string, m: nat)
    requires Distinct(keys)
    ensures Newest(Touch(Newest(keys, m), key), m) == Newest(Touch(keys, key), m)
  {
    if |keys| > m {
      var cut := |keys| - m;
      var front, kept := keys[..cut], keys[cut..];
      assert keys == front + kept;
      WithoutConcat(front, kept, key);
      assert Touch(keys, key) == Without(front, key) + Touch(kept, key);
      WithoutDistinct(kept, key);
      WithoutElements(kept, key);
      assert |Touch(kept, key)| >= m;
      NewestSuffix(Without(front, key), Touch(kept, key), m);
    }
  }

  lemma NewestSuffix(x: seq<string>, y: seq<string>, m: nat)
    requires |y| >= m
    ensures Newest(x + y, m) == Newest(y, m)
  {
  }

  // ---------------------------------------------------------------- one call

  function Lookup(history: History, key: string): seq<real> {
    if key in history.stamps then history.stamps[key] else []
  }

  /** The timestamps younger than the window. */
  function Fresh(cfg: Config, stamps: seq<real>, now: real): seq<real> {
    if stamps == [] then []
    else
      var n := |stamps| - 1;
      Fresh(cfg, stamps[..n], now) + (if now - stamps[n] < cfg.windowSeconds as real then [stamps[n]] else [])
  }

  predicate Allowed(cfg: Config, history: History, key: string, now: real) {
    |Fresh(cfg, Lookup(history, key), now)| < cfg.limit
  }

  function Recorded(cfg: Config, history: History, key: string, now: real): seq<real> {
    var entries := Fresh(cfg, Lookup(history, key), now);
    if |entries| < cfg.limit then entries + [now] else entries
  }

  /** The dictionary after one call: `key` becomes the most recent, and only the newest keys stay. */
  function After(cfg: Config, history: History, key: string, now: real): History
    requires cfg.maxKeys >= 0
  {
    var order := Newest(Touch(history.order, key), cfg.maxKeys);
    var stamps := history.stamps[key := Recorded(cfg, history, key, now)];
    History(order, Restrict(stamps, order))
  }

  function Restrict(stamps: map<string, seq<real>>, order: seq<string>): map<string, seq<real>> {
    map k | k in stamps && k in order :: stamps[k]
  }

  ghost predicate WellFormed(history: History) {
    Distinct(history.order) && history.stamps.Keys == Elements(history.order)
  }

  /** What is left of `full` after evicting its oldest keys, `evicted`. */
  ghost predicate Remainder(full: History, evicted: seq<string>, h: History) {
    && WellFormed(h)
    && full.order == evicted + h.order
    && forall k :: k in h.stamps ==> k in full.stamps && h.stamps[k] == full.stamps[k]
  }

  lemma TrimStep(full: History, evicted: seq<string>, h: History)
    requires Remainder(full, evicted, h) && h.order != []
    ensures Remainder(full, evicted + [h.order[0]], History(h.order[1..], h.stamps - {h.order[0]}))
  {
    assert h.order == [h.order[0]] + h.order[1..];
    assert h.order[0] !in h.order[1..];
  }

  lemma TrimDone(full: History, evicted: seq<string>, h: History, m: nat)
    requires Remainder(full, evicted, h) && |h.order| <= m && (evicted != [] ==> |h.order| == m)
    ensures h.order == Newest(full.order, m) && h.stamps == Restrict(full.stamps, h.order)
  {
    assert forall k :: k in h.stamps <==> k in h.order;
  }

  class LocalRateLimiter {
    const cfg: Config
    var history: History

    constructor (cfg: Config)
      ensures this.cfg == cfg && history == History([], map[]) && WellFormed(history)
    {
      this.cfg := cfg;
      history := History([], map[]);
    }

    /** One call between taking and releasing the lock. A negative key bound empties the
        dictionary and then fails on it. */
    method Allow(key: string, now: real) returns (r: Result<bool>)
      requires WellFormed(history)
      modifies this`history
      ensures WellFormed(history)
      ensures r.Ok? <==> cfg.maxKeys >= 0
      ensures r.Ok? ==>
        && r.value == Allowed(cfg, old(history), key, now)
        && history == After(cfg, old(history), key, now)
      ensures r.Err? ==> r.error == KeyError && history == History([], map[])
    {
      var stamps := Lookup(history, key);
      history := History(Without(history.order, key), history.stamps - {key});
      var entries := [];
      for i := 0 to |stamps|
        invariant entries == Fresh(cfg, stamps[..i], now)
      {
        assert stamps[..i + 1][..i] == stamps[..i];
        if now - stamps[i] < cfg.windowSeconds as real {
          entries := entries + [stamps[i]];
        }
      }
      assert stamps[..|stamps|] == stamps;
      var allowed := |entries| < cfg.limit;
      if allowed {
        entries := entries + [now];
      }
      assert entries == Recorded(cfg, old(history), key, now);
      history := History(history.order + [key], history.stamps[key := entries]);
      assert history.stamps == old(history).stamps[key := entries];
      TouchDistinct(old(history).order, key);
      var trimmed := Trim();
      return if trimmed then Ok(allowed) else Err(KeyError);
    }

    /** The eviction loop: oldest keys go until the bound is met, or the dictionary is empty. */
    method Trim() returns (trimmed: bool)
      requires WellFormed(history)
      modifies this`history
      ensures WellFormed(history)
      ensures trimmed <==> cfg.maxKeys >= 0
      ensures trimmed ==>
        history.order == Newest(old(history).order, cfg.maxKeys)
        && history.stamps == Restrict(old(history).stamps, history.order)
      ensures !trimmed ==> history == History([], map[])
    {
      ghost var evicted := [];
      while |history.order| > cfg.maxKeys
        invariant Remainder(old(history), evicted, history)
        invariant evicted != [] ==> |history.order| >= cfg.maxKeys
        decreases |history.order|
      {
        if |history.order| == 0 {
          return false;
        }
        var oldest := history.order[0];
        TrimStep(old(history), evicted, history);
        evicted := evicted + [oldest];
        history := History(history.order[1..], history.stamps - {oldest});
      }
      TrimDone(old(history), evicted, history, cfg.maxKeys);
      return true;
    }
  }

  // ---------------------------------------------------------------- runs

  datatype Call = Call(key: string, now: real)

  ghost predicate Nondecreasing(calls: seq<Call>) {
    forall i, j :: 0 <= i < j < |calls| ==> calls[i].now <= calls[j].now
  }

  /** The dictionary after the first `n` calls of a run. */
  function Reached(cfg: Config, calls: seq<Call>, n: nat): History
    requires cfg.maxKeys >= 0 && n <= |calls|
  {
    if n == 0 then History([], map[])
    else After(cfg, Reached(cfg, calls, n - 1), calls[n - 1].key, calls[n - 1].now)
  }

  /** The limiter's answers to a run of calls. */
  function Answers(cfg: Config, calls: seq<Call>): (r: seq<bool>)
    requires cfg.maxKeys >= 0
  {
    seq(|calls|, i requires 0 <= i < |calls| => Allowed(cfg, Reached(cfg, calls, i), calls[i].key, calls[i].now))
  }

  // ---------------------------------------------------------------- recency

  /** Every key of the first `n` calls, least recently used first. */
  function Recency(calls: seq<Call>, n: nat): (r: seq<string>)
    requires n <= |calls|
    ensures Distinct(r)
  {
    if n == 0 then []
    else
      TouchDistinct(Recency(calls, n - 1), calls[n - 1].key);
      Touch(Recency(calls, n - 1), calls[n - 1].key)
  }

  lemma ElementsNewest(keys: seq<string>, m: nat)
    ensures Elements(Newest(keys, m)) <= Elements(keys)
  {
  }

  lemma AfterWellFormed(cfg: Config, history: History, key: string, now: real)
    requires cfg.maxKeys >= 0 && WellFormed(history)
    ensures WellFormed(After(cfg, history, key, now))
  {
    TouchDistinct(history.order, key);
    ElementsNewest(Touch(history.order, key), cfg.maxKeys);
  }

  lemma OrderAfter(cfg: Config, history: History, key: string, now: real)
    requires cfg.maxKeys >= 0
    ensures After(cfg, history, key, now).order == Newest(Touch(history.order, key), cfg.maxKeys)
  {
  }

  /** The dictionary holds the most recently used keys, in the order of their last use. */
  lemma {:induction false} DictionaryOrderIsRecency(cfg: Config, calls: seq<Call>, n: nat)
    requires cfg.maxKeys >= 0 && n <= |calls|
    ensures Reached(cfg, calls, n).order == Newest(Recency(calls, n), cfg.maxKeys)
    ensures WellFormed(Reached(cfg, calls, n))
  {
    if n > 0 {
      var history, call := Reached(cfg, calls, n - 1), calls[n - 1];
      DictionaryOrderIsRecency(cfg, calls, n - 1);
      TouchNewest(Recency(calls, n - 1), call.key, cfg.maxKeys);
      AfterWellFormed(cfg, history, call.key, call.now);
      OrderAfter(cfg, history, call.key, call.now);
    }
  }

  /** The last of the first `n` calls that is for `key`, or -1. */
  function LastCall(calls: seq<Call>, n: nat, key: string): (p: int)
    requires n <= |calls|
    ensures -1 <= p < n
    ensures p >= 0 ==> calls[p].key == key
    ensures forall i :: 0 <= i < n && i > p ==> calls[i].key != key
  {
    if n == 0 then -1
    else if calls[n - 1].key == key then n - 1
    else LastCall(calls, n - 1, key)
  }

  function KeysSince(calls: seq<Call>, p: int, n: nat): set<string>
    requires p >= -1 && n <= |calls|
  {
    set i | p < i < n :: calls[i].key
  }

  /** Fewer than `maxKeys` other keys were touched since the last call for `key`. */
  predicate Alive(cfg: Config, calls: seq<Call>, n: nat, key: string)
    requires n <= |calls|
  {
    var p := LastCall(calls, n, key);
    p >= 0 && |KeysSince(calls, p, n)| < cfg.maxKeys
  }

  lemma {:induction false} DistinctCount(s: seq<string>)
    requires Distinct(s)
    ensures |Elements(s)| == |s|
  {
    if s != [] {
      var n := |s| - 1;
      DistinctCount(s[..n]);
      assert Elements(s) == Elements(s[..n]) + {s[n]};
    }
  }

  lemma KeysSinceStep(calls: seq<Call>, p: int, n: nat)
    requires -1 <= p < n < |calls|
    ensures KeysSince(calls, p, n + 1) == KeysSince(calls, p, n) + {calls[n].key}
  {
    assert calls[n].key in KeysSince(calls, p, n + 1);
  }

  lemma TouchBetween(x: seq<string>, key: string, y: seq<string>, other: string)
    requires other != key
    ensures Touch(x + [key] + y, other) == Without(x, other) + [key] + Touch(y, other)
  {
    WithoutConcat(x + [key], y, other);
    WithoutConcat(x, [key], other);
    WithoutOther(key, other);
  }

  lemma WithoutOther(key: string, other: string)
    requires other != key
    ensures Without([key], other) == [key]
  {
    assert [key][..0] == [];
  }

  lemma TouchElements(y: seq<string>, other: string)
    ensures Elements(Touch(y, other)) == Elements(y) + {other}
  {
    WithoutElements(y, other);
    ElementsAppend(Without(y, other), other);
  }

  lemma KeyIsLast(calls: seq<Call>, n: nat)
    requires 0 < n <= |calls|
    ensures var key := calls[n - 1].key;
      && Recency(calls, n) == Without(Recency(calls, n - 1), key) + [key] + []
      && LastCall(calls, n, key) == n - 1 && Elements([]) == KeysSince(calls, n - 1, n)
  {
  }

  lemma KeyFurtherBehind(calls: seq<Call>, n: nat, key: string, x: seq<string>, y: seq<string>)
    requires 0 < n <= |calls| && calls[n - 1].key != key && LastCall(calls, n - 1, key) >= 0
    requires Recency(calls, n - 1) == x + [key] + y && Elements(y) == KeysSince(calls, LastCall(calls, n - 1, key), n - 1)
    ensures var other := calls[n - 1].key;
      && Recency(calls, n) == Without(x, other) + [key] + Touch(y, other)
      && LastCall(calls, n, key) == LastCall(calls, n - 1, key)
      && Elements(Touch(y, other)) == KeysSince(calls, LastCall(calls, n, key), n)
  {
    TouchBetween(x, key, y, calls[n - 1].key);
    TouchElements(y, calls[n - 1].key);
    KeysSinceStep(calls, LastCall(calls, n - 1, key), n - 1);
  }

  /** The keys behind `key` in recency order are exactly those called since its last call. */
  lemma {:induction false} KeysBehind(calls: seq<Call>, n: nat, key: string) returns (a: seq<string>, b: seq<string>)
    requires n <= |calls|
    ensures LastCall(calls, n, key) < 0 ==> key !in Elements(Recency(calls, n))
    ensures LastCall(calls, n, key) >= 0 ==>
      Recency(calls, n) == a + [key] + b && Elements(b) == KeysSince(calls, LastCall(calls, n, key), n)
  {
    a, b := [], [];
    if n > 0 {
      var other := calls[n - 1].key;
      var x, y := KeysBehind(calls, n - 1, key);
      if other == key {
        a := Without(Recency(calls, n - 1), key);
        KeyIsLast(calls, n);
      } else if LastCall(calls, n - 1, key) >= 0 {
        KeyFurtherBehind(calls, n, key, x, y);
        a, b := Without(x, other), Touch(y, other);
      } else {
        TouchDistinct(Recency(calls, n - 1), other);
      }
    }
  }

  /** A key is within the newest `m` iff fewer than `m` keys are behind it. */
  lemma InNewest(a: seq<string>, key: string, b: seq<string>, m: nat)
    requires Distinct(a + [key] + b)
    ensures key in Newest(a + [key] + b, m) <==> |b| < m
    ensures Distinct(b)
  {
    var r := a + [key] + b;
    var kept := Newest(r, m);
    assert r[|a|] == key;
    assert b == r[|a| + 1..];
    if |r| > m {
      if |b| < m {
        assert kept[|a| - (|r| - m)] == key;
      } else {
        forall i | 0 <= i < |kept| ensures kept[i] != key {
          assert kept[i] == r[|r| - m + i];
        }
      }
    }
  }

  /** Exact eviction: a key is still in the dictionary iff fewer than `maxKeys` other keys were touched since. */
  lemma KeptIffAlive(cfg: Config, calls: seq<Call>, n: nat, key: string)
    requires cfg.maxKeys >= 0 && n <= |calls|
    ensures key in Reached(cfg, calls, n).stamps <==> Alive(cfg, calls, n, key)
  {
    DictionaryOrderIsRecency(cfg, calls, n);
    var a, b := KeysBehind(calls, n, key);
    ElementsNewest(Recency(calls, n), cfg.maxKeys);
    if LastCall(calls, n, key) >= 0 {
      InNewest(a, key, b, cfg.maxKeys);
      DistinctCount(b);
    }
  }

  // ---------------------------------------------------------------- the log

  /** The admitted timestamps of `key` since it was last evicted, computed from the calls alone:
      eviction is read off the run as a gap of `maxKeys` other keys, and nothing is ever aged out. */
  function Log(cfg: Config, calls: seq<Call>, n: nat, key: string): seq<real>
    requires n <= |calls|
  {
    if n == 0 then []
    else if calls[n - 1].key != key then Log(cfg, calls, n - 1, key)
    else
      var base := if Alive(cfg, calls, n - 1, key) then Log(cfg, calls, n - 1, key) else [];
      if |Fresh(cfg, base, calls[n - 1].now)| < cfg.limit then base + [calls[n - 1].now] else base
  }

  function Remembered(cfg: Config, calls: seq<Call>, n: nat, key: string): seq<real>
    requires n <= |calls|
  {
    if Alive(cfg, calls, n, key) then Log(cfg, calls, n, key) else []
  }

  lemma {:induction false} FreshConcat(cfg: Config, a: seq<real>, b: seq<real>, now: real)
    ensures Fresh(cfg, a + b, now) == Fresh(cfg, a, now) + Fresh(cfg, b, now)
  {
    if b == [] {
      assert a + b == a;
    } else {
      var n := |b| - 1;
      assert (a + b)[..|a| + n] == a + b[..n];
      FreshConcat(cfg, a, b[..n], now);
    }
  }

  lemma FreshAppend(cfg: Config, stamps: seq<real>, stamp: real, now: real)
    ensures Fresh(cfg, stamps + [stamp], now)
         == Fresh(cfg, stamps, now) + if now - stamp < cfg.windowSeconds as real then [stamp] else []
  {
    assert (stamps + [stamp])[..|stamps|] == stamps;
  }

  /** Ageing out early changes nothing later, because the clock does not run backwards. */
  lemma {:induction false} FreshTwice(cfg: Config, stamps: seq<real>, now: real, later: real)
    requires now <= later
    ensures Fresh(cfg, Fresh(cfg, stamps, now), later) == Fresh(cfg, stamps, later)
  {
    if stamps != [] {
      var n := |stamps| - 1;
      var young := Fresh(cfg, stamps[..n], now);
      FreshTwice(cfg, stamps[..n], now, later);
      FreshAppend(cfg, young, stamps[n], later);
      if now - stamps[n] >= cfg.windowSeconds as real {
        assert Fresh(cfg, stamps, now) == young;
        assert Fresh(cfg, stamps, later) == Fresh(cfg, stamps[..n], later);
      }
    }
  }

  lemma StaysAlive(cfg: Config, calls: seq<Call>, n: nat, key: string)
    requires n < |calls| && calls[n].key != key && Alive(cfg, calls, n + 1, key)
    ensures Alive(cfg, calls, n, key)
  {
    var p := LastCall(calls, n, key);
    KeysSinceStep(calls, p, n);
    SubsetSize(KeysSince(calls, p, n), KeysSince(calls, p, n + 1));
  }

  lemma SubsetSize<T>(a: set<T>, b: set<T>)
    requires a <= b
    ensures |a| <= |b|
  {
    assert b == a + (b - a);
  }

  lemma RecordedMatches(cfg: Config, history: History, key: string, base: seq<real>, now: real, later: real)
    requires now <= later
    requires Fresh(cfg, Lookup(history, key), now) == Fresh(cfg, base, now)
    requires Fresh(cfg, Lookup(history, key), later) == Fresh(cfg, base, later)
    ensures Fresh(cfg, Recorded(cfg, history, key, now), later)
         == Fresh(cfg, if |Fresh(cfg, base, now)| < cfg.limit then base + [now] else base, later)
  {
    FreshTwice(cfg, Lookup(history, key), now, later);
    FreshAppend(cfg, Fresh(cfg, Lookup(history, key), now), now, later);
    FreshAppend(cfg, base, now, later);
  }

  /** The dictionary and the log cannot be told apart at any time from now on. */
  lemma {:induction false} DictionaryMatchesLog(cfg: Config, calls: seq<Call>, n: nat, key: string, later: real)
    requires cfg.maxKeys >= 0 && n <= |calls| && Nondecreasing(calls)
    requires n > 0 ==> calls[n - 1].now <= later
    ensures Fresh(cfg, Lookup(Reached(cfg, calls, n), key), later) == Fresh(cfg, Remembered(cfg, calls, n, key), later)
  {
    KeptIffAlive(cfg, calls, n, key);
    if n > 0 && Alive(cfg, calls, n, key) {
      var m := n - 1;
      DictionaryMatchesLog(cfg, calls, m, key, later);
      if calls[m].key == key {
        DictionaryMatchesLog(cfg, calls, m, key, calls[m].now);
        RecordedMatches(cfg, Reached(cfg, calls, m), key, Remembered(cfg, calls, m, key), calls[m].now, later);
      } else {
        StaysAlive(cfg, calls, m, key);
      }
    }
  }

  /** Call `i` is admitted iff the log before it leaves room. */
  ghost predicate JudgedByLog(cfg: Config, calls: seq<Call>, answers: seq<bool>, i: nat)
    requires i < |calls| == |answers|
  {
    answers[i] <==> |Fresh(cfg, Remembered(cfg, calls, i, calls[i].key), calls[i].now)| < cfg.limit
  }

  ghost predicate AnswersByLog(cfg: Config, calls: seq<Call>, answers: seq<bool>) {
    && |answers| == |calls|
    && forall i {:trigger JudgedByLog(cfg, calls, answers, i)} :: 0 <= i < |calls| ==> JudgedByLog(cfg, calls, answers, i)
  }

  /** Main result, for every run with a nondecreasing clock: the limiter answers as the log does,
      evictions included. */
  lemma LimiterAnswersByLog(cfg: Config, calls: seq<Call>)
    requires cfg.maxKeys >= 0 && Nondecreasing(calls)
    ensures AnswersByLog(cfg, calls, Answers(cfg, calls))
  {
    forall i | 0 <= i < |calls|
      ensures JudgedByLog(cfg, calls, Answers(cfg, calls), i)
    {
      DictionaryMatchesLog(cfg, calls, i, calls[i].key, calls[i].now);
    }
  }

  // ---------------------------------------------------------------- the unbounded log

  /** No two consecutive calls for `key` have `maxKeys` other keys between them. */
  ghost predicate Unevicted(cfg: Config, calls: seq<Call>, key: string) {
    forall i {:trigger StillAlive(cfg, calls, key, i)} :: 0 <= i < |calls| && calls[i].key == key ==> StillAlive(cfg, calls, key, i)
  }

  ghost predicate StillAlive(cfg: Config, calls: seq<Call>, key: string, i: nat)
    requires i <= |calls|
  {
    LastCall(calls, i, key) >= 0 ==> Alive(cfg, calls, i, key)
  }

  lemma RememberedIsLog(cfg: Config, calls: seq<Call>, key: string, i: nat)
    requires i < |calls| && calls[i].key == key && Unevicted(cfg, calls, key)
    ensures Remembered(cfg, calls, i, key) == Log(cfg, calls, i, key)
  {
    assert StillAlive(cfg, calls, key, i);
    if LastCall(calls, i, key) < 0 {
      NoCallNoLog(cfg, calls, i, key);
    }
  }

  /** Among the first `upTo` calls, the admitted ones of `key` that are younger than the window at `now`. */
  ghost function Counted(cfg: Config, calls: seq<Call>, answers: seq<bool>, key: string, now: real, upTo: nat): set<nat>
    requires |answers| == |calls| && upTo <= |calls|
  {
    set j: nat | j < upTo && calls[j].key == key && answers[j] && now - calls[j].now < cfg.windowSeconds as real
  }

  lemma LogStep(cfg: Config, calls: seq<Call>, answers: seq<bool>, key: string, m: nat)
    requires AnswersByLog(cfg, calls, answers) && m < |calls| && Unevicted(cfg, calls, key)
    ensures Log(cfg, calls, m + 1, key)
         == Log(cfg, calls, m, key) + (if calls[m].key == key && answers[m] then [calls[m].now] else [])
  {
    if calls[m].key == key {
      RememberedIsLog(cfg, calls, key, m);
      assert JudgedByLog(cfg, calls, answers, m);
    }
  }

  lemma {:induction false} NoCallNoLog(cfg: Config, calls: seq<Call>, n: nat, key: string)
    requires n <= |calls| && LastCall(calls, n, key) < 0
    ensures Log(cfg, calls, n, key) == []
  {
    if n > 0 {
      NoCallNoLog(cfg, calls, n - 1, key);
    }
  }

  lemma CountedStep(cfg: Config, calls: seq<Call>, answers: seq<bool>, key: string, now: real, m: nat)
    requires |answers| == |calls| && m < |calls|
    ensures |Counted(cfg, calls, answers, key, now, m + 1)| == |Counted(cfg, calls, answers, key, now, m)|
      + if calls[m].key == key && answers[m] && now - calls[m].now < cfg.windowSeconds as real then 1 else 0
  {
    var fewer, more := Counted(cfg, calls, answers, key, now, m), Counted(cfg, calls, answers, key, now, m + 1);
    assert more == fewer + if calls[m].key == key && answers[m] && now - calls[m].now < cfg.windowSeconds as real then {m} else {};
  }

  /** While a key is never evicted, its fresh log entries are the admitted calls inside the window. */
  lemma {:induction false} LogCountsAdmitted(cfg: Config, calls: seq<Call>, answers: seq<bool>, key: string, now: real, n: nat)
    requires AnswersByLog(cfg, calls, answers) && n <= |calls| && Unevicted(cfg, calls, key)
    ensures |Fresh(cfg, Log(cfg, calls, n, key), now)| == |Counted(cfg, calls, answers, key, now, n)|
  {
    if n == 0 {
      assert Counted(cfg, calls, answers, key, now, 0) == {};
    } else {
      var m := n - 1;
      LogCountsAdmitted(cfg, calls, answers, key, now, m);
      LogStep(cfg, calls, answers, key, m);
      CountedStep(cfg, calls, answers, key, now, m);
      FreshAppend(cfg, Log(cfg, calls, m, key), calls[m].now, now);
    }
  }

  /** While the key is never evicted, a call is admitted iff fewer than `limit` earlier admitted
      calls of the key are younger than the window. */
  lemma AnswersAsUnboundedLog(cfg: Config, calls: seq<Call>, answers: seq<bool>, i: nat)
    requires AnswersByLog(cfg, calls, answers) && i < |calls| && Unevicted(cfg, calls, calls[i].key)
    ensures answers[i] <==> |Counted(cfg, calls, answers, calls[i].key, calls[i].now, i)| < cfg.limit
  {
    LogCountsAdmitted(cfg, calls, answers, calls[i].key, calls[i].now, i);
    RememberedIsLog(cfg, calls, calls[i].key, i);
    assert JudgedByLog(cfg, calls, answers, i);
  }

  ghost function AdmittedIn(cfg: Config, calls: seq<Call>, answers: seq<bool>, key: string, start: real, n: nat): set<nat>
    requires |answers| == |calls| && n <= |calls|
  {
    set j: nat | j < n && calls[j].key == key && answers[j]
                 && start <= calls[j].now < start + cfg.windowSeconds as real
  }

  /** No window of the configured length, wherever it starts, admits more than `limit` calls of a key
      that is never evicted. */
  lemma {:induction false} WindowNeverExceedsLimit(
      cfg: Config, calls: seq<Call>, answers: seq<bool>, key: string, start: real, n: nat)
    requires AnswersByLog(cfg, calls, answers) && n <= |calls| && Unevicted(cfg, calls, key)
    ensures |AdmittedIn(cfg, calls, answers, key, start, n)| <= if cfg.limit > 0 then cfg.limit else 0
  {
    if n == 0 {
      assert AdmittedIn(cfg, calls, answers, key, start, 0) == {};
    } else {
      var m := n - 1;
      WindowNeverExceedsLimit(cfg, calls, answers, key, start, m);
      AdmittedStep(cfg, calls, answers, key, start, m);
      if m in AdmittedIn(cfg, calls, answers, key, start, n) {
        AnswersAsUnboundedLog(cfg, calls, answers, m);
      }
    }
  }

  lemma AdmittedStep(cfg: Config, calls: seq<Call>, answers: seq<bool>, key: string, start: real, m: nat)
    requires |answers| == |calls| && m < |calls|
    ensures var inside, more := AdmittedIn(cfg, calls, answers, key, start, m), AdmittedIn(cfg, calls, answers, key, start, m + 1);
      && |more| == |inside| + (if m in more then 1 else 0)
      && (m in more ==> |inside| <= |Counted(cfg, calls, answers, key, calls[m].now, m)|)
  {
    var inside, more := AdmittedIn(cfg, calls, answers, key, start, m), AdmittedIn(cfg, calls, answers, key, start, m + 1);
    assert more == inside + if m in more then {m} else {};
    if m in more {
      SubsetSize(inside, Counted(cfg, calls, answers, key, calls[m].now, m));
    }
  }

  // ---------------------------------------------------------------- the limit and the number of keys

  /** All calls are for these keys. */
  ghost predicate CallsOver(calls: seq<Call>, keys: set<string>) {
    forall i :: 0 <= i < |calls| ==> calls[i].key in keys
  }

  /** Every window admits at most `limit` calls of every key. */
  ghost predicate LimitHolds(cfg: Config, calls: seq<Call>)
    requires cfg.maxKeys >= 0
  {
    forall key, start: real :: |AdmittedIn(cfg, calls, Answers(cfg, calls), key, start, |calls|)| <= cfg.limit
  }

  /** With room for all keys, none is evicted. */
  lemma RoomMeansUnevicted(cfg: Config, calls: seq<Call>, keys: set<string>, key: string)
    requires CallsOver(calls, keys) && |keys| <= cfg.maxKeys
    ensures Unevicted(cfg, calls, key)
  {
    forall i | 0 <= i < |calls| && calls[i].key == key ensures StillAlive(cfg, calls, key, i) {
      var p := LastCall(calls, i, key);
      if p >= 0 {
        assert KeysSince(calls, p, i) <= keys - {key};
        SubsetSize(KeysSince(calls, p, i), keys - {key});
      }
    }
  }

  lemma RoomMeansLimit(cfg: Config, calls: seq<Call>, keys: set<string>)
    requires cfg.maxKeys >= 0 && cfg.limit > 0 && Nondecreasing(calls) && CallsOver(calls, keys) && |keys| <= cfg.maxKeys
    ensures LimitHolds(cfg, calls)
  {
    LimiterAnswersByLog(cfg, calls);
    forall key, start: real ensures |AdmittedIn(cfg, calls, Answers(cfg, calls), key, start, |calls|)| <= cfg.limit {
      RoomMeansUnevicted(cfg, calls, keys, key);
      WindowNeverExceedsLimit(cfg, calls, Answers(cfg, calls), key, start, |calls|);
    }
  }

  /** A burst that uses up the limit, then as many other keys as the dictionary holds, then the key again. */
  ghost predicate Burst(cfg: Config, calls: seq<Call>, key: string, others: seq<string>) {
    && cfg.limit > 0 && cfg.maxKeys == |others| && Distinct(others) && key !in others
    && |calls| == cfg.limit + |others| + 1
    && (forall i :: 0 <= i < cfg.limit ==> calls[i] == Call(key, 0.0))
    && (forall i :: cfg.limit <= i < cfg.limit + |others| ==> calls[i] == Call(others[i - cfg.limit], 0.0))
    && calls[cfg.limit + |others|] == Call(key, 0.0)
  }

  lemma {:induction false} LogLength(cfg: Config, calls: seq<Call>, n: nat, key: string)
    requires n <= |calls|
    ensures |Log(cfg, calls, n, key)| <= n
  {
    if n > 0 {
      LogLength(cfg, calls, n - 1, key);
    }
  }

  lemma {:induction false} FreshLength(cfg: Config, stamps: seq<real>, now: real)
    ensures |Fresh(cfg, stamps, now)| <= |stamps|
  {
    if stamps != [] {
      FreshLength(cfg, stamps[..|stamps| - 1], now);
    }
  }

  /** The first `limit` calls of any run are admitted. */
  lemma EarlyCallsAreAdmitted(cfg: Config, calls: seq<Call>, answers: seq<bool>, i: nat)
    requires AnswersByLog(cfg, calls, answers) && i < |calls| && i < cfg.limit
    ensures answers[i]
  {
    assert JudgedByLog(cfg, calls, answers, i);
    LogLength(cfg, calls, i, calls[i].key);
    FreshLength(cfg, Remembered(cfg, calls, i, calls[i].key), calls[i].now);
  }

  /** The key has been evicted when the burst's last call comes. */
  lemma BurstEvicts(cfg: Config, calls: seq<Call>, key: string, others: seq<string>)
    requires Burst(cfg, calls, key, others)
    ensures !Alive(cfg, calls, |calls| - 1, key)
  {
    var n := |calls| - 1;
    var p := LastCall(calls, n, key);
    assert calls[cfg.limit - 1].key == key;
    forall i | cfg.limit <= i < n ensures calls[i].key != key {
      assert others[i - cfg.limit] in others;
    }
    assert p == cfg.limit - 1;
    assert KeysSince(calls, p, n) == Elements(others) by {
      forall k | k in Elements(others) ensures k in KeysSince(calls, p, n) {
        var j :| 0 <= j < |others| && others[j] == k;
        assert calls[cfg.limit + j].key == k;
      }
    }
    DistinctCount(others);
  }

  lemma BurstIsAdmitted(cfg: Config, calls: seq<Call>, answers: seq<bool>, key: string, others: seq<string>)
    requires Burst(cfg, calls, key, others) && AnswersByLog(cfg, calls, answers)
    ensures answers[|calls| - 1] && forall i :: 0 <= i < cfg.limit ==> answers[i]
  {
    var n := |calls| - 1;
    assert JudgedByLog(cfg, calls, answers, n);
    BurstEvicts(cfg, calls, key, others);
    FreshLength(cfg, [], 0.0);
    forall i | 0 <= i < cfg.limit ensures answers[i] {
      EarlyCallsAreAdmitted(cfg, calls, answers, i);
    }
  }

  function FirstIndices(n: nat): (r: set<nat>)
    ensures |r| == n && forall j :: j in r <==> 0 <= j < n
  {
    if n == 0 then {} else FirstIndices(n - 1) + {n - 1}
  }

  lemma BurstIsInOneWindow(cfg: Config, calls: seq<Call>, answers: seq<bool>, key: string, others: seq<string>)
    requires Burst(cfg, calls, key, others) && AnswersByLog(cfg, calls, answers) && cfg.windowSeconds > 0
    ensures |AdmittedIn(cfg, calls, answers, key, 0.0, |calls|)| > cfg.limit
  {
    BurstIsAdmitted(cfg, calls, answers, key, others);
    var all := FirstIndices(cfg.limit) + {|calls| - 1};
    assert |all| == cfg.limit + 1;
    SubsetSize(all, AdmittedIn(cfg, calls, answers, key, 0.0, |calls|));
  }

  /** The burst puts one call too many into one window. */
  lemma BurstBreaksLimit(cfg: Config, calls: seq<Call>, key: string, others: seq<string>)
    requires Burst(cfg, calls, key, others) && cfg.windowSeconds > 0
    ensures Nondecreasing(calls) && !LimitHolds(cfg, calls)
  {
    BurstIsSimultaneous(cfg, calls, key, others);
    LimiterAnswersByLog(cfg, calls);
    BurstIsInOneWindow(cfg, calls, Answers(cfg, calls), key, others);
  }

  lemma BurstIsSimultaneous(cfg: Config, calls: seq<Call>, key: string, others: seq<string>)
    requires Burst(cfg, calls, key, others)
    ensures Nondecreasing(calls)
  {
    forall i | 0 <= i < |calls| ensures calls[i].now == 0.0 {
      if cfg.limit <= i < cfg.limit + |others| {
        assert calls[i] == Call(others[i - cfg.limit], 0.0);
      }
    }
  }

  /** Any number of distinct elements can be picked from a large enough set. */
  lemma {:induction false} Pick(keys: set<string>, n: nat) returns (picked: seq<string>)
    requires n <= |keys|
    ensures |picked| == n && Distinct(picked) && forall k :: k in picked ==> k in keys
  {
    picked := [];
    if n > 0 {
      var k :| k in keys;
      var rest := Pick(keys - {k}, n - 1);
      picked := rest + [k];
    }
  }

  lemma BurstExists(cfg: Config, keys: set<string>) returns (calls: seq<Call>, key: string, others: seq<string>)
    requires cfg.maxKeys >= 0 && cfg.limit > 0 && |keys| > cfg.maxKeys
    ensures Burst(cfg, calls, key, others) && CallsOver(calls, keys)
  {
    key :| key in keys;
    others := Pick(keys - {key}, cfg.maxKeys);
    calls := BurstOf(cfg.limit, key, others);
    forall i | 0 <= i < |calls| ensures calls[i].key in keys {
      if cfg.limit <= i < cfg.limit + |others| {
        assert others[i - cfg.limit] in others;
      }
    }
  }

  function BurstOf(limit: nat, key: string, others: seq<string>): (r: seq<Call>)
    ensures |r| == limit + |others| + 1
    ensures forall i :: 0 <= i < |r| ==>
      r[i] == Call(if limit <= i < limit + |others| then others[i - limit] else key, 0.0)
  {
    seq(limit + |others| + 1, i requires 0 <= i =>
      Call(if limit <= i < limit + |others| then others[i - limit] else key, 0.0))
  }

  /** The limit holds in every run over a set of keys if and only if the dictionary has room for all of them. */
  lemma LimitHoldsIffRoom(cfg: Config, keys: set<string>)
    requires cfg.maxKeys >= 0 && cfg.limit > 0 && cfg.windowSeconds > 0
    ensures (forall calls :: Nondecreasing(calls) && CallsOver(calls, keys) ==> LimitHolds(cfg, calls))
      <==> |keys| <= cfg.maxKeys
  {
    if |keys| <= cfg.maxKeys {
      forall calls | Nondecreasing(calls) && CallsOver(calls, keys) ensures LimitHolds(cfg, calls) {
        RoomMeansLimit(cfg, calls, keys);
      }
    } else {
      var calls, key, others := BurstExists(cfg, keys);
      BurstBreaksLimit(cfg, calls, key, others);
    }
  }

  predicate KeysAlternate(calls: seq<Call>) {
    forall i :: 0 < i < |calls| ==> calls[i].key != calls[i - 1].key
  }

  lemma {:induction false} OnlyLastKeyStays(cfg: Config, calls: seq<Call>, n: nat)
    requires cfg.maxKeys == 1 && cfg.limit == 1 && KeysAlternate(calls) && 0 < n <= |calls|
    ensures var last := calls[n - 1]; Reached(cfg, calls, n) == History([last.key], map[last.key := [last.now]])
  {
    if n > 1 {
      OnlyLastKeyStays(cfg, calls, n - 1);
    }
    AfterOneKey(cfg, Reached(cfg, calls, n - 1), calls[n - 1].key, calls[n - 1].now);
  }

  /** Eviction can lift the limit altogether: with room for one key and one call allowed, every run in which no
      key is called twice in a row is admitted. */
  lemma EvictionForgets(cfg: Config, calls: seq<Call>)
    requires cfg.maxKeys == 1 && cfg.limit == 1 && KeysAlternate(calls)
    ensures forall i :: 0 <= i < |calls| ==> Answers(cfg, calls)[i]
  {
    forall i | 0 <= i < |calls| ensures Allowed(cfg, Reached(cfg, calls, i), calls[i].key, calls[i].now) {
      if i > 0 {
        OnlyLastKeyStays(cfg, calls, i);
      }
      assert Lookup(Reached(cfg, calls, i), calls[i].key) == [];
    }
  }

  lemma AfterOneKey(cfg: Config, history: History, key: string, now: real)
    requires cfg.maxKeys == 1 && cfg.limit == 1 && key !in history.stamps
    ensures After(cfg, history, key, now) == History([key], map[key := [now]])
  {
    assert Fresh(cfg, [], now) == [];
    assert Recorded(cfg, history, key, now) == [now];
    NewestOfOne(Without(history.order, key), key);
  }

  lemma NewestOfOne(keys: seq<string>, key: string)
    ensures Newest(keys + [key], 1) == [key]
  {
  }
}
